/** The exporter: its accumulators, and `poll_once` step by step. */
module Exporter {
  import opened Text
  import opened Resp
  import opened Client
  import opened Registry
  import opened AclLog
  import opened Bindings
  import opened Poll

  // ---- specification --------------------------------------------------------------------------------

  /** The state kept across polls. */
  datatype State = Accumulators(acl: Acl, bindings: Binding, edge: Edge)

  const INITIAL: State := Accumulators(START, Binding(false, map[], 0), Edge(0, 0))

  /** The denial with which protected mode gives away that the default user has no password. */
  predicate ProtectedNoPass(text: Bytes)
  {
    Contains(text, "protected mode") && Contains(text, "no password is set for the default user")
  }

  lemma ProtectedNoPassIff(text: Bytes)
    ensures ProtectedNoPass(text) <==>
              HasWord(text, "protected mode") && HasWord(text, "no password is set for the default user")
  {
    ContainsIff(text, "protected mode");
    ContainsIff(text, "no password is set for the default user");
  }

  /** What a poll says about the default user, from either of the two detectors. */
  function Signal(o: Observation): Option<nat>
  {
    match o.usable
    case Some(u) => Some(u)
    case None => if o.failure.Some? && ProtectedNoPass(o.failure.value.text) then Some(1) else None
  }

  /** The effect of a poll on the accumulators. */
  function Advance(st: State, o: Observation): State
  {
    Accumulators(if o.page.Some? then OnPage(st.acl, o.page.value) else st.acl,
          if o.snapshot.Some? then Rebind(st.bindings, o.snapshot.value) else st.bindings,
          if Signal(o).Some? then OnSignal(st.edge, Signal(o).value) else st.edge)
  }

  const BINDING_EVENTS: string := "redis_binding_recreation_events_total"

  function PublishAll(d: Dict): (log: seq<Write>)
    ensures |log| == |d|
  {
    seq(|d|, i requires 0 <= i < |d| => CounterSet(SeriesOf(d[i].key.name, d[i].key.labels), d[i].value))
  }

  function PublishDefault(success: int): Write
  {
    CounterSet(SeriesOf(DEFAULT_SUCCESS.name, []), success)
  }

  function PublishChurn(churn: int): Write
  {
    CounterSet(SeriesOf(BINDING_EVENTS, []), churn)
  }

  /** The writes of a poll to the counters, in order. Nothing is published from the ACL
      log by the poll that adopts its first page. */
  function Writes(st: State, o: Observation, now: int): seq<Write>
  {
    SnapshotWrites(st.bindings, o) + PageWrites(st.acl, o) + EndWrites(st.edge, o, now)
  }

  function SnapshotWrites(b: Binding, o: Observation): seq<Write>
  {
    if o.snapshot.Some? then [PublishChurn(Rebind(b, o.snapshot.value).churn)] else []
  }

  function PageWrites(a: Acl, o: Observation): seq<Write>
  {
    if o.page.Some? && a.booted then PublishAll(OnPage(a, o.page.value).counters) else []
  }

  function EndWrites(e: Edge, o: Observation, now: int): seq<Write>
  {
    var signalled := if Signal(o).Some? then [PublishDefault(OnSignal(e, Signal(o).value).success)] else [];
    match o.failure
    case None => signalled + [PollSucceeded(now)]
    case Some(exn) => [PollFailed(exn.AuthError?)] + signalled
  }

  /** The failure handler's part of a poll. */
  function AfterDenial(st: State, exn: Exn): State
  {
    if ProtectedNoPass(exn.text) then st.(edge := OnSignal(st.edge, 1)) else st
  }

  function DenialWrites(st: State, exn: Exn): seq<Write>
  {
    if ProtectedNoPass(exn.text) then [PublishDefault(OnSignal(st.edge, 1).success)] else []
  }

  /** What `_collect` writes; the handlers write the rest. */
  function CollectWrites(st: State, o: Observation): seq<Write>
  {
    SnapshotWrites(st.bindings, o) + RestWrites(st.acl, st.edge, o)
  }

  function RestWrites(a: Acl, e: Edge, o: Observation): seq<Write>
  {
    PageWrites(a, o) + if o.usable.Some? then [PublishDefault(OnSignal(e, o.usable.value).success)] else []
  }

  lemma EndOfPoll(st: State, o: Observation, now: int, log: seq<Write>)
    requires o.usable.Some? <==> o.failure.None?
    ensures o.failure.None? ==>
              && Advance(st, o) == Advance(st, o.(failure := None))
              && log + CollectWrites(st, o) + [PollSucceeded(now)] == log + Writes(st, o, now)
    ensures o.failure.Some? ==>
              && Advance(st, o) == AfterDenial(Advance(st, o.(failure := None)), o.failure.value)
              && Advance(st, o.(failure := None)).edge == st.edge
              && log + CollectWrites(st, o)
                 + ([PollFailed(o.failure.value.AuthError?)] + DenialWrites(st, o.failure.value))
                 == log + Writes(st, o, now)
  {
    if o.failure.None? {
      assert EndWrites(st.edge, o, now)
          == [PublishDefault(OnSignal(st.edge, o.usable.value).success)] + [PollSucceeded(now)];
    } else {
      assert EndWrites(st.edge, o, now) == [PollFailed(o.failure.value.AuthError?)] + DenialWrites(st, o.failure.value);
    }
  }

  lemma SessionParts(c: Conn, config: Config, o: Observation, end: Conn)
    requires (o, end) == Converse(c, config)
    ensures var first := ToSnapshot(c, config);
            && (first.Thrown? ==> o == Observation(None, None, None, Some(first.exn)) && end == first.conn)
            && (first.Done? ==>
                  o.snapshot == Some(first.value) && (o, end) == FromSnapshot(first.value, first.conn, config))
  {
  }

  /** How the effects of the two halves of a session add up. */
  lemma SessionAddsUp(before: State, mid: State, after: State, o: Observation,
                      log: seq<Write>, midLog: seq<Write>, endLog: seq<Write>)
    requires o.snapshot.Some? && mid == before.(bindings := Rebind(before.bindings, o.snapshot.value))
    requires midLog == log + [PublishChurn(mid.bindings.churn)]
    requires after.bindings == mid.bindings
    requires after.acl == if o.page.Some? then OnPage(mid.acl, o.page.value) else mid.acl
    requires after.edge == if o.usable.Some? then OnSignal(mid.edge, o.usable.value) else mid.edge
    requires endLog == midLog + RestWrites(mid.acl, mid.edge, o)
    ensures after == Advance(before, o.(failure := None))
    ensures endLog == log + CollectWrites(before, o)
  {
    LogsAddUp(log, mid.bindings.churn, RestWrites(mid.acl, mid.edge, o));
  }

  lemma RestParts(c: Conn, config: Config, o: Observation, end: Conn)
    requires o.snapshot.Some? && (o, end) == FromSnapshot(o.snapshot.value, c, config)
    ensures var logged := ToPage(c, config);
            && (logged.Thrown? ==> o == Observation(o.snapshot, None, None, Some(logged.exn)) && end == logged.conn)
            && (logged.Done? ==>
                  (var probed := ProbeDefault(logged.conn);
                   && end == probed.conn
                   && (probed.Thrown? ==> o == Observation(o.snapshot, Some(logged.value), None, Some(probed.exn)))
                   && (probed.Done? ==> o == Observation(o.snapshot, Some(logged.value), Some(probed.value), None))))
  {
  }

  lemma RestLog(log: seq<Write>, a: Acl, e: Edge, o: Observation)
    ensures log + RestWrites(a, e, o)
         == if o.usable.Some? then log + PageWrites(a, o) + [PublishDefault(OnSignal(e, o.usable.value).success)]
            else log + PageWrites(a, o)
  {
  }

  lemma LogsAddUp(log: seq<Write>, churn: int, rest: seq<Write>)
    ensures log + [PublishChurn(churn)] + rest == log + ([PublishChurn(churn)] + rest)
  {
  }

  lemma LogGrows(log: seq<Write>, all: seq<Write>, i: nat)
    requires i < |all|
    ensures log + all[..i] + [all[i]] == log + all[..i + 1]
  {
  }

  lemma NothingLearnt(st: State, exn: Exn)
    ensures var o := Observation(None, None, None, Some(exn));
            Advance(st, o.(failure := None)) == st && CollectWrites(st, o) == []
  {
  }

  // ---- the class ------------------------------------------------------------------------------------

  const GAUGES: set<string> := {
    "redis_db_keys", "redis_db_keys_total", "redis_rdb_last_bgsave_status",
    "redis_up", "redis_key_exists", "redis_queue_depth", "redis_unacked_present", "redis_unacked_index_present",
    "redis_binding_sets", "redis_result_records_total", "redis_acl_default_usable"}

  ghost predicate OnlyGauges(values: Dict)
  {
    forall item | item in values :: item.key.name in GAUGES
  }

  lemma {:induction false} PutGauge(values: Dict, key: Series, value: int)
    requires OnlyGauges(values) && key.name in GAUGES
    ensures OnlyGauges(Put(values, key, value))
  {
    if values != [] && values[0].key != key {
      assert values == [values[0]] + values[1..];
      PutGauge(values[1..], key, value);
    }
  }

  class Exporter {
    const metrics: Metrics
    const config: Config
    var aclBootstrapped: bool
    var aclEntryCounts: map<int, int>
    var aclCounters: Dict
    var bindingBootstrapped: bool
    var bindingMembers: Snapshot
    var bindingChurn: nat
    var defaultUsablePrev: nat
    var defaultSuccess: nat

    constructor (metrics: Metrics, config: Config)
      requires metrics.Valid() && OnlyGauges(metrics.values)
      ensures Valid() && this.metrics == metrics && this.config == config
      ensures State() == INITIAL
    {
      this.metrics, this.config := metrics, config;
      aclBootstrapped, aclEntryCounts, aclCounters := false, map[], Zeros(SEEDED_KEYS);
      bindingBootstrapped, bindingMembers, bindingChurn := false, map[], 0;
      defaultUsablePrev, defaultSuccess := 0, 0;
    }

    ghost predicate Valid()
      reads this, metrics
    {
      metrics.Valid() && OnlyGauges(metrics.values)
    }

    function State(): State
      reads this
    {
      Accumulators(Acl(aclBootstrapped, aclEntryCounts, aclCounters),
                  Binding(bindingBootstrapped, bindingMembers, bindingChurn),
                  Edge(defaultUsablePrev, defaultSuccess))
    }

    method SetGauge(name: string, value: int, labels: seq<Label>)
      requires Valid() && name in GAUGES
      modifies metrics`values
      ensures Valid()
    {
      PutGauge(metrics.values, SeriesOf(name, labels), value);
      metrics.Set(name, value, labels);
    }

    /** One poll. Whatever the connection does, the accumulators and the registry end up
        as the observation says, and the writes happened in the order given. */
    method PollOnce(connection: Connection, now: int)
      requires Valid()
      modifies this, metrics
      ensures Valid()
      ensures var o := Observe(connection, config);
              && State() == Advance(old(State()), o)
              && metrics.log == old(metrics.log) + Writes(old(State()), o, now)
    {
      ghost var o := Observe(connection, config);
      ghost var before, log := State(), metrics.log;
      var outcome: Result<()>;
      if connection.Refused? {
        outcome := Raise(Failure(connection.text));
      } else {
        var client := new RedisClient(connection.input, connection.ending);
        outcome := Session(client, o, Converse(client.State(), config).1);
      }
      EndOfPoll(before, o, now, log);
      Conclude(outcome, now);
    }

    /** The handlers of `poll_once`. */
    method Conclude(outcome: Result<()>, now: int)
      requires Valid()
      modifies this`defaultUsablePrev, this`defaultSuccess, metrics
      ensures Valid()
      ensures outcome.Ok? ==> State() == old(State()) && metrics.log == old(metrics.log) + [PollSucceeded(now)]
      ensures outcome.Raise? ==>
                && State() == AfterDenial(old(State()), outcome.exn)
                && metrics.log == old(metrics.log)
                                  + ([PollFailed(outcome.exn.AuthError?)] + DenialWrites(old(State()), outcome.exn))
    {
      match outcome
      case Ok(_) =>
        metrics.Succeeded(now);
      case Raise(exn) =>
        metrics.Failed(exn.AuthError?);
        NoteProtectedModeNoPass(exn.text);
    }

    /** `RedisClient(...)` and `_collect`: the client ends up having held the conversation
        of the specification. */
    method Session(client: RedisClient, ghost o: Observation, ghost end: Conn) returns (r: Result<()>)
      requires Valid() && (o, end) == Converse(client.State(), config)
      modifies this, metrics, client
      ensures Valid() && client.State() == end
      ensures r.Raise? <==> o.failure.Some?
      ensures r.Raise? ==> o.failure == Some(r.exn)
      ensures State() == Advance(old(State()), o.(failure := None))
      ensures metrics.log == old(metrics.log) + CollectWrites(old(State()), o)
    {
      ghost var before, log := State(), metrics.log;
      SessionParts(client.State(), config, o, end);
      var bound := CollectFirst(client);
      if bound.Raise? {
        NothingLearnt(before, bound.exn);
        return bound;
      }
      ghost var mid, midLog := State(), metrics.log;
      r := CollectRest(client, o, end);
      SessionAddsUp(before, mid, State(), o, log, midLog, metrics.log);
    }

    /** Up to and including the binding churn. */
    method CollectFirst(client: RedisClient) returns (r: Result<()>)
      requires Valid()
      modifies this`bindingBootstrapped, this`bindingMembers, this`bindingChurn, metrics, client
      ensures Valid()
      ensures var step := ToSnapshot(old(client.State()), config);
              && client.State() == step.conn
              && (r.Raise? <==> step.Thrown?) && (r.Raise? ==> r.exn == step.exn)
              && State() == (if step.Thrown? then old(State())
                             else old(State()).(bindings := Rebind(old(State()).bindings, step.value)))
              && metrics.log == old(metrics.log) + if step.Thrown? then [] else [PublishChurn(bindingChurn)]
    {
      var login := LogIn(client);
      if login.Raise? {
        return login;
      }
      var probes := RunProbes(client);
      if probes.Raise? {
        return probes;
      }
      r := CollectBindings(client);
    }

    method LogIn(client: RedisClient) returns (r: Result<()>)
      modifies client
      ensures var step := Login(old(client.State()), config);
              client.State() == step.conn && r == step.AsResult()
    {
      if config.password == [] {
        return Ok(());
      }
      var reply := client.Command(["AUTH", config.username, config.password]);
      if reply.Raise? {
        return Raise(reply.exn);
      }
      r := if reply.value == Str("OK") then Ok(()) else Raise(AuthError("authentication rejected"));
    }

    method RunProbes(client: RedisClient) returns (r: Result<()>)
      requires Valid()
      modifies metrics`values, client
      ensures Valid()
      ensures var step := Probes(old(client.State()));
              client.State() == step.conn && r == step.AsResult()
    {
      var server := RunServerProbe(client);
      if server.Raise? {
        return server;
      }
      var queue := RunQueueProbe(client);
      if queue.Raise? {
        return queue;
      }
      var unacked := client.Command(["EXISTS", "unacked"]);
      if unacked.Raise? {
        return Raise(unacked.exn);
      }
      SetGauge("redis_unacked_present", if unacked.value == Int(1) then 1 else 0, []);
      var index := client.Command(["EXISTS", "unacked_index"]);
      if index.Raise? {
        return Raise(index.exn);
      }
      SetGauge("redis_unacked_index_present", if index.value == Int(1) then 1 else 0, []);
      r := Ok(());
    }

    method RunServerProbe(client: RedisClient) returns (r: Result<()>)
      requires Valid()
      modifies metrics`values, client
      ensures Valid()
      ensures var step := ProbeServer(old(client.State()));
              client.State() == step.conn && r == step.AsResult()
    {
      var ping := client.Command(["PING"]);
      if ping.Raise? {
        return Raise(ping.exn);
      }
      SetGauge("redis_up", if ping.value == Str("PONG") then 1 else 0, []);
      var info := client.Command(["INFO"]);
      if info.Raise? {
        return Raise(info.exn);
      }
      if !info.value.Str? {
        return Raise(BAD_TYPE);
      }
      var databases: seq<(string, int)>, saved: bool := *, *;
      SetInfoGauges(databases, saved);
      r := Ok(());
    }

    /** The gauges read off INFO: any databases with any numbers of keys, and the outcome
        of the last save. */
    method SetInfoGauges(databases: seq<(string, int)>, saved: bool)
      requires Valid()
      modifies metrics`values
      ensures Valid()
    {
      var i, total := 0, 0;
      while i < |databases|
        invariant 0 <= i <= |databases| && Valid()
      {
        SetGauge("redis_db_keys", databases[i].1, [Label("db", databases[i].0)]);
        total := total + databases[i].1;
        i := i + 1;
      }
      SetGauge("redis_db_keys_total", total, []);
      SetGauge("redis_rdb_last_bgsave_status", if saved then 1 else 0, []);
    }

    method RunQueueProbe(client: RedisClient) returns (r: Result<()>)
      requires Valid()
      modifies metrics`values, client
      ensures Valid()
      ensures var step := ProbeQueue(old(client.State()));
              client.State() == step.conn && r == step.AsResult()
    {
      var present := client.Command(["EXISTS", "ingestion"]);
      if present.Raise? {
        return Raise(present.exn);
      }
      SetGauge("redis_key_exists", if present.value == Int(1) then 1 else 0, [Label("key", "ingestion")]);
      var depth := client.Command(["LLEN", "ingestion"]);
      if depth.Raise? {
        return Raise(depth.exn);
      }
      if FloatOf(depth.value).None? {
        return Raise(BadFloat(depth.value));
      }
      SetGauge("redis_queue_depth", FloatOf(depth.value).value, [Label("queue", "ingestion")]);
      r := Ok(());
    }

    method ReadBindings(client: RedisClient) returns (r: Result<Snapshot>)
      modifies client
      ensures var step := TakeSnapshot(old(client.State()), config.maxScanPages);
              client.State() == step.conn && r == step.AsResult()
    {
      var scan := client.ScanMatch(BINDING_PATTERN, config.maxScanPages);
      if scan.Raise? {
        return Raise(scan.exn);
      }
      var keys, current, i := scan.value, map[], 0;
      ghost var whole := ReadSets(client.State(), keys, map[]);
      assert keys[0..] == keys;
      while i < |keys|
        invariant 0 <= i <= |keys|
        invariant whole == ReadSets(client.State(), keys[i..], current)
      {
        var members := client.Command(["SMEMBERS", PyStr(keys[i])]);
        if members.Raise? {
          return Raise(members.exn);
        }
        var elements := SetOf(members.value);
        if elements.None? || !Hashable(keys[i]) {
          return Raise(BAD_TYPE);
        }
        assert keys[i..][1..] == keys[i + 1..];
        current := current[keys[i] := elements.value];
        i := i + 1;
      }
      r := Ok(current);
    }

    method CollectBindings(client: RedisClient) returns (r: Result<()>)
      requires Valid()
      modifies this`bindingBootstrapped, this`bindingMembers, this`bindingChurn, metrics, client
      ensures Valid()
      ensures var step := TakeSnapshot(old(client.State()), config.maxScanPages);
              && client.State() == step.conn
              && (r.Raise? <==> step.Thrown?) && (r.Raise? ==> r.exn == step.exn)
              && State() == (if step.Thrown? then old(State())
                             else old(State()).(bindings := Rebind(old(State()).bindings, step.value)))
              && metrics.log == old(metrics.log) + if step.Thrown? then [] else [PublishChurn(bindingChurn)]
    {
      var snapshot := ReadBindings(client);
      if snapshot.Raise? {
        return Raise(snapshot.exn);
      }
      RecordBindings(snapshot.value);
      r := Ok(());
    }

    method Remember(current: Snapshot)
      modifies this`bindingBootstrapped, this`bindingMembers, this`bindingChurn
      ensures State() == old(State()).(bindings := Rebind(old(State()).bindings, current))
    {
      ghost var b := Binding(bindingBootstrapped, bindingMembers, bindingChurn);
      var additions := CountAdditions(bindingBootstrapped, bindingMembers, current);
      assert Rebind(b, current) == Binding(true, current, bindingChurn + additions);
      bindingMembers, bindingBootstrapped, bindingChurn := current, true, bindingChurn + additions;
    }

    method RecordBindings(current: Snapshot)
      requires Valid()
      modifies this`bindingBootstrapped, this`bindingMembers, this`bindingChurn, metrics
      ensures Valid()
      ensures State() == old(State()).(bindings := Rebind(old(State()).bindings, current))
      ensures metrics.log == old(metrics.log) + [PublishChurn(bindingChurn)]
    {
      Remember(current);
      SetGauge("redis_binding_sets", |current|, []);
      metrics.SetCounter(BINDING_EVENTS, bindingChurn, []);
    }

    method CollectResults(client: RedisClient) returns (r: Result<()>)
      requires Valid()
      modifies metrics`values, client
      ensures Valid()
      ensures var step := CountResults(old(client.State()), config.maxScanPages);
              && client.State() == step.conn
              && (r.Raise? <==> step.Thrown?) && (r.Raise? ==> r.exn == step.exn)
    {
      var selected := client.Command(["SELECT", "1"]);
      if selected.Raise? {
        return Raise(selected.exn);
      }
      var results := client.ScanMatch(RESULT_PATTERN, config.maxScanPages);
      if results.Raise? {
        return Raise(results.exn);
      }
      var back := client.Command(["SELECT", "0"]);
      if back.Raise? {
        return Raise(back.exn);
      }
      SetGauge("redis_result_records_total", |results.value|, []);
      r := Ok(());
    }

    /** Everything from the result records on. */
    method CollectRest(client: RedisClient, ghost o: Observation, ghost end: Conn) returns (r: Result<()>)
      requires Valid() && o.snapshot.Some? && (o, end) == FromSnapshot(o.snapshot.value, client.State(), config)
      modifies this`aclBootstrapped, this`aclEntryCounts, this`aclCounters
      modifies this`defaultUsablePrev, this`defaultSuccess, metrics, client
      ensures Valid() && client.State() == end
      ensures r.Raise? <==> o.failure.Some?
      ensures r.Raise? ==> o.failure == Some(r.exn)
      ensures State().bindings == old(State().bindings)
      ensures State().acl == (if o.page.Some? then OnPage(old(State().acl), o.page.value) else old(State().acl))
      ensures State().edge
           == (if o.usable.Some? then OnSignal(old(State().edge), o.usable.value) else old(State().edge))
      ensures metrics.log == old(metrics.log) + RestWrites(old(State()).acl, old(State()).edge, o)
    {
      ghost var before, log := State(), metrics.log;
      RestParts(client.State(), config, o, end);
      r := CollectPage(client);
      if r.Raise? {
        return;
      }
      assert o.page.Some? && State() == before.(acl := OnPage(before.acl, o.page.value));
      assert metrics.log == log + PageWrites(before.acl, o);
      r := ProbeDefaultUser(client);
      RestLog(log, before.acl, before.edge, o);
    }

    /** The result records and the ACL log. */
    method CollectPage(client: RedisClient) returns (r: Result<()>)
      requires Valid()
      modifies this`aclBootstrapped, this`aclEntryCounts, this`aclCounters, metrics, client
      ensures Valid()
      ensures var step := ToPage(old(client.State()), config);
              && client.State() == step.conn
              && (r.Raise? <==> step.Thrown?) && (r.Raise? ==> r.exn == step.exn)
              && State() == (if step.Thrown? then old(State())
                             else old(State()).(acl := OnPage(old(State()).acl, step.value)))
              && metrics.log == old(metrics.log)
                                + if step.Thrown? || !old(aclBootstrapped) then [] else PublishAll(aclCounters)
    {
      r := CollectResults(client);
      if r.Raise? {
        return;
      }
      r := CollectAclLog(client);
    }

    method ProbeDefaultUser(client: RedisClient) returns (r: Result<()>)
      requires Valid()
      modifies this`defaultUsablePrev, this`defaultSuccess, metrics, client
      ensures Valid()
      ensures var step := ProbeDefault(old(client.State()));
              && client.State() == step.conn
              && (r.Raise? <==> step.Thrown?) && (r.Raise? ==> r.exn == step.exn)
              && State() == (if step.Thrown? then old(State())
                             else old(State()).(edge := OnSignal(old(State()).edge, step.value)))
              && metrics.log == old(metrics.log) + if step.Thrown? then [] else [PublishDefault(defaultSuccess)]
    {
      var reply := client.Command(["ACL", "DRYRUN", "default", "PING"]);
      if reply.Raise? && reply.exn.Failure? {
        return Raise(reply.exn);
      }
      RecordUsable(if reply.Raise? || reply.value == Str("OK") then 1 else 0);
      r := Ok(());
    }

    method RecordUsable(usable: nat)
      requires Valid()
      modifies this`defaultUsablePrev, this`defaultSuccess, metrics
      ensures Valid()
      ensures State() == old(State()).(edge := OnSignal(old(State()).edge, usable))
      ensures metrics.log == old(metrics.log) + [PublishDefault(defaultSuccess)]
    {
      if usable == 1 && defaultUsablePrev == 0 {
        defaultSuccess := defaultSuccess + 1;
      }
      defaultUsablePrev := usable;
      SetGauge("redis_acl_default_usable", usable, []);
      metrics.SetCounter(DEFAULT_SUCCESS.name, defaultSuccess, []);
    }

    method NoteProtectedModeNoPass(text: Bytes)
      requires Valid()
      modifies this`defaultUsablePrev, this`defaultSuccess, metrics
      ensures Valid()
      ensures State() == (if ProtectedNoPass(text) then old(State()).(edge := OnSignal(old(State()).edge, 1))
                          else old(State()))
      ensures metrics.log == old(metrics.log) + if ProtectedNoPass(text) then [PublishDefault(defaultSuccess)] else []
    {
      if ProtectedNoPass(text) {
        if defaultUsablePrev == 0 {
          defaultSuccess := defaultSuccess + 1;
        }
        defaultUsablePrev := 1;
        SetGauge("redis_acl_default_usable", 1, []);
        metrics.SetCounter(DEFAULT_SUCCESS.name, defaultSuccess, []);
      }
    }

    method CollectAclLog(client: RedisClient) returns (r: Result<()>)
      requires Valid()
      modifies this`aclBootstrapped, this`aclEntryCounts, this`aclCounters, metrics, client
      ensures Valid()
      ensures var step := TakePage(old(client.State()));
              && client.State() == step.conn
              && (r.Raise? <==> step.Thrown?) && (r.Raise? ==> r.exn == step.exn)
              && State() == (if step.Thrown? then old(State())
                             else old(State()).(acl := OnPage(old(State()).acl, step.value)))
              && metrics.log == old(metrics.log)
                                + if step.Thrown? || !old(aclBootstrapped) then [] else PublishAll(aclCounters)
    {
      var reply := client.Command(["ACL", "LOG", "128"]);
      if reply.Raise? {
        return Raise(reply.exn);
      }
      var page := ReadEntries(reply.value);
      if page.Raise? {
        return Raise(page.exn);
      }
      if !aclBootstrapped {
        AdoptEntries(page.value);
        aclBootstrapped := true;
        return Ok(());
      }
      CountEntries(page.value);
      PublishAclCounters();
      r := Ok(());
    }

    method AdoptEntries(parsed: seq<Entry>)
      modifies this`aclEntryCounts
      ensures aclEntryCounts == Adopt(old(aclEntryCounts), parsed)
    {
      var i := 0;
      while i < |parsed|
        invariant 0 <= i <= |parsed|
        invariant aclEntryCounts == Adopt(old(aclEntryCounts), parsed[..i])
      {
        assert parsed[..i + 1][..i] == parsed[..i];
        aclEntryCounts := aclEntryCounts[parsed[i].id := parsed[i].count];
        i := i + 1;
      }
      assert parsed[..|parsed|] == parsed;
    }

    method CountEntries(parsed: seq<Entry>)
      modifies this`aclEntryCounts, this`aclCounters
      ensures State().acl == CountAll(old(State().acl), parsed)
    {
      var i := 0;
      while i < |parsed|
        invariant 0 <= i <= |parsed|
        invariant State().acl == CountAll(old(State().acl), parsed[..i])
        invariant State().bindings == old(State().bindings) && State().edge == old(State().edge)
      {
        assert parsed[..i + 1][..i] == parsed[..i];
        CountEntry(parsed[i]);
        i := i + 1;
      }
      assert parsed[..|parsed|] == parsed;
    }

    method CountEntry(e: Entry)
      modifies this`aclEntryCounts, this`aclCounters
      ensures State().acl == Count1(old(State().acl), e)
    {
      var delta := if e.id !in aclEntryCounts then e.count
                   else if e.count > aclEntryCounts[e.id] then e.count - aclEntryCounts[e.id] else 0;
      aclEntryCounts := aclEntryCounts[e.id := e.count];
      if delta == 0 {
        return;
      }
      ChargeTo(Classify(e.record), delta);
    }

    method ChargeTo(class_: Class, delta: int)
      modifies this`aclCounters
      ensures aclCounters == Charge(old(aclCounters), class_, delta)
    {
      aclCounters := Put(aclCounters, class_.key, GetOr0(aclCounters, class_.key) + delta);
      if class_.emergency {
        aclCounters := Put(aclCounters, EMERGENCY_USE, GetOr0(aclCounters, EMERGENCY_USE) + delta);
      }
    }

    method PublishAclCounters()
      requires Valid()
      modifies metrics`counters, metrics`log
      ensures Valid()
      ensures metrics.log == old(metrics.log) + PublishAll(aclCounters)
    {
      ghost var all, log := PublishAll(aclCounters), metrics.log;
      var i := 0;
      while i < |aclCounters|
        invariant 0 <= i <= |aclCounters|
        invariant Valid()
        invariant metrics.log == log + all[..i]
      {
        var item := aclCounters[i];
        metrics.SetCounter(item.key.name, item.value, item.key.labels);
        LogGrows(log, all, i);
        i := i + 1;
      }
      assert all[..i] == all;
    }
  }

  /** The parsing loop of `_collect_acl_log`. */
  method ReadEntries(reply: Reply) returns (r: Result<seq<Entry>>)
    ensures r == ParsePage(reply)
  {
    if !Truthy(reply) {
      return Ok([]);
    }
    var listed := Elements(reply);
    if listed.None? {
      return Raise(BAD_TYPE);
    }
    var entries, parsed, i := listed.value, [], 0;
    assert entries[0..] == entries;
    while i < |entries|
      invariant 0 <= i <= |entries|
      invariant ParseEntries(entries, []) == ParseEntries(entries[i..], parsed)
    {
      assert entries[i..][1..] == entries[i + 1..];
      var items := Elements(entries[i]);
      if items.None? {
        return Raise(BAD_TYPE);
      }
      var record := ReadRecord(items.value);
      if record.None? {
        return Raise(BAD_TYPE);
      }
      var id, count := IntField(record.value, "entry-id", 0), IntField(record.value, "count", 1);
      if id.Some? && count.Some? {
        parsed := parsed + [Entry(id.value, count.value, record.value)];
      }
      i := i + 1;
    }
    r := Ok(parsed);
  }

  method ReadRecord(items: seq<Reply>) returns (r: Option<Record>)
    ensures r == RecordFrom(items, 0, map[])
  {
    var record: Record, index := map[], 0;
    while index + 1 < |items|
      invariant 0 <= index
      invariant RecordFrom(items, 0, map[]) == RecordFrom(items, index, record)
    {
      if !Hashable(items[index]) {
        return None;
      }
      record := record[items[index] := items[index + 1]];
      index := index + 2;
    }
    r := Some(record);
  }
}
