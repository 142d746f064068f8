/** What polls leave in the exporter's own four series, and on the page. */
module Outcomes {
  import opened Text
  import Resp
  import opened Client
  import opened Registry
  import opened Poll
  import opened Exporter
  import opened Runs
  import opened Scrapes
  import Bindings
  import AclAccounting
  import AclLog
  import Exposition
  import Interruption

  lemma {:induction false} CounterWritesOnly(log: seq<Write>, ws: seq<Write>)
    requires forall w | w in ws :: w.CounterSet?
    ensures After(log + ws) == After(log).(counters := After(log + ws).counters)
    decreases |ws|
  {
    if ws == [] {
      assert log + ws == log;
    } else {
      var n := |ws| - 1;
      CounterWritesOnly(log, ws[..n]);
      AfterAppend(log + ws[..n], ws[n]);
      assert log + ws == log + ws[..n] + [ws[n]];
    }
  }

  /** How a poll ended, by what it leaves: the flag, the time of the last success, and one
      of two counters a failure goes to. */
  predicate Ended(before: View, after: View, failure: Option<Resp.Exn>, now: int)
  {
    match failure
    case None =>
      after.up == 1 && after.lastSuccess == now
      && after.authFailures == before.authFailures && after.scrapeErrors == before.scrapeErrors
    case Some(exn) =>
      after.up == 0 && after.lastSuccess == before.lastSuccess
      && after.authFailures == before.authFailures + (if exn.AuthError? then 1 else 0)
      && after.scrapeErrors == before.scrapeErrors + (if exn.AuthError? then 0 else 1)
  }

  lemma PollEnded(log: seq<Write>, st: State, o: Observation, now: int)
    ensures Ended(After(log), After(log + Writes(st, o, now)), o.failure, now)
  {
    var s, p, e := SnapshotWrites(st.bindings, o), PageWrites(st.acl, o), EndWrites(st.edge, o, now);
    CounterWritesOnly(log, s + p);
    EndEnded(log + (s + p), st, o, now);
    EndedSame(After(log), After(log + (s + p)), After(log + (s + p) + e), o.failure, now);
    Joined(log, s + p, e);
  }

  lemma Joined(log: seq<Write>, ws: seq<Write>, e: seq<Write>)
    ensures log + ws + e == log + (ws + e)
  {
  }

  lemma EndedSame(v: View, mid: View, w: View, failure: Option<Resp.Exn>, now: int)
    requires mid == v.(counters := mid.counters) && Ended(mid, w, failure, now)
    ensures Ended(v, w, failure, now)
  {
  }

  lemma SucceededLast(log: seq<Write>, ws: seq<Write>, now: int)
    requires forall w | w in ws :: w.CounterSet?
    ensures Ended(After(log), After(log + (ws + [PollSucceeded(now)])), None, now)
  {
    CounterWritesOnly(log, ws);
    AfterAppend(log + ws, PollSucceeded(now));
    assert log + (ws + [PollSucceeded(now)]) == log + ws + [PollSucceeded(now)];
  }

  lemma FailedFirst(log: seq<Write>, exn: Resp.Exn, ws: seq<Write>, now: int)
    requires forall w | w in ws :: w.CounterSet?
    ensures Ended(After(log), After(log + ([PollFailed(exn.AuthError?)] + ws)), Some(exn), now)
  {
    var failed := PollFailed(exn.AuthError?);
    AfterAppend(log, failed);
    CounterWritesOnly(log + [failed], ws);
    assert log + ([failed] + ws) == log + [failed] + ws;
  }

  lemma EndEnded(log: seq<Write>, st: State, o: Observation, now: int)
    ensures Ended(After(log), After(log + EndWrites(st.edge, o, now)), o.failure, now)
  {
    var signalled := if Signal(o).Some? then [PublishDefault(OnSignalOf(st, o))] else [];
    match o.failure
    case None => SucceededLast(log, signalled, now);
    case Some(exn) => FailedFirst(log, exn, signalled, now);
  }

  function OnSignalOf(st: State, o: Observation): nat
    requires Signal(o).Some?
  {
    Bindings.OnSignal(st.edge, Signal(o).value).success
  }

  /** In every reachable state the exporter is up exactly when the last poll succeeded. */
  lemma UpIff(polls: seq<Observation>, times: seq<int>)
    requires |polls| == |times|
    ensures After(Log(polls, times)).up == 1 <==> polls != [] && polls[|polls| - 1].failure == None
  {
    if polls != [] {
      var n := |polls| - 1;
      PollEnded(Log(polls[..n], times[..n]), Run(polls[..n]), polls[n], times[n]);
    }
  }

  /** The two counters are the numbers of polls that failed in the two ways. */
  function Failed(polls: seq<Observation>, auth: bool): nat
  {
    if polls == [] then 0
    else
      var o := polls[|polls| - 1];
      Failed(polls[..|polls| - 1], auth) + if o.failure.Some? && o.failure.value.AuthError? == auth then 1 else 0
  }

  lemma {:induction false} FailuresCounted(polls: seq<Observation>, times: seq<int>)
    requires |polls| == |times|
    ensures After(Log(polls, times)).authFailures == Failed(polls, true)
    ensures After(Log(polls, times)).scrapeErrors == Failed(polls, false)
  {
    if polls != [] {
      var n := |polls| - 1;
      FailuresCounted(polls[..n], times[..n]);
      PollEnded(Log(polls[..n], times[..n]), Run(polls[..n]), polls[n], times[n]);
    }
  }

  /** A poll that ends at an error reply counts as an authentication failure exactly when
      the reply holds one of the three words, and as a scrape error otherwise. */
  lemma ErrorReplyCounted(log: seq<Write>, st: State, now: int, replies: seq<Resp.Wire>, n: nat, t: Bytes,
                          ending: Resp.Ending, config: Config)
    requires Resp.AllWellFormed(replies) && n < |replies| && replies[n] == Resp.Error(t)
    requires var (o, end) := Converse(Conn(Resp.EncodeAll(replies), ending, []), config);
             |end.trace| > n && o.page == None
    ensures var v := After(log);
            var w := After(log + Writes(st, Observe(Accepted(Resp.EncodeAll(replies), ending), config), now));
            var auth := HasWord(t, "WRONGPASS") || HasWord(t, "NOAUTH") || HasWord(t, "NOPERM");
            && w.up == 0 && w.authFailures == v.authFailures + (if auth then 1 else 0)
            && w.scrapeErrors == v.scrapeErrors + (if auth then 0 else 1)
  {
    Interruption.ErrorReplyEnds(replies, n, t, ending, config);
    Interruption.ObserveIsConverse(Resp.EncodeAll(replies), ending, config);
    PollEnded(log, st, Observe(Accepted(Resp.EncodeAll(replies), ending), config), now);
  }

  // ---- the page in reachable states ----------------------------------------------------------------------

  ghost predicate AllPlain(keys: seq<Series>)
  {
    forall key | key in keys :: Exposition.Plain(key)
  }

  lemma DeniedPlain(role: string)
    requires '"' !in role && '\n' !in role
    ensures AllPlain(AclLog.DeniedBy(role))
  {
    assert '"' !in "destructive" && '\n' !in "destructive" && '"' !in "other" && '\n' !in "other";
    DeniedKeyPlain(role, "destructive");
    DeniedKeyPlain(role, "other");
    TwoPlain(AclLog.Denied(role, "destructive"), AclLog.Denied(role, "other"));
  }

  lemma DeniedKeyPlain(role: string, category: string)
    requires '"' !in role && '\n' !in role && '"' !in category && '\n' !in category
    ensures Exposition.Plain(AclLog.Denied(role, category))
  {
    LabelNamesPlain();
    DeniedNoBrace();
    DeniedNoFeed();
  }

  lemma LabelNamesPlain()
    ensures '=' !in "role" && '=' !in "category" && '\n' !in "role" && '\n' !in "category"
  {
  }

  lemma DeniedNoBrace()
    ensures '{' !in "redis_acl_denied_commands_total"
  {
  }

  lemma DeniedNoFeed()
    ensures '\n' !in "redis_acl_denied_commands_total"
  {
  }

  lemma PlainConcat(a: seq<Series>, b: seq<Series>)
    requires AllPlain(a) && AllPlain(b)
    ensures AllPlain(a + b)
  {
  }

  lemma AuthNoBrace()
    ensures '{' !in "redis_auth_failures_total"
  {
  }

  lemma AuthNoFeed()
    ensures '\n' !in "redis_auth_failures_total"
  {
  }

  lemma AuthPlain()
    ensures Exposition.Plain(AclLog.AUTH_FAILURES)
  {
    AuthNoBrace();
    AuthNoFeed();
  }

  lemma EmergencyNoBrace()
    ensures '{' !in "redis_acl_emergency_use_total"
  {
  }

  lemma EmergencyNoFeed()
    ensures '\n' !in "redis_acl_emergency_use_total"
  {
  }

  lemma EmergencyPlain()
    ensures Exposition.Plain(AclLog.EMERGENCY_USE)
  {
    EmergencyNoBrace();
    EmergencyNoFeed();
  }

  lemma DefaultNoBrace()
    ensures '{' !in "redis_acl_default_auth_success_total"
  {
  }

  lemma DefaultNoFeed()
    ensures '\n' !in "redis_acl_default_auth_success_total"
  {
  }

  lemma DefaultPlain()
    ensures Exposition.Plain(AclLog.DEFAULT_SUCCESS)
  {
    DefaultNoBrace();
    DefaultNoFeed();
  }

  lemma TwoPlain(a: Series, b: Series)
    requires Exposition.Plain(a) && Exposition.Plain(b)
    ensures AllPlain([a]) && AllPlain([a, b])
  {
  }

  lemma SeededPlain()
    ensures AllPlain(AclLog.SEEDED_KEYS)
  {
    DeniedPlain("broker");
    DeniedPlain("results");
    DeniedPlain("monitor");
    DeniedPlain("other");
    AuthPlain();
    EmergencyPlain();
    DefaultPlain();
    TwoPlain(AclLog.AUTH_FAILURES, AclLog.AUTH_FAILURES);
    TwoPlain(AclLog.EMERGENCY_USE, AclLog.DEFAULT_SUCCESS);
    var two := AclLog.DeniedBy("broker") + AclLog.DeniedBy("results");
    PlainConcat(AclLog.DeniedBy("broker"), AclLog.DeniedBy("results"));
    PlainConcat(two, AclLog.DeniedBy("monitor"));
    PlainConcat(two + AclLog.DeniedBy("monitor"), AclLog.DeniedBy("other"));
    PlainConcat(two + AclLog.DeniedBy("monitor") + AclLog.DeniedBy("other"), [AclLog.AUTH_FAILURES]);
    PlainConcat(AclLog.PARTITION, [AclLog.EMERGENCY_USE, AclLog.DEFAULT_SUCCESS]);
  }

  lemma SortedPlain(key: Series)
    requires Exposition.Plain(key)
    ensures Exposition.Plain(SeriesOf(key.name, key.labels))
  {
    forall l | l in SeriesOf(key.name, key.labels).labels ensures Exposition.PlainLabel(l) {
      assert l in multiset(SeriesOf(key.name, key.labels).labels) && l in multiset(key.labels);
    }
  }

  lemma FixedPlain()
    ensures Exposition.Plain(CHURN_SERIES) && Exposition.Plain(DEFAULT_SERIES)
  {
    assert '{' !in "redis_binding_recreation_events_total" && '\n' !in "redis_binding_recreation_events_total";
    DefaultPlain();
    SortedPlain(AclLog.DEFAULT_SUCCESS);
    SortedPlain(Series(BINDING_EVENTS, []));
  }

  lemma PagePlain(st: State, o: Observation, k: nat)
    requires Keys(st.acl.counters) == AclLog.SEEDED_KEYS && k < |PageWrites(st.acl, o)|
    ensures PageWrites(st.acl, o)[k].CounterSet? && Exposition.Plain(PageWrites(st.acl, o)[k].key)
  {
    AclAccounting.Partitioned(st.acl, o.page.value);
    var d := AclLog.OnPage(st.acl, o.page.value).counters;
    SeededPlain();
    KeysLength(d);
    assert Keys(d)[k] == d[k].key && d[k].key in AclLog.SEEDED_KEYS;
    SortedPlain(d[k].key);
  }

  lemma WritesPlain(st: State, o: Observation, now: int, i: nat)
    requires Keys(st.acl.counters) == AclLog.SEEDED_KEYS
    requires i < |Writes(st, o, now)| && Writes(st, o, now)[i].CounterSet?
    ensures Exposition.Plain(Writes(st, o, now)[i].key)
  {
    var s, p, e := SnapshotWrites(st.bindings, o), PageWrites(st.acl, o), EndWrites(st.edge, o, now);
    WriteAt(s, p, e, i);
    SnapshotWritesChurn(st.bindings, o);
    FixedPlain();
    if |s| <= i < |s| + |p| {
      PagePlain(st, o, i - |s|);
    } else if i >= |s| + |p| {
      EndWritesDefault(st.edge, o, now, i - |s| - |p|);
    }
  }

  lemma {:induction false} LogPlain(polls: seq<Observation>, times: seq<int>, i: nat)
    requires |polls| == |times| && i < |Log(polls, times)| && Log(polls, times)[i].CounterSet?
    ensures Exposition.Plain(Log(polls, times)[i].key)
  {
    var n := |polls| - 1;
    var front := Log(polls[..n], times[..n]);
    if i < |front| {
      LogPlain(polls[..n], times[..n], i);
    } else {
      AclInvariant(polls[..n]);
      WritesPlain(Run(polls[..n]), polls[n], times[n], i - |front|);
    }
  }

  lemma CountersPlain(polls: seq<Observation>, times: seq<int>, item: Item)
    requires |polls| == |times| && item in After(Log(polls, times)).counters
    ensures Exposition.Plain(item.key)
  {
    var log := Log(polls, times);
    CountersDistinct(log);
    GetItem(After(log).counters, item.key, item.value);
    SeenIsLastWrite(log, item.key);
    LogPlain(polls, times, LastIndex(log, item.key).value);
  }

  /** In every reachable state, as long as the labels of the gauges are plain, the page holds
      behind the exporter's own lines exactly one line for every stored series and value. */
  lemma ReachablePageReads(polls: seq<Observation>, times: seq<int>, values: Dict)
    requires |polls| == |times| && DistinctKeys(values) && forall item | item in values :: Exposition.Plain(item.key)
    ensures var v := After(Log(polls, times)).(values := values);
            Exposition.PageSays(PageLines(v), v)
  {
    var v := After(Log(polls, times)).(values := values);
    CountersDistinct(Log(polls, times));
    forall item | item in v.counters ensures Exposition.Plain(item.key) {
      CountersPlain(polls, times, item);
    }
    Exposition.PageReads(v);
  }
}
