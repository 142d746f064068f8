/** The conversation of one poll: which commands are sent, what is learnt from the
    replies, and how the poll ends. None of it depends on the exporter's state. */
module Poll {
  import opened Text
  import opened Resp
  import opened Client
  import AclLog
  import opened Bindings

  datatype Config = Config(username: Bytes, password: Bytes, maxScanPages: nat)

  datatype Connection = Refused(text: Bytes) | Accepted(input: Bytes, ending: Ending)

  /** What one poll learns: a complete snapshot of the bindings, a complete page of the
      ACL log, the usability of the default user, and the exception it ended with. */
  datatype Observation = Observation(snapshot: Option<Snapshot>, page: Option<seq<AclLog.Entry>>,
                                     usable: Option<nat>, failure: Option<Exn>)

  // ---- the commands, in the order of `_collect` -----------------------------------------------------

  function Login(c: Conn, config: Config): (r: Step<()>)
    ensures |r.conn.trace| >= |c.trace|
  {
    if config.password == [] then Done((), c)
    else
      var (reply, after) :- Issue(c, ["AUTH", config.username, config.password]);
      if reply == Str("OK") then Done((), after) else Thrown(AuthError("authentication rejected"), after)
  }

  /** `float(reply)` for the replies LLEN can have. */
  function FloatOf(reply: Reply): Option<int>
  {
    match reply
    case Int(n) => Some(n)
    case Str(s) => PyInt(s)
    case _ => None
  }

  lemma FloatOfIs(n: int, s: Bytes, items: seq<Reply>)
    ensures FloatOf(Int(n)) == Some(n) && FloatOf(Str(s)) == PyInt(s)
    ensures FloatOf(Nil) == FloatOf(List(items)) == None
    ensures BadFloat(Str(s)) == Failure("could not convert string to float: '" + s + "'")
    ensures BadFloat(Nil) == BadFloat(List(items)) == Failure("TypeError")
  {
  }

  /** The ValueError of `float(reply)` quotes the text; anything but text is a TypeError. */
  function BadFloat(reply: Reply): Exn
  {
    if reply.Str? then Failure("could not convert string to float: '" + reply.s + "'") else BAD_TYPE
  }

  /** Availability and keyspace. */
  function ProbeServer(c: Conn): (r: Step<()>)
    ensures |r.conn.trace| >= |c.trace|
  {
    var (ping, c1) :- Issue(c, ["PING"]);
    var (info, c2) :- Issue(c1, ["INFO"]);
    if info.Str? then Done((), c2) else Thrown(BAD_TYPE, c2)
  }

  function ProbeQueue(c: Conn): (r: Step<()>)
    ensures |r.conn.trace| >= |c.trace|
  {
    var (present, c1) :- Issue(c, ["EXISTS", "ingestion"]);
    var (depth, c2) :- Issue(c1, ["LLEN", "ingestion"]);
    if FloatOf(depth).Some? then Done((), c2) else Thrown(BadFloat(depth), c2)
  }

  function ProbeUnacked(c: Conn): (r: Step<()>)
    ensures |r.conn.trace| >= |c.trace|
  {
    var (present, c1) :- Issue(c, ["EXISTS", "unacked"]);
    var (index, c2) :- Issue(c1, ["EXISTS", "unacked_index"]);
    Done((), c2)
  }

  /** The commands that only feed gauges, but can end the poll. */
  function Probes(c: Conn): (r: Step<()>)
    ensures |r.conn.trace| >= |c.trace|
  {
    var (_, c1) :- ProbeServer(c);
    var (_, c2) :- ProbeQueue(c1);
    ProbeUnacked(c2)
  }

  function ReadSets(c: Conn, keys: seq<Reply>, current: Snapshot): (r: Step<Snapshot>)
    ensures |r.conn.trace| >= |c.trace|
    decreases |keys|
  {
    if keys == [] then Done(current, c)
    else
      var (members, after) :- Issue(c, ["SMEMBERS", PyStr(keys[0])]);
      match SetOf(members)
      case None => Thrown(BAD_TYPE, after)
      case Some(elements) =>
        if !Hashable(keys[0]) then Thrown(BAD_TYPE, after)
        else ReadSets(after, keys[1..], current[keys[0] := elements])
  }

  const BINDING_PATTERN: Bytes := "_kombu.binding.*"
  const RESULT_PATTERN: Bytes := "celery-task-meta-*"

  function TakeSnapshot(c: Conn, maxScanPages: nat): (r: Step<Snapshot>)
    ensures |r.conn.trace| >= |c.trace|
  {
    var (keys, after) :- ScanFrom(c, BINDING_PATTERN, "0", [], maxScanPages);
    ReadSets(after, keys, map[])
  }

  function CountResults(c: Conn, maxScanPages: nat): (r: Step<nat>)
    ensures |r.conn.trace| >= |c.trace|
  {
    var (_, c1) :- Issue(c, ["SELECT", "1"]);
    var (results, c2) :- ScanFrom(c1, RESULT_PATTERN, "0", [], maxScanPages);
    var (_, c3) :- Issue(c2, ["SELECT", "0"]);
    Done(|results|, c3)
  }

  function TakePage(c: Conn): (r: Step<seq<AclLog.Entry>>)
    ensures |r.conn.trace| >= |c.trace|
  {
    var (reply, after) :- Issue(c, ["ACL", "LOG", "128"]);
    match AclLog.ParsePage(reply)
    case Raise(exn) => Thrown(exn, after)
    case Ok(entries) => Done(entries, after)
  }

  /** The only handler inside a poll: any RespError at the dry run counts as usable, be it
      an error reply, a reply of unknown type, or a connection closed instead of a reply. */
  function ProbeDefault(c: Conn): (r: Step<nat>)
    ensures |r.conn.trace| >= |c.trace|
  {
    match Issue(c, ["ACL", "DRYRUN", "default", "PING"])
    case Done(reply, after) => Done(if reply == Str("OK") then 1 else 0, after)
    case Thrown(exn, after) => if exn.Failure? then Thrown(exn, after) else Done(1, after)
  }

  // ---- the poll -------------------------------------------------------------------------------------

  function ToSnapshot(c: Conn, config: Config): (r: Step<Snapshot>)
    ensures |r.conn.trace| >= |c.trace|
  {
    var (_, c1) :- Login(c, config);
    var (_, c2) :- Probes(c1);
    TakeSnapshot(c2, config.maxScanPages)
  }

  function ToPage(c: Conn, config: Config): (r: Step<seq<AclLog.Entry>>)
    ensures |r.conn.trace| >= |c.trace|
  {
    var (_, c1) :- CountResults(c, config.maxScanPages);
    TakePage(c1)
  }

  /** A poll that learns the later things has learnt the earlier ones, and ends without
      an exception exactly when it has learnt all three. */
  predicate Sound(o: Observation)
  {
    && (o.usable.Some? <==> o.failure.None?)
    && (o.usable.Some? ==> o.page.Some? && o.usable.value <= 1)
    && (o.page.Some? ==> o.snapshot.Some?)
  }

  /** A poll on an open connection: what it learns, and the connection it leaves. */
  function Converse(c: Conn, config: Config): (r: (Observation, Conn))
    ensures Sound(r.0) && |r.1.trace| >= |c.trace|
  {
    match ToSnapshot(c, config)
    case Thrown(exn, after) => (Observation(None, None, None, Some(exn)), after)
    case Done(snapshot, after) => FromSnapshot(snapshot, after, config)
  }

  function FromSnapshot(snapshot: Snapshot, c: Conn, config: Config): (r: (Observation, Conn))
    ensures Sound(r.0) && |r.1.trace| >= |c.trace|
  {
    match ToPage(c, config)
    case Thrown(exn, after) => (Observation(Some(snapshot), None, None, Some(exn)), after)
    case Done(page, after) => FromPage(snapshot, page, after)
  }

  function FromPage(snapshot: Snapshot, page: seq<AclLog.Entry>, c: Conn): (r: (Observation, Conn))
    ensures Sound(r.0) && |r.1.trace| >= |c.trace|
  {
    match ProbeDefault(c)
    case Thrown(exn, after) => (Observation(Some(snapshot), Some(page), None, Some(exn)), after)
    case Done(usable, after) => (Observation(Some(snapshot), Some(page), Some(usable), None), after)
  }

  function Observe(connection: Connection, config: Config): (o: Observation)
    ensures Sound(o)
  {
    match connection
    case Refused(text) => Observation(None, None, None, Some(Failure(text)))
    case Accepted(input, ending) => Converse(Conn(input, ending, []), config).0
  }

  // ---- what a snapshot holds ------------------------------------------------------------------------

  /** `sent` asks for the keys one after the other, and `r` holds the members in the
      reply to the last question for each. */
  ghost predicate Holds(sent: seq<Exchange>, keys: seq<Reply>, r: Snapshot)
  {
    |sent| == |keys| && forall i | 0 <= i < |keys| :: HoldsAt(sent[i], keys[i], keys[i + 1..], r)
  }

  ghost predicate HoldsAt(x: Exchange, key: Reply, later: seq<Reply>, r: Snapshot)
  {
    && x.args == ["SMEMBERS", PyStr(key)] && x.answer.Ok? && key in r
    && (key !in later ==> forall member :: member in r[key] <==> IsMember(x.answer.value, member))
  }

  /** `r` is what reading the sets returns after asking for every key in turn: exactly
      those keys are added, with what the server answered for them. */
  ghost predicate Snapped(r: Step<Snapshot>, trace: seq<Exchange>, keys: seq<Reply>, current: Snapshot,
                          sent: seq<Exchange>)
  {
    r.Done? && r.conn.trace == trace + sent && Holds(sent, keys, r.value) && Adds(r.value, keys, current)
  }

  ghost predicate Adds(r: Snapshot, keys: seq<Reply>, current: Snapshot)
  {
    && (forall k :: k in r <==> k in current || k in keys)
    && (forall k | k in current && k !in keys :: r[k] == current[k])
  }

  lemma SnappedOneMore(r: Step<Snapshot>, trace: seq<Exchange>, keys: seq<Reply>, current: Snapshot,
                       x: Exchange, others: seq<Exchange>, members: set<Reply>)
    requires keys != [] && x.args == ["SMEMBERS", PyStr(keys[0])]
    requires x.answer.Ok? && SetOf(x.answer.value) == Some(members)
    requires Snapped(r, trace + [x], keys[1..], current[keys[0] := members], others)
    ensures Snapped(r, trace, keys, current, [x] + others)
  {
    TraceOneMore(trace, x, others);
    AddsOneMore(r.value, keys, current, members);
    HeldFirst(x, keys, r.value, members);
    HoldsOneMore(x, others, keys, r.value);
  }

  lemma HeldFirst(x: Exchange, keys: seq<Reply>, r: Snapshot, members: set<Reply>)
    requires keys != [] && x.args == ["SMEMBERS", PyStr(keys[0])]
    requires x.answer.Ok? && SetOf(x.answer.value) == Some(members)
    requires keys[0] in r && (keys[0] !in keys[1..] ==> r[keys[0]] == members)
    ensures HoldsAt(x, keys[0], keys[1..], r)
  {
    SetOfMembers(x.answer.value);
  }

  lemma TraceOneMore(trace: seq<Exchange>, x: Exchange, others: seq<Exchange>)
    ensures trace + [x] + others == trace + ([x] + others)
  {
  }

  lemma AddsOneMore(r: Snapshot, keys: seq<Reply>, current: Snapshot, members: set<Reply>)
    requires keys != [] && Adds(r, keys[1..], current[keys[0] := members])
    ensures Adds(r, keys, current)
    ensures keys[0] in r && (keys[0] !in keys[1..] ==> r[keys[0]] == members)
  {
    assert forall k :: k in keys <==> k == keys[0] || k in keys[1..];
  }

  lemma HoldsOneMore(x: Exchange, others: seq<Exchange>, keys: seq<Reply>, r: Snapshot)
    requires keys != [] && HoldsAt(x, keys[0], keys[1..], r) && Holds(others, keys[1..], r)
    ensures Holds([x] + others, keys, r)
  {
    forall i | 0 <= i < |keys| ensures HoldsAt(([x] + others)[i], keys[i], keys[i + 1..], r) {
      if i > 0 { assert keys[1..][i - 1] == keys[i] && keys[1..][i..] == keys[i + 1..]; }
    }
  }

  lemma {:induction false} SnapshotHolds(c: Conn, keys: seq<Reply>, current: Snapshot) returns (sent: seq<Exchange>)
    requires ReadSets(c, keys, current).Done?
    ensures Snapped(ReadSets(c, keys, current), c.trace, keys, current, sent)
    decreases |keys|
  {
    if keys == [] {
      sent := [];
      assert c.trace + sent == c.trace;
    } else {
      var x, after := ReadSetsStep(c, keys, current);
      var members := SetOf(x.answer.value).value;
      var others := SnapshotHolds(after, keys[1..], current[keys[0] := members]);
      sent := [x] + others;
      SnappedOneMore(ReadSets(c, keys, current), c.trace, keys, current, x, others, members);
    }
  }

  lemma ReadSetsStep(c: Conn, keys: seq<Reply>, current: Snapshot) returns (x: Exchange, after: Conn)
    requires keys != [] && ReadSets(c, keys, current).Done?
    ensures x.args == ["SMEMBERS", PyStr(keys[0])] && x.answer.Ok? && SetOf(x.answer.value).Some?
    ensures after.trace == c.trace + [x]
    ensures ReadSets(c, keys, current) == ReadSets(after, keys[1..], current[keys[0] := SetOf(x.answer.value).value])
  {
    var args := ["SMEMBERS", PyStr(keys[0])];
    var step := Issue(c, args);
    x, after := Exchange(args, Ok(step.value)), step.conn;
  }

  // ---- conversation alignment -----------------------------------------------------------------------

  lemma LoginAligned(c: Conn, config: Config, replies: seq<Wire>)
    requires AllWellFormed(replies) && InStep(c, replies)
    ensures Aligned(Login(c, config), replies)
  {
    CommandAligned(c, ["AUTH", config.username, config.password], replies);
  }

  lemma ProbeServerAligned(c: Conn, replies: seq<Wire>)
    requires AllWellFormed(replies) && InStep(c, replies)
    ensures Aligned(ProbeServer(c), replies)
  {
    CommandAligned(c, ["PING"], replies);
    var s := Issue(c, ["PING"]);
    if s.Done? {
      CommandAligned(s.conn, ["INFO"], replies);
    }
  }

  lemma ProbeQueueAligned(c: Conn, replies: seq<Wire>)
    requires AllWellFormed(replies) && InStep(c, replies)
    ensures Aligned(ProbeQueue(c), replies)
  {
    CommandAligned(c, ["EXISTS", "ingestion"], replies);
    var s := Issue(c, ["EXISTS", "ingestion"]);
    if s.Done? {
      CommandAligned(s.conn, ["LLEN", "ingestion"], replies);
    }
  }

  lemma ProbeUnackedAligned(c: Conn, replies: seq<Wire>)
    requires AllWellFormed(replies) && InStep(c, replies)
    ensures Aligned(ProbeUnacked(c), replies)
  {
    CommandAligned(c, ["EXISTS", "unacked"], replies);
    var s := Issue(c, ["EXISTS", "unacked"]);
    if s.Done? {
      CommandAligned(s.conn, ["EXISTS", "unacked_index"], replies);
    }
  }

  lemma ProbesAligned(c: Conn, replies: seq<Wire>)
    requires AllWellFormed(replies) && InStep(c, replies)
    ensures Aligned(Probes(c), replies)
  {
    ProbeServerAligned(c, replies);
    var s1 := ProbeServer(c);
    if s1.Done? {
      ProbeQueueAligned(s1.conn, replies);
      var s2 := ProbeQueue(s1.conn);
      if s2.Done? {
        ProbeUnackedAligned(s2.conn, replies);
      }
    }
  }

  lemma {:induction false} ReadSetsAligned(c: Conn, keys: seq<Reply>, current: Snapshot, replies: seq<Wire>)
    requires AllWellFormed(replies) && InStep(c, replies)
    ensures Aligned(ReadSets(c, keys, current), replies)
    decreases |keys|
  {
    if keys != [] {
      CommandAligned(c, ["SMEMBERS", PyStr(keys[0])], replies);
      var step := Issue(c, ["SMEMBERS", PyStr(keys[0])]);
      if step.Done? && SetOf(step.value).Some? && Hashable(keys[0]) {
        ReadSetsAligned(step.conn, keys[1..], current[keys[0] := SetOf(step.value).value], replies);
      }
    }
  }

  lemma TakeSnapshotAligned(c: Conn, maxScanPages: nat, replies: seq<Wire>)
    requires AllWellFormed(replies) && InStep(c, replies)
    ensures Aligned(TakeSnapshot(c, maxScanPages), replies)
  {
    ScanAligned(c, BINDING_PATTERN, "0", [], maxScanPages, replies);
    var scan := ScanFrom(c, BINDING_PATTERN, "0", [], maxScanPages);
    if scan.Done? {
      ReadSetsAligned(scan.conn, scan.value, map[], replies);
    }
  }

  lemma CountResultsAligned(c: Conn, maxScanPages: nat, replies: seq<Wire>)
    requires AllWellFormed(replies) && InStep(c, replies)
    ensures Aligned(CountResults(c, maxScanPages), replies)
  {
    CommandAligned(c, ["SELECT", "1"], replies);
    var s1 := Issue(c, ["SELECT", "1"]);
    if s1.Done? {
      ScanAligned(s1.conn, RESULT_PATTERN, "0", [], maxScanPages, replies);
      var s2 := ScanFrom(s1.conn, RESULT_PATTERN, "0", [], maxScanPages);
      if s2.Done? {
        CommandAligned(s2.conn, ["SELECT", "0"], replies);
      }
    }
  }

  lemma ToSnapshotAligned(c: Conn, config: Config, replies: seq<Wire>)
    requires AllWellFormed(replies) && InStep(c, replies)
    ensures Aligned(ToSnapshot(c, config), replies)
  {
    LoginAligned(c, config, replies);
    var s1 := Login(c, config);
    if s1.Done? {
      ProbesAligned(s1.conn, replies);
      var s2 := Probes(s1.conn);
      if s2.Done? {
        TakeSnapshotAligned(s2.conn, config.maxScanPages, replies);
      }
    }
  }

  lemma ToPageAligned(c: Conn, config: Config, replies: seq<Wire>)
    requires AllWellFormed(replies) && InStep(c, replies)
    ensures Aligned(ToPage(c, config), replies)
  {
    CountResultsAligned(c, config.maxScanPages, replies);
    var s1 := CountResults(c, config.maxScanPages);
    if s1.Done? {
      CommandAligned(s1.conn, ["ACL", "LOG", "128"], replies);
    }
  }

  lemma FromSnapshotAligned(snapshot: Snapshot, c: Conn, config: Config, replies: seq<Wire>)
    requires AllWellFormed(replies) && InStep(c, replies)
    ensures Matched(FromSnapshot(snapshot, c, config).1.trace, replies)
  {
    ToPageAligned(c, config, replies);
    var s := ToPage(c, config);
    if s.Done? {
      CommandAligned(s.conn, ["ACL", "DRYRUN", "default", "PING"], replies);
    }
  }

  /** In every poll, against any server: the n-th command gets the n-th reply, and once a
      command has raised, no further command is sent on that connection; every command
      sent is a reading one. The server may answer anything, errors inside arrays
      included, and stop wherever it likes. */
  lemma ConversationAligned(replies: seq<Wire>, ending: Ending, config: Config)
    requires AllWellFormed(replies)
    ensures Matched(Converse(Conn(EncodeAll(replies), ending, []), config).1.trace, replies)
  {
    var c := Conn(EncodeAll(replies), ending, []);
    assert replies[0..] == replies;
    ToSnapshotAligned(c, config, replies);
    var s := ToSnapshot(c, config);
    if s.Done? {
      FromSnapshotAligned(s.value, s.conn, config, replies);
    }
  }
}
