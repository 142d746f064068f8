/** A poll whose connection gives out on the way: exactly what it learns, by the reply it
    gives out at and by the exception it gives out with. */
module Interruption {
  import opened Text
  import opened Resp
  import opened Client
  import AclLog
  import opened Bindings
  import opened Poll
  import opened Truncation

  // ---- two connections side by side -----------------------------------------------------------------

  /** The reader, by its values: all that is used of it is what `Resp` proves about it. */
  type Reader = (Bytes, Ending) -> Read<Reply>

  ghost predicate IsReader(read: Reader)
  {
    forall input, ending {:trigger ReadReply(input, ending)} :: read(input, ending) == ReadReply(input, ending)
  }

  /** For `k` replies the two inputs read alike; then the first one raises `e`. If both
      raise the same before that, the rest does not matter. */
  ghost predicate Tracks(read: Reader, cut: Bytes, cutEnding: Ending, full: Bytes, fullEnding: Ending, e: Exn, k: nat)
    decreases k
  {
    if k == 0 then Breaks(read(cut, cutEnding), e)
    else
      var a, b := read(cut, cutEnding), read(full, fullEnding);
      Alike(a, b) && (a.Got? ==> Tracks(read, a.rest, cutEnding, b.rest, fullEnding, e, k - 1))
  }

  predicate Breaks(a: Read<Reply>, e: Exn)
  {
    a.Raised? && a.exn == e
  }

  predicate Alike(a: Read<Reply>, b: Read<Reply>)
  {
    if a.Got? then b.Got? && b.value == a.value else b.Raised? && b.exn == a.exn
  }

  /** The same of connections, the conversation giving out behind exchange `m`. */
  ghost predicate Tracking(read: Reader, cut: Conn, full: Conn, e: Exn, m: nat)
  {
    && IsReader(read) && cut.trace == full.trace && |full.trace| <= m
    && Tracks(read, cut.input, cut.ending, full.input, full.ending, e, m - |full.trace|)
  }

  /** A part of the poll: the same on both connections if it needs no more than `m`
      exchanges, otherwise ended by `e` in the next one. */
  ghost predicate PartTracks<T>(read: Reader, cut: Step<T>, full: Step<T>, e: Exn, m: nat)
  {
    if |full.conn.trace| <= m then
      && cut.AsResult() == full.AsResult() && cut.conn.trace == full.conn.trace
      && (full.Done? ==> Tracking(read, cut.conn, full.conn, e, m))
    else
      cut.Thrown? && cut.exn == e && |cut.conn.trace| == m + 1
  }

  /** One reply that reads alike. */
  lemma TracksOneMore(read: Reader, cut: Bytes, cutEnding: Ending, full: Bytes, fullEnding: Ending, e: Exn, k: nat,
                      a: Read<Reply>, b: Read<Reply>)
    requires read(cut, cutEnding) == a && read(full, fullEnding) == b
    requires a.Got? ==> b.Got? && b.value == a.value && Tracks(read, a.rest, cutEnding, b.rest, fullEnding, e, k)
    requires a.Raised? ==> b.Raised? && b.exn == a.exn
    ensures Tracks(read, cut, cutEnding, full, fullEnding, e, k + 1)
  {
  }

  // ---- part by part ---------------------------------------------------------------------------------

  lemma CommandTracks(read: Reader, cut: Conn, full: Conn, args: seq<Bytes>, e: Exn, m: nat)
    requires Tracking(read, cut, full, e, m)
    ensures PartTracks(read, Issue(cut, args), Issue(full, args), e, m)
  {
  }

  lemma {:induction false} ScanTracks(read: Reader, cut: Conn, full: Conn, pattern: Bytes, cursor: Bytes,
                                      keys: seq<Reply>, pages: nat, e: Exn, m: nat)
    requires Tracking(read, cut, full, e, m)
    ensures PartTracks(read, ScanFrom(cut, pattern, cursor, keys, pages),
                       ScanFrom(full, pattern, cursor, keys, pages), e, m)
    decreases pages
  {
    if pages > 0 {
      var args := ScanCommand(cursor, pattern);
      CommandTracks(read, cut, full, args, e, m);
      var a, b := Issue(cut, args), Issue(full, args);
      if |b.conn.trace| <= m && b.Done? && Item(b.value, 0).Some? && Item(b.value, 1).Some? {
        var next, batch := Item(b.value, 0).value, Elements(Item(b.value, 1).value);
        if batch.Some? && next != Str("0") {
          ScanTracks(read, a.conn, b.conn, pattern, PyStr(next), keys + batch.value, pages - 1, e, m);
        }
      }
    }
  }

  lemma {:induction false} ReadSetsTracks(read: Reader, cut: Conn, full: Conn, keys: seq<Reply>, current: Snapshot,
                                          e: Exn, m: nat)
    requires Tracking(read, cut, full, e, m)
    ensures PartTracks(read, ReadSets(cut, keys, current), ReadSets(full, keys, current), e, m)
    decreases |keys|
  {
    if keys != [] {
      var args := ["SMEMBERS", PyStr(keys[0])];
      CommandTracks(read, cut, full, args, e, m);
      var a, b := Issue(cut, args), Issue(full, args);
      if |b.conn.trace| <= m && b.Done? && SetOf(b.value).Some? && Hashable(keys[0]) {
        ReadSetsTracks(read, a.conn, b.conn, keys[1..], current[keys[0] := SetOf(b.value).value], e, m);
      }
    }
  }

  lemma LoginTracks(read: Reader, cut: Conn, full: Conn, config: Config, e: Exn, m: nat)
    requires Tracking(read, cut, full, e, m)
    ensures PartTracks(read, Login(cut, config), Login(full, config), e, m)
  {
    CommandTracks(read, cut, full, ["AUTH", config.username, config.password], e, m);
  }

  lemma ProbeServerTracks(read: Reader, cut: Conn, full: Conn, e: Exn, m: nat)
    requires Tracking(read, cut, full, e, m)
    ensures PartTracks(read, ProbeServer(cut), ProbeServer(full), e, m)
  {
    CommandTracks(read, cut, full, ["PING"], e, m);
    var a, b := Issue(cut, ["PING"]), Issue(full, ["PING"]);
    if |b.conn.trace| <= m && b.Done? {
      CommandTracks(read, a.conn, b.conn, ["INFO"], e, m);
    }
  }

  lemma ProbeQueueTracks(read: Reader, cut: Conn, full: Conn, e: Exn, m: nat)
    requires Tracking(read, cut, full, e, m)
    ensures PartTracks(read, ProbeQueue(cut), ProbeQueue(full), e, m)
  {
    CommandTracks(read, cut, full, ["EXISTS", "ingestion"], e, m);
    var a, b := Issue(cut, ["EXISTS", "ingestion"]), Issue(full, ["EXISTS", "ingestion"]);
    if |b.conn.trace| <= m && b.Done? {
      CommandTracks(read, a.conn, b.conn, ["LLEN", "ingestion"], e, m);
    }
  }

  lemma ProbeUnackedTracks(read: Reader, cut: Conn, full: Conn, e: Exn, m: nat)
    requires Tracking(read, cut, full, e, m)
    ensures PartTracks(read, ProbeUnacked(cut), ProbeUnacked(full), e, m)
  {
    CommandTracks(read, cut, full, ["EXISTS", "unacked"], e, m);
    var a, b := Issue(cut, ["EXISTS", "unacked"]), Issue(full, ["EXISTS", "unacked"]);
    if |b.conn.trace| <= m && b.Done? {
      CommandTracks(read, a.conn, b.conn, ["EXISTS", "unacked_index"], e, m);
    }
  }

  lemma ProbesTracks(read: Reader, cut: Conn, full: Conn, e: Exn, m: nat)
    requires Tracking(read, cut, full, e, m)
    ensures PartTracks(read, Probes(cut), Probes(full), e, m)
  {
    ProbeServerTracks(read, cut, full, e, m);
    var a1, b1 := ProbeServer(cut), ProbeServer(full);
    if |b1.conn.trace| <= m && b1.Done? {
      ProbeQueueTracks(read, a1.conn, b1.conn, e, m);
      var a2, b2 := ProbeQueue(a1.conn), ProbeQueue(b1.conn);
      if |b2.conn.trace| <= m && b2.Done? {
        ProbeUnackedTracks(read, a2.conn, b2.conn, e, m);
      }
    }
  }

  lemma TakeSnapshotTracks(read: Reader, cut: Conn, full: Conn, maxScanPages: nat, e: Exn, m: nat)
    requires Tracking(read, cut, full, e, m)
    ensures PartTracks(read, TakeSnapshot(cut, maxScanPages), TakeSnapshot(full, maxScanPages), e, m)
  {
    ScanTracks(read, cut, full, BINDING_PATTERN, "0", [], maxScanPages, e, m);
    var a := ScanFrom(cut, BINDING_PATTERN, "0", [], maxScanPages);
    var b := ScanFrom(full, BINDING_PATTERN, "0", [], maxScanPages);
    if |b.conn.trace| <= m && b.Done? {
      ReadSetsTracks(read, a.conn, b.conn, b.value, map[], e, m);
    }
  }

  lemma CountResultsTracks(read: Reader, cut: Conn, full: Conn, maxScanPages: nat, e: Exn, m: nat)
    requires Tracking(read, cut, full, e, m)
    ensures PartTracks(read, CountResults(cut, maxScanPages), CountResults(full, maxScanPages), e, m)
  {
    CommandTracks(read, cut, full, ["SELECT", "1"], e, m);
    var a1, b1 := Issue(cut, ["SELECT", "1"]), Issue(full, ["SELECT", "1"]);
    if |b1.conn.trace| <= m && b1.Done? {
      ScanTracks(read, a1.conn, b1.conn, RESULT_PATTERN, "0", [], maxScanPages, e, m);
      var a2 := ScanFrom(a1.conn, RESULT_PATTERN, "0", [], maxScanPages);
      var b2 := ScanFrom(b1.conn, RESULT_PATTERN, "0", [], maxScanPages);
      if |b2.conn.trace| <= m && b2.Done? {
        CommandTracks(read, a2.conn, b2.conn, ["SELECT", "0"], e, m);
      }
    }
  }

  lemma ToSnapshotTracks(read: Reader, cut: Conn, full: Conn, config: Config, e: Exn, m: nat)
    requires Tracking(read, cut, full, e, m)
    ensures PartTracks(read, ToSnapshot(cut, config), ToSnapshot(full, config), e, m)
  {
    LoginTracks(read, cut, full, config, e, m);
    var a1, b1 := Login(cut, config), Login(full, config);
    if |b1.conn.trace| <= m && b1.Done? {
      ProbesTracks(read, a1.conn, b1.conn, e, m);
      var a2, b2 := Probes(a1.conn), Probes(b1.conn);
      if |b2.conn.trace| <= m && b2.Done? {
        TakeSnapshotTracks(read, a2.conn, b2.conn, config.maxScanPages, e, m);
      }
    }
  }

  lemma ToPageTracks(read: Reader, cut: Conn, full: Conn, config: Config, e: Exn, m: nat)
    requires Tracking(read, cut, full, e, m)
    ensures PartTracks(read, ToPage(cut, config), ToPage(full, config), e, m)
  {
    CountResultsTracks(read, cut, full, config.maxScanPages, e, m);
    var a, b := CountResults(cut, config.maxScanPages), CountResults(full, config.maxScanPages);
    if |b.conn.trace| <= m && b.Done? {
      CommandTracks(read, a.conn, b.conn, ["ACL", "LOG", "128"], e, m);
    }
  }

  // ---- the whole poll -------------------------------------------------------------------------------

  /** The undisturbed poll goes as far as the dry run, and that is its exchange `m + 1`. */
  predicate AtDryRun(whole: (Observation, Conn), m: nat)
  {
    whole.0.page.Some? && |whole.1.trace| == m + 1
  }

  /** What a poll learns that gives out behind exchange `m` with `e`, next to what the
      undisturbed poll learns: all the same if that needs no more exchanges; at the dry run
      everything but its result, and a RespError counts as usable; before that the snapshot
      if it was complete, and nothing else. */
  function Learnt(full: Conn, config: Config, e: Exn, m: nat): Observation
  {
    Interrupted(Converse(full, config), |ToSnapshot(full, config).conn.trace| <= m, e, m)
  }

  function Interrupted(whole: (Observation, Conn), snapped: bool, e: Exn, m: nat): Observation
  {
    var (o, end) := whole;
    if |end.trace| <= m then o
    else if AtDryRun(whole, m) then
      (if e.Failure? then o.(usable := None, failure := Some(e)) else o.(usable := Some(1), failure := None))
    else
      Observation(if snapped then o.snapshot else None, None, None, Some(e))
  }

  lemma FromPageTracks(read: Reader, snapshot: Snapshot, page: seq<AclLog.Entry>, cut: Conn, full: Conn, e: Exn, m: nat)
    requires Tracking(read, cut, full, e, m)
    ensures var (o, end) := FromPage(snapshot, page, full);
            FromPage(snapshot, page, cut).0
            == if |end.trace| <= m then o
               else if e.Failure? then o.(usable := None, failure := Some(e))
               else o.(usable := Some(1), failure := None)
    ensures |FromPage(snapshot, page, cut).1.trace| == |FromPage(snapshot, page, full).1.trace| == |full.trace| + 1
  {
    CommandTracks(read, cut, full, ["ACL", "DRYRUN", "default", "PING"], e, m);
  }

  /** The interrupted poll sent all commands of the other, or the first `m + 1`. */
  predicate SentUpTo(cut: Conn, full: Conn, m: nat)
  {
    |cut.trace| == if |full.trace| <= m then |full.trace| else m + 1
  }

  lemma FromSnapshotTracks(read: Reader, snapshot: Snapshot, cut: Conn, full: Conn, config: Config, e: Exn, m: nat)
    requires Tracking(read, cut, full, e, m)
    ensures FromSnapshot(snapshot, cut, config).0 == Interrupted(FromSnapshot(snapshot, full, config), true, e, m)
    ensures SentUpTo(FromSnapshot(snapshot, cut, config).1, FromSnapshot(snapshot, full, config).1, m)
  {
    ToPageTracks(read, cut, full, config, e, m);
    FromSnapshotCases(snapshot, cut, config);
    FromSnapshotCases(snapshot, full, config);
    var a, b := ToPage(cut, config), ToPage(full, config);
    if |b.conn.trace| <= m && b.Done? {
      FromPageTracks(read, snapshot, b.value, a.conn, b.conn, e, m);
    }
  }

  lemma FromSnapshotCases(snapshot: Snapshot, c: Conn, config: Config)
    ensures var page, r := ToPage(c, config), FromSnapshot(snapshot, c, config);
            && (page.Thrown? ==> r == (Observation(Some(snapshot), None, None, Some(page.exn)), page.conn))
            && (page.Done? ==> r == FromPage(snapshot, page.value, page.conn)
                               && r.0.page.Some? && |r.1.trace| == |page.conn.trace| + 1)
  {
  }

  lemma ConverseCases(c: Conn, config: Config)
    ensures var first, r := ToSnapshot(c, config), Converse(c, config);
            && (first.Thrown? ==> r == (Observation(None, None, None, Some(first.exn)), first.conn))
            && (first.Done? ==> r == FromSnapshot(first.value, first.conn, config))
  {
  }

  lemma LaterTakesMore(snapshot: Snapshot, c: Conn, config: Config)
    ensures var r := FromSnapshot(snapshot, c, config);
            && r.0.snapshot == Some(snapshot) && |r.1.trace| >= |c.trace|
            && (r.0.page.Some? ==> |r.1.trace| > |c.trace|)
  {
    FromSnapshotCases(snapshot, c, config);
  }

  lemma BrokenEarly(whole: (Observation, Conn), e: Exn, m: nat)
    requires |whole.1.trace| > m && (whole.0.page.Some? ==> |whole.1.trace| > m + 1)
    ensures Interrupted(whole, false, e, m) == Observation(None, None, None, Some(e))
  {
  }

  lemma Undisturbed(whole: (Observation, Conn), snapped: bool, e: Exn, m: nat)
    requires |whole.1.trace| <= m
    ensures Interrupted(whole, snapped, e, m) == whole.0
  {
  }

  /** Exactly that. */
  lemma PollLearns(read: Reader, cut: Conn, full: Conn, config: Config, e: Exn, m: nat)
    requires Tracking(read, cut, full, e, m)
    ensures Converse(cut, config).0 == Learnt(full, config, e, m)
    ensures SentUpTo(Converse(cut, config).1, Converse(full, config).1, m)
  {
    ToSnapshotTracks(read, cut, full, config, e, m);
    ConverseCases(cut, config);
    ConverseCases(full, config);
    var a, b := ToSnapshot(cut, config), ToSnapshot(full, config);
    if b.Done? { LaterTakesMore(b.value, b.conn, config); }
    if |b.conn.trace| > m {
      BrokenEarly(Converse(full, config), e, m);
    } else if b.Done? {
      FromSnapshotTracks(read, b.value, a.conn, b.conn, config, e, m);
    } else {
      Undisturbed(Converse(full, config), true, e, m);
    }
  }

  lemma ObservedLearns(read: Reader, cut: Bytes, cutEnding: Ending, full: Bytes, fullEnding: Ending, config: Config,
                       e: Exn, m: nat)
    requires IsReader(read) && Tracks(read, cut, cutEnding, full, fullEnding, e, m)
    ensures Observe(Accepted(cut, cutEnding), config) == Learnt(Conn(full, fullEnding, []), config, e, m)
    ensures SentUpTo(Converse(Conn(cut, cutEnding, []), config).1, Converse(Conn(full, fullEnding, []), config).1, m)
  {
    var c, f := Conn(cut, cutEnding, []), Conn(full, fullEnding, []);
    assert Tracking(read, c, f, e, m);
    PollLearns(read, c, f, config, e, m);
    ObserveIsConverse(cut, cutEnding, config);
  }

  lemma ObserveIsConverse(input: Bytes, ending: Ending, config: Config)
    ensures Observe(Accepted(input, ending), config) == Converse(Conn(input, ending, []), config).0
  {
  }

  // ---- a connection that breaks ---------------------------------------------------------------------

  lemma RaisedTracks(read: Reader, cut: Bytes, cutEnding: Ending, full: Bytes, fullEnding: Ending, e: Exn, exn: Exn)
    requires Breaks(read(cut, cutEnding), exn)
    requires exn != e ==> Breaks(read(full, fullEnding), exn)
    ensures Tracks(read, cut, cutEnding, full, fullEnding, e, if exn == e then 0 else 1)
  {
  }

  /** What a break does to one reply. */
  lemma BrokenReply(read: Reader, s: Bytes, cause: Bytes, more: Bytes, ending: Ending) returns (a: Read<Reply>)
    requires IsReader(read)
    ensures a == read(s, Broken(cause)) && (a.Got? ==> |a.rest| < |s|)
    ensures a.Got? ==> read(s + more, ending) == Got(a.value, a.rest + more)
    ensures a.Raised? && a.exn != Failure(cause) ==> read(s + more, ending) == Raised(a.exn, a.rest + more)
  {
    CutReply(s, more, cause, ending);
    a := ReadReply(s, Broken(cause));
  }

  /** A break with an exception, at any byte. */
  lemma {:induction false} BrokenTracks(read: Reader, s: Bytes, cause: Bytes, more: Bytes, ending: Ending)
    returns (k: nat)
    requires IsReader(read)
    ensures Tracks(read, s, Broken(cause), s + more, ending, Failure(cause), k)
    decreases |s|
  {
    var a := BrokenReply(read, s, cause, more, ending);
    if a.Raised? {
      k := if a.exn == Failure(cause) then 0 else 1;
      RaisedTracks(read, s, Broken(cause), s + more, ending, Failure(cause), a.exn);
    } else {
      k := BrokenTracks(read, a.rest, cause, more, ending);
      TracksOneMore(read, s, Broken(cause), s + more, ending, Failure(cause), k, a, Got(a.value, a.rest + more));
      k := k + 1;
    }
  }

  lemma BrokenPollBy(read: Reader, input: Bytes, cause: Bytes, more: Bytes, ending: Ending, config: Config)
    returns (m: nat)
    requires IsReader(read)
    ensures Observe(Accepted(input, Broken(cause)), config)
         == Learnt(Conn(input + more, ending, []), config, Failure(cause), m)
  {
    m := BrokenTracks(read, input, cause, more, ending);
    ObservedLearns(read, input, Broken(cause), input + more, ending, config, Failure(cause), m);
  }

  /** Wherever the connection breaks, there is an exchange the poll gives out behind. */
  lemma BrokenPollLearns(input: Bytes, cause: Bytes, more: Bytes, ending: Ending, config: Config) returns (m: nat)
    ensures Observe(Accepted(input, Broken(cause)), config)
         == Learnt(Conn(input + more, ending, []), config, Failure(cause), m)
  {
    m := BrokenPollBy(ReadReply, input, cause, more, ending, config);
  }

  /** Of each of the three things the cut poll learns either what the whole poll learns,
      or nothing; and if it does not end with the break, it learns all the same things. */
  ghost predicate AllOrNothing(cut: Observation, whole: Observation, cause: Bytes)
  {
    && (cut.snapshot == None || cut.snapshot == whole.snapshot)
    && (cut.page == None || cut.page == whole.page)
    && (cut.usable == None || cut.usable == whole.usable)
    && (cut.failure == Some(Failure(cause)) || cut == whole)
  }

  /** Whatever byte the connection breaks at with an exception, the poll's updates are
      each made as by the undisturbed poll or not at all. */
  lemma CutPollLearnsAllOrNothing(input: Bytes, cause: Bytes, more: Bytes, ending: Ending, config: Config)
    ensures AllOrNothing(Observe(Accepted(input, Broken(cause)), config),
                         Observe(Accepted(input + more, ending), config), cause)
  {
    var m := BrokenPollLearns(input, cause, more, ending, config);
    var full := Conn(input + more, ending, []);
    ObserveIsConverse(input + more, ending, config);
    InterruptedAllOrNothing(Converse(full, config), |ToSnapshot(full, config).conn.trace| <= m, cause, m);
  }

  lemma InterruptedAllOrNothing(whole: (Observation, Conn), snapped: bool, cause: Bytes, m: nat)
    ensures AllOrNothing(Interrupted(whole, snapped, Failure(cause), m), whole.0, cause)
  {
  }

  // ---- the same replies on both connections ---------------------------------------------------------

  /** One reply that reads alike, and what it leaves. */
  ghost predicate OneReply(read: Reader, cut: Bytes, cutEnding: Ending, full: Bytes, fullEnding: Ending,
                           cutRest: Bytes, fullRest: Bytes)
  {
    var a, b := read(cut, cutEnding), read(full, fullEnding);
    Alike(a, b) && (a.Got? ==> a.rest == cutRest && b.rest == fullRest)
  }

  /** A chain of them. */
  lemma {:induction false} ChainTracks(read: Reader, cuts: seq<Bytes>, cutEnding: Ending, fulls: seq<Bytes>,
                                       fullEnding: Ending, e: Exn, k: nat)
    requires |cuts| == |fulls| > 0
    requires forall i | 0 <= i < |cuts| - 1 ::
               OneReply(read, cuts[i], cutEnding, fulls[i], fullEnding, cuts[i + 1], fulls[i + 1])
    requires Tracks(read, cuts[|cuts| - 1], cutEnding, fulls[|cuts| - 1], fullEnding, e, k)
    ensures Tracks(read, cuts[0], cutEnding, fulls[0], fullEnding, e, k + |cuts| - 1)
    decreases |cuts|
  {
    var m := |cuts| - 1;
    if m > 0 {
      assert OneReply(read, cuts[m - 1], cutEnding, fulls[m - 1], fullEnding, cuts[m], fulls[m]);
      TracksOneMore(read, cuts[m - 1], cutEnding, fulls[m - 1], fullEnding, e, k,
                    read(cuts[m - 1], cutEnding), read(fulls[m - 1], fullEnding));
      ChainTracks(read, cuts[..m], cutEnding, fulls[..m], fullEnding, e, k + 1);
    }
  }

  lemma SameReply(read: Reader, w: Wire, cut: Bytes, cutEnding: Ending, full: Bytes, fullEnding: Ending,
                  cutRest: Bytes, fullRest: Bytes)
    requires IsReader(read) && WellFormed(w) && cut == Encode(w) + cutRest && full == Encode(w) + fullRest
    ensures OneReply(read, cut, cutEnding, full, fullEnding, cutRest, fullRest)
  {
    ReadEncoded(w, cutRest, cutEnding);
    ReadEncoded(w, fullRest, fullEnding);
  }

  /** The input at each reply, `end` standing behind the last. */
  function Inputs(replies: seq<Wire>, end: Bytes): seq<Bytes>
  {
    seq(|replies| + 1, i requires 0 <= i <= |replies| => EncodeAll(replies[i..]) + end)
  }

  lemma InputsSplit(replies: seq<Wire>, end: Bytes, i: nat)
    requires i < |replies|
    ensures Inputs(replies, end)[i] == Encode(replies[i]) + Inputs(replies, end)[i + 1]
  {
    assert replies[i..][1..] == replies[i + 1..];
    EncodeAllSplit(replies[i..], end);
  }

  lemma InputsEnds(replies: seq<Wire>, end: Bytes)
    ensures Inputs(replies, end)[0] == EncodeAll(replies) + end && Inputs(replies, end)[|replies|] == end
  {
    assert replies[0..] == replies && replies[|replies|..] == [];
  }

  /** The same replies in front of inputs that track each other. */
  lemma RepliesTrack(read: Reader, replies: seq<Wire>, cut: Bytes, cutEnding: Ending, full: Bytes, fullEnding: Ending,
                     e: Exn, k: nat)
    requires IsReader(read) && AllWellFormed(replies) && Tracks(read, cut, cutEnding, full, fullEnding, e, k)
    ensures Tracks(read, EncodeAll(replies) + cut, cutEnding, EncodeAll(replies) + full, fullEnding, e, k + |replies|)
  {
    var cuts, fulls, n := Inputs(replies, cut), Inputs(replies, full), |replies|;
    forall i | 0 <= i < n
      ensures OneReply(read, cuts[i], cutEnding, fulls[i], fullEnding, cuts[i + 1], fulls[i + 1])
    {
      assert replies[i] in replies;
      InputsSplit(replies, cut, i);
      InputsSplit(replies, full, i);
      SameReply(read, replies[i], cuts[i], cutEnding, fulls[i], fullEnding, cuts[i + 1], fulls[i + 1]);
    }
    InputsEnds(replies, cut);
    InputsEnds(replies, full);
    ChainTracks(read, cuts, cutEnding, fulls, fullEnding, e, k);
  }

  // ---- an error reply ----------------------------------------------------------------------------------------

  /** A poll that gets to an error reply ends there, with an authentication error exactly
      when the reply speaks of authentication; at the dry run it counts as usable instead. */
  lemma ErrorReplyEnds(replies: seq<Wire>, n: nat, t: Bytes, ending: Ending, config: Config)
    requires AllWellFormed(replies) && n < |replies| && replies[n] == Error(t)
    ensures var (o, end) := Converse(Conn(EncodeAll(replies), ending, []), config);
            |end.trace| > n ==>
              && |end.trace| == n + 1
              && (o.page.None? ==> o.failure == Some(if AboutAuth(t) then AuthError(t) else RespError(t)))
              && (o.page.Some? ==> o.failure == None && o.usable == Some(1))
  {
    FromErrorOn(replies, n, t, ending);
    ErrorReplyBy(ReadReply, replies, n, ending, config, if AboutAuth(t) then AuthError(t) else RespError(t));
  }

  lemma FromErrorOn(replies: seq<Wire>, n: nat, t: Bytes, ending: Ending)
    requires AllWellFormed(replies) && n < |replies| && replies[n] == Error(t)
    ensures Breaks(ReadReply(EncodeAll(replies[n..]), ending), if AboutAuth(t) then AuthError(t) else RespError(t))
  {
    assert replies[n] in replies;
    var rest := EncodeAll(replies[n..][1..]);
    ErrorLineRead(t, rest, ending);
    assert EncodeAll(replies[n..]) == Encode(Error(t)) + rest;
  }

  lemma ErrorReplyBy(read: Reader, replies: seq<Wire>, n: nat, ending: Ending, config: Config, e: Exn)
    requires IsReader(read) && AllWellFormed(replies) && n <= |replies| && !e.Failure?
    requires Breaks(read(EncodeAll(replies[n..]), ending), e)
    ensures var (o, end) := Converse(Conn(EncodeAll(replies), ending, []), config);
            |end.trace| > n ==>
              && |end.trace| == n + 1
              && (o.page.None? ==> o.failure == Some(e))
              && (o.page.Some? ==> o.failure == None && o.usable == Some(1))
  {
    var cut := EncodeAll(replies[..n]) + EncodeAll(replies[n..]);
    BreakingTracks(read, replies, n, EncodeAll(replies[n..]), ending, ending, e);
    SplitReplies(replies, n);
    ErrorAt(read, Conn(cut, ending, []), Conn(EncodeAll(replies), ending, []), config, e, n);
  }

  lemma ErrorAt(read: Reader, c: Conn, same: Conn, config: Config, e: Exn, m: nat)
    requires IsReader(read) && c == same && c.trace == [] && !e.Failure?
    requires Tracks(read, c.input, c.ending, same.input, same.ending, e, m)
    ensures var (o, end) := Converse(same, config);
            |end.trace| > m ==>
              && |end.trace| == m + 1
              && (o.page.None? ==> o.failure == Some(e))
              && (o.page.Some? ==> o.failure == None && o.usable == Some(1))
  {
    assert Tracking(read, c, same, e, m);
    PollLearns(read, c, same, config, e, m);
    InterruptedByError(Converse(same, config), |ToSnapshot(same, config).conn.trace| <= m, e, m);
  }

  lemma InterruptedByError(whole: (Observation, Conn), snapped: bool, e: Exn, m: nat)
    requires whole.0 == Interrupted(whole, snapped, e, m) && SentUpTo(whole.1, whole.1, m) && !e.Failure?
    requires Sound(whole.0)
    ensures |whole.1.trace| > m ==>
              && |whole.1.trace| == m + 1
              && (whole.0.page.None? ==> whole.0.failure == Some(e))
              && (whole.0.page.Some? ==> whole.0.failure == None && whole.0.usable == Some(1))
  {
  }

  // ---- a connection that closes ---------------------------------------------------------------------

  const CONNECTION_CLOSED: Exn := RespError("connection closed")

  lemma {:induction false} EncodeAllConcat(a: seq<Wire>, b: seq<Wire>)
    ensures EncodeAll(a + b) == EncodeAll(a) + EncodeAll(b)
    decreases |a|
  {
    if a == [] {
      assert a + b == b;
    } else {
      assert (a + b)[1..] == a[1..] + b;
      EncodeAllConcat(a[1..], b);
    }
  }

  lemma SplitReplies(replies: seq<Wire>, n: nat)
    requires n <= |replies|
    ensures EncodeAll(replies) == EncodeAll(replies[..n]) + EncodeAll(replies[n..])
  {
    EncodeAllConcat(replies[..n], replies[n..]);
    assert replies[..n] + replies[n..] == replies;
  }

  /** A server that sends `n` replies and of the next one only `part`, where the reader
      raises. */
  lemma BreakingTracks(read: Reader, replies: seq<Wire>, n: nat, part: Bytes, partEnding: Ending, ending: Ending,
                       e: Exn)
    requires IsReader(read) && AllWellFormed(replies) && n <= |replies| && Breaks(read(part, partEnding), e)
    ensures Tracks(read, EncodeAll(replies[..n]) + part, partEnding, EncodeAll(replies), ending, e, n)
  {
    SplitReplies(replies, n);
    NowTracks(read, part, partEnding, EncodeAll(replies[n..]), ending, e);
    RepliesTrack(read, replies[..n], part, partEnding, EncodeAll(replies[n..]), ending, e, 0);
  }

  lemma NowTracks(read: Reader, cut: Bytes, cutEnding: Ending, full: Bytes, fullEnding: Ending, e: Exn)
    requires Breaks(read(cut, cutEnding), e)
    ensures Tracks(read, cut, cutEnding, full, fullEnding, e, 0)
  {
  }

  lemma ClosedPollBy(read: Reader, replies: seq<Wire>, n: nat, part: Bytes, ending: Ending, config: Config, e: Exn)
    requires IsReader(read) && AllWellFormed(replies) && n <= |replies| && Breaks(read(part, Closed), e)
    ensures Observe(Accepted(EncodeAll(replies[..n]) + part, Closed), config)
         == Learnt(Conn(EncodeAll(replies), ending, []), config, e, n)
    ensures SentUpTo(Converse(Conn(EncodeAll(replies[..n]) + part, Closed, []), config).1,
                     Converse(Conn(EncodeAll(replies), ending, []), config).1, n)
  {
    BreakingTracks(read, replies, n, part, Closed, ending, e);
    ObservedLearns(read, EncodeAll(replies[..n]) + part, Closed, EncodeAll(replies), ending, config, e, n);
  }

  /** The connection closes behind `n` replies: exactly what the poll learns. */
  lemma ClosedPollLearns(replies: seq<Wire>, n: nat, ending: Ending, config: Config)
    requires AllWellFormed(replies) && n <= |replies|
    ensures Observe(Accepted(EncodeAll(replies[..n]), Closed), config)
         == Learnt(Conn(EncodeAll(replies), ending, []), config, CONNECTION_CLOSED, n)
    ensures SentUpTo(Converse(Conn(EncodeAll(replies[..n]), Closed, []), config).1,
                     Converse(Conn(EncodeAll(replies), ending, []), config).1, n)
  {
    assert EncodeAll(replies[..n]) + [] == EncodeAll(replies[..n]);
    ClosedPollBy(ReadReply, replies, n, [], ending, config, CONNECTION_CLOSED);
  }

  /** It closes within the reply behind them, and the reader notices: the same with the
      exception the reader raises. */
  lemma NoticedCloseLearns(replies: seq<Wire>, n: nat, k: nat, ending: Ending, config: Config)
    requires AllWellFormed(replies) && n < |replies| && k < |Encode(replies[n])| && !Unnoticed(replies[n], k)
    ensures var part := Encode(replies[n])[..k];
            && ReadReply(part, Closed).Raised?
            && Observe(Accepted(EncodeAll(replies[..n]) + part, Closed), config)
               == Learnt(Conn(EncodeAll(replies), ending, []), config, ReadReply(part, Closed).exn, n)
  {
    var part := Encode(replies[n])[..k];
    assert replies[n] in replies;
    UnnoticedIff(replies[n], k);
    ClosedPollBy(ReadReply, replies, n, part, ending, config, ReadReply(part, Closed).exn);
  }

  /** With nothing left both connections raise alike, for ever. */
  lemma NothingTracks(read: Reader, k: nat)
    requires IsReader(read)
    ensures Tracks(read, [], Closed, [], Closed, CONNECTION_CLOSED, k)
  {
    assert ReadReply([], Closed) == Raised(CONNECTION_CLOSED, []);
  }

  lemma LastTracks(read: Reader, part: Bytes, last: Wire, k: nat)
    requires IsReader(read) && WellFormed(last) && Mean(last).Value?
    requires read(part, Closed) == Got(Mean(last).v, [])
    ensures Tracks(read, part, Closed, EncodeAll([last]), Closed, CONNECTION_CLOSED, k + 1)
  {
    var r, full := Got(Mean(last).v, []), EncodeAll([last]);
    assert EncodeAll([last][1..]) + [] == [];
    EncodeAllSplit([last], []);
    assert full + [] == full;
    ReadEncoded(last, [], Closed);
    NothingTracks(read, k);
    TracksOneMore(read, part, Closed, full, Closed, CONNECTION_CLOSED, k, r, r);
  }

  lemma ShortenedTracks(read: Reader, replies: seq<Wire>, part: Bytes, last: Wire, k: nat)
    requires IsReader(read) && AllWellFormed(replies) && WellFormed(last) && Mean(last).Value?
    requires read(part, Closed) == Got(Mean(last).v, [])
    ensures Tracks(read, EncodeAll(replies) + part, Closed, EncodeAll(replies + [last]), Closed, CONNECTION_CLOSED,
                   k + 1 + |replies|)
  {
    EncodeAllConcat(replies, [last]);
    LastTracks(read, part, last, k);
    RepliesTrack(read, replies, part, Closed, EncodeAll([last]), Closed, CONNECTION_CLOSED, k + 1);
  }

  lemma AlikeForEver(read: Reader, cut: Bytes, full: Bytes, config: Config, n: nat)
    requires IsReader(read)
    requires forall m: nat | m >= n :: Tracks(read, cut, Closed, full, Closed, CONNECTION_CLOSED, m)
    ensures Observe(Accepted(cut, Closed), config) == Observe(Accepted(full, Closed), config)
  {
    var k := |Converse(Conn(full, Closed, []), config).1.trace|;
    AlikeForLong(read, cut, full, config, k + n);
  }

  lemma AlikeForLong(read: Reader, cut: Bytes, full: Bytes, config: Config, m: nat)
    requires IsReader(read) && Tracks(read, cut, Closed, full, Closed, CONNECTION_CLOSED, m)
    requires |Converse(Conn(full, Closed, []), config).1.trace| <= m
    ensures Observe(Accepted(cut, Closed), config) == Observe(Accepted(full, Closed), config)
  {
    ObservedLearns(read, cut, Closed, full, Closed, config, CONNECTION_CLOSED, m);
    ObserveIsConverse(full, Closed, config);
  }

  lemma ShortenedPollBy(read: Reader, replies: seq<Wire>, part: Bytes, last: Wire, config: Config)
    requires IsReader(read) && AllWellFormed(replies) && WellFormed(last) && Mean(last).Value?
    requires read(part, Closed) == Got(Mean(last).v, [])
    ensures Observe(Accepted(EncodeAll(replies) + part, Closed), config)
         == Observe(Accepted(EncodeAll(replies + [last]), Closed), config)
  {
    var cut, full := EncodeAll(replies) + part, EncodeAll(replies + [last]);
    forall m: nat | m > |replies| ensures Tracks(read, cut, Closed, full, Closed, CONNECTION_CLOSED, m) {
      ShortenedTracks(read, replies, part, last, m - 1 - |replies|);
    }
    AlikeForEver(read, cut, full, config, |replies| + 1);
  }

  /** It closes within a reply and the reader does not notice: the poll is the poll of a
      server that sent the shortened value and closed behind it. */
  lemma UnnoticedCloseLearns(replies: seq<Wire>, n: nat, k: nat, config: Config)
    requires AllWellFormed(replies) && n < |replies| && k < |Encode(replies[n])| && Unnoticed(replies[n], k)
    ensures var part := Encode(replies[n])[..k];
            && ReadReply(part, Closed).Got?
            && Observe(Accepted(EncodeAll(replies[..n]) + part, Closed), config)
               == Observe(Accepted(EncodeAll(replies[..n] + [AsWire(ReadReply(part, Closed).value)]), Closed), config)
  {
    var part := Encode(replies[n])[..k];
    assert replies[n] in replies;
    ReplyCut(replies[n], k);
    AsWireMeans(ReadReply(part, Closed).value);
    ShortenedPollBy(ReadReply, replies[..n], part, AsWire(ReadReply(part, Closed).value), config);
  }

  /** The cut did no harm: the poll goes on from the reply as sent, and then finds the
      connection closed. */
  lemma HarmlessCloseLearns(replies: seq<Wire>, n: nat, k: nat, ending: Ending, config: Config)
    requires AllWellFormed(replies) && n < |replies| && k < |Encode(replies[n])|
    requires Mean(replies[n]).Value? && Harmless(replies[n], k)
    ensures Observe(Accepted(EncodeAll(replies[..n]) + Encode(replies[n])[..k], Closed), config)
         == Learnt(Conn(EncodeAll(replies), ending, []), config, CONNECTION_CLOSED, n + 1)
  {
    assert replies[n] in replies;
    UnnoticedIff(replies[n], k);
    HarmlessBy(ReadReply, replies, n, Encode(replies[n])[..k], ending, config);
  }

  lemma HarmlessBy(read: Reader, replies: seq<Wire>, n: nat, part: Bytes, ending: Ending, config: Config)
    requires IsReader(read) && AllWellFormed(replies) && n < |replies| && Mean(replies[n]).Value?
    requires read(part, Closed) == Got(Mean(replies[n]).v, [])
    ensures Observe(Accepted(EncodeAll(replies[..n]) + part, Closed), config)
         == Learnt(Conn(EncodeAll(replies), ending, []), config, CONNECTION_CLOSED, n + 1)
  {
    WholeTracks(read, replies, n, part, ending);
    ObservedLearns(read, EncodeAll(replies[..n]) + part, Closed, EncodeAll(replies), ending, config,
                   CONNECTION_CLOSED, n + 1);
  }

  /** A reply that was read as sent, and then nothing. */
  lemma WholeReplyTracks(read: Reader, w: Wire, part: Bytes, rest: Bytes, ending: Ending)
    requires IsReader(read) && WellFormed(w) && Mean(w).Value? && read(part, Closed) == Got(Mean(w).v, [])
    ensures Tracks(read, part, Closed, Encode(w) + rest, ending, CONNECTION_CLOSED, 1)
  {
    ReadEncoded(w, rest, ending);
    assert ReadReply([], Closed) == Raised(CONNECTION_CLOSED, []);
    NowTracks(read, [], Closed, rest, ending, CONNECTION_CLOSED);
    TracksOneMore(read, part, Closed, Encode(w) + rest, ending, CONNECTION_CLOSED, 0,
                  Got(Mean(w).v, []), Got(Mean(w).v, rest));
  }

  lemma WholeTracks(read: Reader, replies: seq<Wire>, n: nat, part: Bytes, ending: Ending)
    requires IsReader(read) && AllWellFormed(replies) && n < |replies| && Mean(replies[n]).Value?
    requires read(part, Closed) == Got(Mean(replies[n]).v, [])
    ensures Tracks(read, EncodeAll(replies[..n]) + part, Closed, EncodeAll(replies), ending, CONNECTION_CLOSED, n + 1)
  {
    assert replies[n] in replies;
    var w, rest := replies[n], EncodeAll(replies[n..][1..]);
    SplitReplies(replies, n);
    assert EncodeAll(replies[n..]) == Encode(w) + rest;
    WholeReplyTracks(read, w, part, rest, ending);
    RepliesTrack(read, replies[..n], part, Closed, Encode(w) + rest, ending, CONNECTION_CLOSED, 1);
  }

  // ---- the harm an unnoticed close can do -----------------------------------------------------------------

  /** The close behind some replies, next to any connection that begins with them. */
  lemma FrontTracks(read: Reader, front: seq<Wire>, rest: Bytes, ending: Ending)
    requires IsReader(read) && AllWellFormed(front)
    ensures Tracks(read, EncodeAll(front) + [], Closed, EncodeAll(front) + rest, ending, CONNECTION_CLOSED, |front|)
  {
    assert ReadReply([], Closed) == Raised(CONNECTION_CLOSED, []);
    NowTracks(read, [], Closed, rest, ending, CONNECTION_CLOSED);
    RepliesTrack(read, front, [], Closed, rest, ending, CONNECTION_CLOSED, 0);
  }

  /** Behind the shortened reply every command finds the connection closed. */
  lemma ShortenedGivesOut(read: Reader, front: seq<Wire>, part: Bytes, config: Config)
    requires IsReader(read) && AllWellFormed(front)
    requires read(part, Closed).Got? && read(part, Closed).rest == []
    ensures var cut := Conn(EncodeAll(front) + part, Closed, []);
            && |Converse(cut, config).1.trace| <= |front| + 2
            && (ToSnapshot(cut, config).Done? ==> |ToSnapshot(cut, config).conn.trace| <= |front| + 1)
  {
    var cut, n := Conn(EncodeAll(front) + part, Closed, []), |front|;
    NothingTracks(read, 0);
    TracksOneMore(read, part, Closed, part, Closed, CONNECTION_CLOSED, 0, read(part, Closed), read(part, Closed));
    RepliesTrack(read, front, part, Closed, part, Closed, CONNECTION_CLOSED, 1);
    GivesOut(read, cut, config, n + 1);
  }

  lemma GivesOut(read: Reader, cut: Conn, config: Config, m: nat)
    requires IsReader(read) && cut.trace == []
    requires Tracks(read, cut.input, cut.ending, cut.input, cut.ending, CONNECTION_CLOSED, m)
    ensures |Converse(cut, config).1.trace| <= m + 1
    ensures ToSnapshot(cut, config).Done? ==> |ToSnapshot(cut, config).conn.trace| <= m
  {
    assert Tracking(read, cut, cut, CONNECTION_CLOSED, m);
    PollLearns(read, cut, cut, config, CONNECTION_CLOSED, m);
    ToSnapshotTracks(read, cut, cut, config, CONNECTION_CLOSED, m);
  }

  /** A poll of a cut connection, and the exchanges its snapshot took, next to the
      undisturbed one: it is the same if it needs no more than `n` exchanges; its snapshot
      is another only if exchange `n + 1` was the snapshot's last, its page only if that
      was the one in front of the dry run. */
  ghost predicate HarmAt(cut: (Observation, Conn), snapEnd: nat, whole: (Observation, Conn), n: nat)
  {
    && |cut.1.trace| <= n + 2
    && (|cut.1.trace| <= n ==> cut.0 == whole.0)
    && (cut.0.snapshot.Some? && cut.0.snapshot != whole.0.snapshot ==> snapEnd == n + 1)
    && (cut.0.page.Some? && cut.0.page != whole.0.page ==> |cut.1.trace| == n + 2)
  }

  lemma SameCut(cut: (Observation, Conn), snapEnd: nat, whole: (Observation, Conn), snapped: bool, closed: nat, n: nat)
    requires Interrupted(cut, snapEnd <= n, CONNECTION_CLOSED, n) == Interrupted(whole, snapped, CONNECTION_CLOSED, n)
    requires closed == (if |cut.1.trace| <= n then |cut.1.trace| else n + 1)
    requires closed == (if |whole.1.trace| <= n then |whole.1.trace| else n + 1)
    requires |cut.1.trace| <= n + 2 && (cut.0.snapshot.Some? ==> snapEnd <= n + 1)
    ensures HarmAt(cut, snapEnd, whole, n)
  {
  }

  lemma SnapshotDone(c: Conn, config: Config)
    ensures Converse(c, config).0.snapshot.Some? ==> ToSnapshot(c, config).Done?
  {
  }

  lemma HarmOf(read: Reader, closed: Conn, cut: Conn, whole: Conn, config: Config, n: nat)
    requires Tracking(read, closed, cut, CONNECTION_CLOSED, n) && Tracking(read, closed, whole, CONNECTION_CLOSED, n)
    requires |Converse(cut, config).1.trace| <= n + 2
    requires ToSnapshot(cut, config).Done? ==> |ToSnapshot(cut, config).conn.trace| <= n + 1
    ensures HarmAt(Converse(cut, config), |ToSnapshot(cut, config).conn.trace|, Converse(whole, config), n)
  {
    PollLearns(read, closed, cut, config, CONNECTION_CLOSED, n);
    PollLearns(read, closed, whole, config, CONNECTION_CLOSED, n);
    SnapshotDone(cut, config);
    SameCut(Converse(cut, config), |ToSnapshot(cut, config).conn.trace|, Converse(whole, config),
            |ToSnapshot(whole, config).conn.trace| <= n, |Converse(closed, config).1.trace|, n);
  }

  lemma UnnoticedHarmBy(read: Reader, front: seq<Wire>, part: Bytes, rest: Bytes, ending: Ending, config: Config)
    requires IsReader(read) && AllWellFormed(front)
    requires read(part, Closed).Got? && read(part, Closed).rest == []
    ensures var cut, whole := Conn(EncodeAll(front) + part, Closed, []), Conn(EncodeAll(front) + rest, ending, []);
            HarmAt(Converse(cut, config), |ToSnapshot(cut, config).conn.trace|, Converse(whole, config), |front|)
  {
    FrontTracks(read, front, part, Closed);
    FrontTracks(read, front, rest, ending);
    ShortenedGivesOut(read, front, part, config);
    HarmOf(read, Conn(EncodeAll(front) + [], Closed, []), Conn(EncodeAll(front) + part, Closed, []),
           Conn(EncodeAll(front) + rest, ending, []), config, |front|);
  }

  /** Whatever the reader did not notice of reply `n`: only if it answers the last command of
      the snapshot, or the ACL LOG, can the poll learn something that is neither what the
      undisturbed poll learns nor nothing; of the usability, only if it answers the dry run
      or the command in front of it. */
  lemma UnnoticedCloseHarms(replies: seq<Wire>, n: nat, k: nat, ending: Ending, config: Config)
    requires AllWellFormed(replies) && n < |replies| && k < |Encode(replies[n])| && Unnoticed(replies[n], k)
    ensures var cut := Conn(EncodeAll(replies[..n]) + Encode(replies[n])[..k], Closed, []);
            HarmAt(Converse(cut, config), |ToSnapshot(cut, config).conn.trace|,
                   Converse(Conn(EncodeAll(replies), ending, []), config), n)
  {
    assert replies[n] in replies;
    ReplyCut(replies[n], k);
    SplitReplies(replies, n);
    UnnoticedHarmBy(ReadReply, replies[..n], Encode(replies[n])[..k], EncodeAll(replies[n..]), ending, config);
  }

  predicate EndsWithCommand(trace: seq<Exchange>, args: seq<Bytes>)
  {
    trace != [] && trace[|trace| - 1].args == args
  }

  lemma ToPageEnds(c: Conn, config: Config)
    requires ToPage(c, config).Done?
    ensures EndsWithCommand(ToPage(c, config).conn.trace, ["ACL", "LOG", "128"])
  {
  }

  lemma FromPageEnds(snapshot: Snapshot, page: seq<AclLog.Entry>, c: Conn)
    ensures var trace := FromPage(snapshot, page, c).1.trace;
            EndsWithCommand(trace, ["ACL", "DRYRUN", "default", "PING"]) && trace[..|trace| - 1] == c.trace
  {
  }

  /** With a page learnt, the last two commands of a poll are the ACL LOG and the dry run. */
  lemma PageCommands(c: Conn, config: Config)
    requires Converse(c, config).0.page.Some?
    ensures var trace := Converse(c, config).1.trace;
            && EndsWithCommand(trace, ["ACL", "DRYRUN", "default", "PING"])
            && EndsWithCommand(trace[..|trace| - 1], ["ACL", "LOG", "128"])
  {
    ConverseCases(c, config);
    var first := ToSnapshot(c, config);
    FromSnapshotCases(first.value, first.conn, config);
    var logged := ToPage(first.conn, config);
    ToPageEnds(first.conn, config);
    FromPageEnds(first.value, logged.value, logged.conn);
  }

  ghost predicate EndsWithMembers(trace: seq<Exchange>)
  {
    exists key :: EndsWithCommand(trace, ["SMEMBERS", key])
  }

  lemma TakeSnapshotEnds(c: Conn, maxScanPages: nat)
    requires TakeSnapshot(c, maxScanPages).Done? && TakeSnapshot(c, maxScanPages).value != map[]
    ensures EndsWithMembers(TakeSnapshot(c, maxScanPages).conn.trace)
  {
    var scan := ScanFrom(c, BINDING_PATTERN, "0", [], maxScanPages);
    var sent := SnapshotHolds(scan.conn, scan.value, map[]);
    SnappedNonEmpty(ReadSets(scan.conn, scan.value, map[]), scan.conn.trace, scan.value, sent);
  }

  lemma SnapshotTaken(c: Conn, config: Config) returns (from: Conn)
    requires ToSnapshot(c, config).Done?
    ensures ToSnapshot(c, config) == TakeSnapshot(from, config.maxScanPages)
  {
    from := Probes(Login(c, config).conn).conn;
  }

  /** A snapshot with any set in it ends with a SMEMBERS. */
  lemma SnapshotCommand(c: Conn, config: Config)
    requires ToSnapshot(c, config).Done? && ToSnapshot(c, config).value != map[]
    ensures EndsWithMembers(ToSnapshot(c, config).conn.trace)
  {
    var from := SnapshotTaken(c, config);
    TakeSnapshotEnds(from, config.maxScanPages);
  }

  lemma SnappedNonEmpty(r: Step<Snapshot>, trace: seq<Exchange>, keys: seq<Reply>, sent: seq<Exchange>)
    requires Snapped(r, trace, keys, map[], sent) && r.value != map[]
    ensures EndsWithMembers(r.conn.trace)
  {
    if keys == [] {
      assert forall k :: k !in r.value;
    }
    var n := |keys| - 1;
    assert HoldsAt(sent[n], keys[n], keys[n + 1..], r.value);
    assert EndsWithCommand(r.conn.trace, ["SMEMBERS", PyStr(keys[n])]);
  }

  /** With nothing left to read the dry run is over, and taken for usable, exactly when
      the connection was closed rather than broken. */
  lemma NothingLeftForDryRun(c: Conn)
    requires c.input == []
    ensures ProbeDefault(c).Done? <==> c.ending.Closed?
    ensures ProbeDefault(c).Done? ==> ProbeDefault(c).value == 1
  {
  }

  /** What `ClosedPollAllOrNothing` says. */
  ghost predicate ClosedAt(cut: Observation, whole: (Observation, Conn), n: nat)
  {
    && (cut.snapshot == None || cut.snapshot == whole.0.snapshot)
    && (cut.page == None || cut.page == whole.0.page)
    && (if |whole.1.trace| <= n then cut == whole.0
        else if AtDryRun(whole, n) then cut.usable == Some(1) && cut.failure == None
        else cut.usable == None && cut.failure == Some(CONNECTION_CLOSED))
  }

  /** All-or-nothing on a connection that closes between replies: it holds of the snapshot
      and of the page; the usability is unknown, or the undisturbed one, or 1, this last
      exactly when the close falls in front of the dry run's reply. */
  lemma ClosedPollAllOrNothing(replies: seq<Wire>, n: nat, ending: Ending, config: Config)
    requires AllWellFormed(replies) && n <= |replies|
    ensures ClosedAt(Observe(Accepted(EncodeAll(replies[..n]), Closed), config),
                     Converse(Conn(EncodeAll(replies), ending, []), config), n)
  {
    ClosedPollLearns(replies, n, ending, config);
    var full := Conn(EncodeAll(replies), ending, []);
    InterruptedClosedAt(Converse(full, config), |ToSnapshot(full, config).conn.trace| <= n, n);
  }

  lemma InterruptedClosedAt(whole: (Observation, Conn), snapped: bool, n: nat)
    ensures ClosedAt(Interrupted(whole, snapped, CONNECTION_CLOSED, n), whole, n)
  {
  }
}
