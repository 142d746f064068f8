/** What a completed poll asked, in order, and how its observation follows from the answers. */
module Transcript {
  import opened Text
  import opened Resp
  import opened Client
  import AclLog
  import opened Bindings
  import opened Poll

  /** The exchanges of a completed poll, part by part. */
  datatype Transcript = Transcript(
    login: seq<Exchange>, probes: seq<Exchange>, scan: seq<Exchange>, sets: seq<Exchange>,
    results: seq<Exchange>, log: Exchange, dryRun: Exchange)
  {
    function All(): seq<Exchange>
    {
      login + probes + scan + sets + results + [log, dryRun]
    }
  }

  const PROBES: seq<seq<Bytes>> := [
    ["PING"], ["INFO"], ["EXISTS", "ingestion"], ["LLEN", "ingestion"],
    ["EXISTS", "unacked"], ["EXISTS", "unacked_index"]]

  /** The commands asked were these, and every one of them was answered with a value. */
  ghost predicate Asked(sent: seq<Exchange>, commands: seq<seq<Bytes>>)
  {
    |sent| == |commands| && forall i | 0 <= i < |sent| :: sent[i].args == commands[i] && sent[i].answer.Ok?
  }

  ghost predicate LoggedIn(sent: seq<Exchange>, config: Config)
  {
    sent == if config.password == [] then []
            else [Exchange(["AUTH", config.username, config.password], Ok(Str("OK")))]
  }

  /** A whole scan, or as much of it as is allowed. */
  ghost predicate Scanned(sent: seq<Exchange>, pattern: Bytes, maxScanPages: nat)
  {
    && ScanChain(sent, pattern, "0") && |sent| <= maxScanPages
    && (ScanFinished(sent) || |sent| == maxScanPages)
  }

  /** A scan of the result records in database 1, and back to database 0. */
  ghost predicate ResultsCounted(sent: seq<Exchange>, maxScanPages: nat)
  {
    && |sent| >= 2 && Scanned(sent[1..|sent| - 1], RESULT_PATTERN, maxScanPages)
    && Asked([sent[0], sent[|sent| - 1]], [["SELECT", "1"], ["SELECT", "0"]])
  }

  /** The members of every binding set found, each as last answered. */
  ghost predicate SetsRead(scan: seq<Exchange>, sets: seq<Exchange>, snapshot: Snapshot)
  {
    Holds(sets, Batches(scan), snapshot) && Adds(snapshot, Batches(scan), map[])
  }

  /** Every part of the observation is what the answers say. */
  ghost predicate Explains(t: Transcript, o: Observation, config: Config)
  {
    && LoggedIn(t.login, config) && Asked(t.probes, PROBES)
    && Scanned(t.scan, BINDING_PATTERN, config.maxScanPages)
    && o.snapshot.Some? && SetsRead(t.scan, t.sets, o.snapshot.value)
    && ResultsCounted(t.results, config.maxScanPages)
    && LogRead(t.log, o.page) && DryRunRead(t.dryRun, o.usable)
  }

  ghost predicate LogRead(x: Exchange, page: Option<seq<AclLog.Entry>>)
  {
    && x.args == ["ACL", "LOG", "128"] && x.answer.Ok?
    && page.Some? && AclLog.ParsePage(x.answer.value) == Client.Ok(page.value)
  }

  /** Usable when the dry run says OK, or ends in any RespError at all, the one for a
      closed connection included. */
  ghost predicate DryRunRead(x: Exchange, usable: Option<nat>)
  {
    && x.args == ["ACL", "DRYRUN", "default", "PING"]
    && usable == Some(if x.answer.Raise? || x.answer.value == Str("OK") then 1 else 0)
    && (x.answer.Raise? ==> !x.answer.exn.Failure?)
  }

  // ---- part by part ---------------------------------------------------------------------------------

  lemma LoginSends(c: Conn, config: Config) returns (sent: seq<Exchange>)
    requires Login(c, config).Done?
    ensures Login(c, config).conn.trace == c.trace + sent && LoggedIn(sent, config)
  {
    sent := if config.password == [] then []
            else [Exchange(["AUTH", config.username, config.password], Ok(Str("OK")))];
  }

  lemma TwoAsked(trace: seq<Exchange>, x: Exchange, y: Exchange)
    ensures trace + [x] + [y] == trace + [x, y]
    ensures x.answer.Ok? && y.answer.Ok? ==> Asked([x, y], [x.args, y.args])
  {
  }

  lemma ServerSends(c: Conn) returns (sent: seq<Exchange>)
    requires ProbeServer(c).Done?
    ensures ProbeServer(c).conn.trace == c.trace + sent && Asked(sent, [["PING"], ["INFO"]])
  {
    var s := Issue(c, ["PING"]);
    var x, y := Exchange(["PING"], Ok(s.value)), Exchange(["INFO"], Ok(Issue(s.conn, ["INFO"]).value));
    TwoAsked(c.trace, x, y);
    sent := [x, y];
  }

  lemma QueueSends(c: Conn) returns (sent: seq<Exchange>)
    requires ProbeQueue(c).Done?
    ensures ProbeQueue(c).conn.trace == c.trace + sent && Asked(sent, [["EXISTS", "ingestion"], ["LLEN", "ingestion"]])
  {
    var a, b := ["EXISTS", "ingestion"], ["LLEN", "ingestion"];
    var s := Issue(c, a);
    var x, y := Exchange(a, Ok(s.value)), Exchange(b, Ok(Issue(s.conn, b).value));
    TwoAsked(c.trace, x, y);
    sent := [x, y];
  }

  lemma UnackedSends(c: Conn) returns (sent: seq<Exchange>)
    requires ProbeUnacked(c).Done?
    ensures ProbeUnacked(c).conn.trace == c.trace + sent
    ensures Asked(sent, [["EXISTS", "unacked"], ["EXISTS", "unacked_index"]])
  {
    var a, b := ["EXISTS", "unacked"], ["EXISTS", "unacked_index"];
    var s := Issue(c, a);
    var x, y := Exchange(a, Ok(s.value)), Exchange(b, Ok(Issue(s.conn, b).value));
    TwoAsked(c.trace, x, y);
    sent := [x, y];
  }

  lemma AskedConcat(s: seq<Exchange>, a: seq<seq<Bytes>>, t: seq<Exchange>, b: seq<seq<Bytes>>)
    requires Asked(s, a) && Asked(t, b)
    ensures Asked(s + t, a + b)
  {
  }

  lemma ProbesSend(c: Conn) returns (sent: seq<Exchange>)
    requires Probes(c).Done?
    ensures Probes(c).conn.trace == c.trace + sent && Asked(sent, PROBES)
  {
    var x := ServerSends(c);
    var c1 := ProbeServer(c).conn;
    var y := QueueSends(c1);
    var z := UnackedSends(ProbeQueue(c1).conn);
    AskedConcat(x, [["PING"], ["INFO"]], y, [["EXISTS", "ingestion"], ["LLEN", "ingestion"]]);
    AskedConcat(x + y, [["PING"], ["INFO"]] + [["EXISTS", "ingestion"], ["LLEN", "ingestion"]],
                z, [["EXISTS", "unacked"], ["EXISTS", "unacked_index"]]);
    sent := x + y + z;
    Assoc3(c.trace, x, y, z);
  }

  lemma Assoc3(trace: seq<Exchange>, x: seq<Exchange>, y: seq<Exchange>, z: seq<Exchange>)
    ensures trace + x + y + z == trace + (x + y + z)
  {
  }

  lemma SnapshotSends(c: Conn, maxScanPages: nat) returns (scan: seq<Exchange>, sets: seq<Exchange>)
    requires TakeSnapshot(c, maxScanPages).Done?
    ensures TakeSnapshot(c, maxScanPages).conn.trace == c.trace + scan + sets
    ensures Scanned(scan, BINDING_PATTERN, maxScanPages) && SetsRead(scan, sets, TakeSnapshot(c, maxScanPages).value)
  {
    scan := ScanCollects(c, BINDING_PATTERN, "0", [], maxScanPages);
    var s := ScanFrom(c, BINDING_PATTERN, "0", [], maxScanPages);
    assert s.value == Batches(scan);
    sets := SnapshotHolds(s.conn, s.value, map[]);
  }

  lemma ResultsSend(c: Conn, maxScanPages: nat) returns (sent: seq<Exchange>)
    requires CountResults(c, maxScanPages).Done?
    ensures CountResults(c, maxScanPages).conn.trace == c.trace + sent && ResultsCounted(sent, maxScanPages)
  {
    var there, back := ["SELECT", "1"], ["SELECT", "0"];
    var s1 := Issue(c, there);
    var scan := ScanCollects(s1.conn, RESULT_PATTERN, "0", [], maxScanPages);
    var s2 := ScanFrom(s1.conn, RESULT_PATTERN, "0", [], maxScanPages);
    var x, y := Exchange(there, Ok(s1.value)), Exchange(back, Ok(Issue(s2.conn, back).value));
    sent := [x] + scan + [y];
    Assoc3(c.trace, [x], scan, [y]);
    assert sent[1..|sent| - 1] == scan;
    TwoAsked([], x, y);
  }

  /** How the parts join into one trace. */
  lemma Joined(t: Transcript)
    ensures [] + t.login + t.probes + t.scan + t.sets + t.results + [t.log] + [t.dryRun] == t.All()
  {
  }

  /** A completed poll, whatever the server did: these commands, in this order, and an
      observation that is what their answers say. */
  lemma CompletedPoll(input: Bytes, ending: Ending, config: Config) returns (t: Transcript)
    requires Observe(Accepted(input, ending), config).failure.None?
    ensures Converse(Conn(input, ending, []), config).1.trace == t.All()
    ensures Explains(t, Observe(Accepted(input, ending), config), config)
  {
    var c := Conn(input, ending, []);
    var login := LoginSends(c, config);
    var c1 := Login(c, config).conn;
    var probes := ProbesSend(c1);
    var c2 := Probes(c1).conn;
    var scan, sets := SnapshotSends(c2, config.maxScanPages);
    var c3 := TakeSnapshot(c2, config.maxScanPages).conn;
    var results := ResultsSend(c3, config.maxScanPages);
    var c4 := CountResults(c3, config.maxScanPages).conn;
    var log, dryRun := LastTwo(c4);
    t := Transcript(login, probes, scan, sets, results, log, dryRun);
    Joined(t);
  }

  lemma LastTwo(c: Conn) returns (log: Exchange, dryRun: Exchange)
    requires TakePage(c).Done? && ProbeDefault(TakePage(c).conn).Done?
    ensures ProbeDefault(TakePage(c).conn).conn.trace == c.trace + [log] + [dryRun]
    ensures LogRead(log, Some(TakePage(c).value)) && DryRunRead(dryRun, Some(ProbeDefault(TakePage(c).conn).value))
  {
    var args, dryArgs := ["ACL", "LOG", "128"], ["ACL", "DRYRUN", "default", "PING"];
    var s := Issue(c, args);
    log := Exchange(args, Ok(s.value));
    dryRun := Exchange(dryArgs, Issue(s.conn, dryArgs).AsResult());
  }

  // ---- the snapshot, pair by pair -----------------------------------------------------------------------

  lemma LastAsked(keys: seq<Reply>, key: Reply) returns (i: nat)
    requires key in keys
    ensures i < |keys| && keys[i] == key && key !in keys[i + 1..]
    decreases |keys|
  {
    var n := |keys| - 1;
    if keys[n] == key {
      i := n;
    } else {
      assert key in keys[..n] by {
        var j :| 0 <= j < |keys| && keys[j] == key;
        assert keys[..n][j] == key;
      }
      i := LastAsked(keys[..n], key);
      assert keys[i + 1..] == keys[..n][i + 1..] + [keys[n]];
    }
  }

  lemma AskedAgain(keys: seq<Reply>, j: nat, k: nat)
    requires j < k < |keys|
    ensures keys[k] in keys[j + 1..]
  {
    assert keys[j + 1..][k - j - 1] == keys[k];
  }

  lemma OneLast(keys: seq<Reply>, key: Reply, i: nat)
    requires i < |keys| && keys[i] == key && key !in keys[i + 1..]
    ensures forall j | 0 <= j < |keys| && keys[j] == key && key !in keys[j + 1..] :: j == i
  {
    forall j: nat | j < |keys| && keys[j] == key ensures j != i ==> j < i && key in keys[j + 1..] {
      if j < i { AskedAgain(keys, j, i); }
      if i < j { AskedAgain(keys, i, j); }
    }
  }

  /** `member` is in the answer to the last SMEMBERS asked for `key`. */
  ghost predicate AnsweredFor(keys: seq<Reply>, sets: seq<Exchange>, key: Reply, member: Reply)
    requires |keys| == |sets| && forall i | 0 <= i < |sets| :: sets[i].answer.Ok?
  {
    exists i | 0 <= i < |keys| ::
      keys[i] == key && key !in keys[i + 1..] && IsMember(sets[i].answer.value, member)
  }

  /** The edges of a completed poll's snapshot are exactly the pairs of a key scanned and a
      member in the answer to the last SMEMBERS for it. */
  lemma SnapshotEdges(scan: seq<Exchange>, sets: seq<Exchange>, snapshot: Snapshot)
    requires SetsRead(scan, sets, snapshot)
    ensures |Batches(scan)| == |sets| && forall i | 0 <= i < |sets| :: sets[i].answer.Ok?
    ensures forall key, member :: (key, member) in Edges(snapshot) <==> AnsweredFor(Batches(scan), sets, key, member)
  {
    var keys := Batches(scan);
    forall i | 0 <= i < |sets| ensures HoldsAt(sets[i], keys[i], keys[i + 1..], snapshot) {}
    forall key, member ensures (key, member) in Edges(snapshot) <==> AnsweredFor(keys, sets, key, member) {
      EdgeAnswered(keys, sets, snapshot, key, member);
    }
  }

  lemma EdgeAnswered(keys: seq<Reply>, sets: seq<Exchange>, snapshot: Snapshot, key: Reply, member: Reply)
    requires Holds(sets, keys, snapshot) && Adds(snapshot, keys, map[])
    requires forall i | 0 <= i < |sets| :: sets[i].answer.Ok?
    ensures (key, member) in Edges(snapshot) <==> AnsweredFor(keys, sets, key, member)
  {
    if key in keys {
      var i := LastAsked(keys, key);
      assert HoldsAt(sets[i], keys[i], keys[i + 1..], snapshot);
      OneLast(keys, key, i);
    }
  }

  // ---- the commands in full ---------------------------------------------------------------------------------

  /** The scans, spelled out. */
  lemma ScanCommandsAre(cursor: Bytes)
    ensures ScanCommand(cursor, BINDING_PATTERN) == ["SCAN", cursor, "MATCH", "_kombu.binding.*", "COUNT", "500"]
    ensures ScanCommand(cursor, RESULT_PATTERN) == ["SCAN", cursor, "MATCH", "celery-task-meta-*", "COUNT", "500"]
  {
  }
}
