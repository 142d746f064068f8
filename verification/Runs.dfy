/** Any run of polls, failed and successful mixed. */
module Runs {
  import opened Text
  import opened Resp
  import opened Client
  import Registry
  import opened AclLog
  import opened AclAccounting
  import opened Bindings
  import opened Poll
  import opened Exporter
  import Interruption
  import Truncation

  function Run(polls: seq<Observation>): State
  {
    if polls == [] then INITIAL else Advance(Run(polls[..|polls| - 1]), polls[|polls| - 1])
  }

  // ---- what each accumulator was told ---------------------------------------------------------------

  function Snapshots(polls: seq<Observation>): seq<Snapshot>
  {
    if polls == [] then []
    else
      var o := polls[|polls| - 1];
      Snapshots(polls[..|polls| - 1]) + if o.snapshot.Some? then [o.snapshot.value] else []
  }

  function Pages(polls: seq<Observation>): seq<seq<Entry>>
  {
    if polls == [] then []
    else
      var o := polls[|polls| - 1];
      Pages(polls[..|polls| - 1]) + if o.page.Some? then [o.page.value] else []
  }

  function Signals(polls: seq<Observation>): seq<nat>
  {
    if polls == [] then []
    else
      var o := polls[|polls| - 1];
      Signals(polls[..|polls| - 1]) + if Signal(o).Some? then [Signal(o).value] else []
  }

  lemma Rebinding(b: Binding, snapshots: seq<Snapshot>, s: Snapshot)
    ensures Rebinds(b, snapshots + [s]) == Rebind(Rebinds(b, snapshots), s)
  {
    assert (snapshots + [s])[..|snapshots|] == snapshots;
  }

  lemma Paging(a: Acl, pages: seq<seq<Entry>>, page: seq<Entry>)
    ensures OnPages(a, pages + [page]) == OnPage(OnPages(a, pages), page)
  {
    assert (pages + [page])[..|pages|] == pages;
  }

  lemma Signalling(e: Edge, signals: seq<nat>, s: nat)
    ensures OnSignals(e, signals + [s]) == OnSignal(OnSignals(e, signals), s)
  {
    assert (signals + [s])[..|signals|] == signals;
  }

  /** Exactly once: over any mix of polls each accumulator is what a run of only those
      polls that reached it makes of it. */
  lemma {:induction false} ExactlyOnce(polls: seq<Observation>)
    ensures Run(polls).acl == OnPages(START, Pages(polls))
    ensures Run(polls).bindings == Rebinds(INITIAL.bindings, Snapshots(polls))
    ensures Run(polls).edge == OnSignals(INITIAL.edge, Signals(polls))
  {
    if polls != [] {
      var front, o := polls[..|polls| - 1], polls[|polls| - 1];
      ExactlyOnce(front);
      NoneLeavesAlone(front, o);
      if o.page.Some? { Paging(START, Pages(front), o.page.value); }
      if o.snapshot.Some? { Rebinding(INITIAL.bindings, Snapshots(front), o.snapshot.value); }
      if Signal(o).Some? { Signalling(INITIAL.edge, Signals(front), Signal(o).value); }
    }
  }

  lemma NoneLeavesAlone(front: seq<Observation>, o: Observation)
    ensures o.page == None ==> Pages(front + [o]) == Pages(front)
    ensures o.snapshot == None ==> Snapshots(front + [o]) == Snapshots(front)
    ensures Signal(o) == None ==> Signals(front + [o]) == Signals(front)
    ensures front + [o] != [] && (front + [o])[..|front|] == front
  {
    assert (front + [o])[..|front|] == front;
  }

  ghost predicate AllSound(polls: seq<Observation>)
  {
    forall i | 0 <= i < |polls| :: Sound(polls[i])
  }

  lemma {:induction false} SignalsAreBits(polls: seq<Observation>)
    requires AllSound(polls)
    ensures forall i | 0 <= i < |Signals(polls)| :: Signals(polls)[i] <= 1
  {
    if polls != [] { SignalsAreBits(polls[..|polls| - 1]); }
  }

  /** After any run: churn is edge creation since the first complete snapshot, and the
      default-user counter is the number of rises in the merged sequence of dry runs and
      protected-mode denials. */
  lemma RunCounts(polls: seq<Observation>)
    requires AllSound(polls)
    ensures var s := Snapshots(polls);
            s != [] ==>
              (&& Run(polls).bindings.churn == Created(s)
               && |Edges(Run(polls).bindings.members)| + Removed(s) == |Edges(s[0])| + Run(polls).bindings.churn)
    ensures Run(polls).edge.success == Steps(Signals(polls), 0, 1)
    ensures Steps(Signals(polls), 0, 1) == Steps(Signals(polls), 1, 0) + Run(polls).edge.usablePrev
  {
    ExactlyOnce(polls);
    if Snapshots(polls) != [] { ChurnIsEdgeCreation(Snapshots(polls)); }
    SignalsAreBits(polls);
    CountsRisingEdges(Signals(polls));
  }

  /** A failure that is no protected-mode denial tells the default-user counter nothing. */
  lemma OtherFailuresIgnored(st: State, o: Observation)
    requires Sound(o) && o.failure.Some?
    ensures Advance(st, o).edge == st.edge <==>
              !ProtectedNoPass(o.failure.value.text) || st.edge.usablePrev == 1
  {
  }

  /** After any run that took a page: the ACL counters are the eleven pre-seeded ones, nine
      of them partition the growth, and emergency use is covered by its sources if new
      entries have counts of at least 0. */
  lemma RunPartition(polls: seq<Observation>)
    requires Pages(polls) != []
    ensures var pages := Pages(polls);
            var seen0, entries := Adopt(map[], pages[0]), Flatten(pages[1..]);
            && PartitionsGrowth(Run(polls).acl.counters, seen0, entries)
            && (NewNonNegative(seen0, entries) ==> EmergencyCovered(Run(polls).acl.counters))
  {
    ExactlyOnce(polls);
    PagesPartition(Pages(polls));
  }

  lemma PagesPartition(pages: seq<seq<Entry>>)
    requires pages != []
    ensures var d, seen0, entries := OnPages(START, pages).counters, Adopt(map[], pages[0]), Flatten(pages[1..]);
            PartitionsGrowth(d, seen0, entries) && (NewNonNegative(seen0, entries) ==> EmergencyCovered(d))
  {
    assert pages == [pages[0]] + pages[1..];
    AclPartition(pages[0], pages[1..]);
    if NewNonNegative(Adopt(map[], pages[0]), Flatten(pages[1..])) { EmergencyOverlay(pages[0], pages[1..]); }
  }

  /** After any run that took a page, every ACL counter holds the growth of the entries that
      its name and labels describe. */
  lemma RunCountersByField(polls: seq<Observation>, role: string, destructive: bool)
    requires Pages(polls) != []
    ensures var d := Run(polls).acl.counters;
            var seen0, entries := Adopt(map[], Pages(polls)[0]), Flatten(Pages(polls)[1..]);
            && GetOr0(d, Denied(role, Category(destructive))) == GrowthWhere(seen0, entries, Denials(role, destructive))
            && GetOr0(d, AUTH_FAILURES) == GrowthWhere(seen0, entries, AuthFailures())
            && GetOr0(d, EMERGENCY_USE) == GrowthWhere(seen0, entries, EmergencyUses())
  {
    ExactlyOnce(polls);
    var pages := Pages(polls);
    assert pages == [pages[0]] + pages[1..];
    CountersByField(pages[0], pages[1..], role, destructive);
  }

  /** After any run that took a page, every ACL counter has its closed form. */
  lemma RunClosedForm(polls: seq<Observation>, cls: int -> Class, key: Registry.Series)
    requires Pages(polls) != [] && FixedClasses(Flatten(Pages(polls)[1..]), cls)
    ensures ClosedForm(GetOr0(Run(polls).acl.counters, key),
                       Adopt(map[], Pages(polls)[0]), Flatten(Pages(polls)[1..]), cls, key)
  {
    ExactlyOnce(polls);
    PagesClosedForm(Pages(polls), cls, key);
  }

  lemma PagesClosedForm(pages: seq<seq<Entry>>, cls: int -> Class, key: Registry.Series)
    requires pages != [] && FixedClasses(Flatten(pages[1..]), cls)
    ensures ClosedForm(GetOr0(OnPages(START, pages).counters, key),
                       Adopt(map[], pages[0]), Flatten(pages[1..]), cls, key)
  {
    assert pages == [pages[0]] + pages[1..];
    AclClosedForm(pages[0], pages[1..], cls, key);
  }

  lemma {:induction false} AclInvariant(polls: seq<Observation>)
    ensures Registry.Keys(Run(polls).acl.counters) == SEEDED_KEYS
    ensures GetOr0(Run(polls).acl.counters, DEFAULT_SUCCESS) == 0
  {
    if polls == [] {
      ZerosGet(SEEDED_KEYS, DEFAULT_SUCCESS);
    } else {
      var front, o := polls[..|polls| - 1], polls[|polls| - 1];
      AclInvariant(front);
      if o.page.Some? { Partitioned(Run(front).acl, o.page.value); }
    }
  }

  /** A poll whose connection breaks at any byte leaves each accumulator either as it was
      or as the undisturbed poll would have left it. */
  lemma CutPollUpdatesAllOrNothing(st: State, input: Bytes, cause: Bytes, more: Bytes, ending: Ending, config: Config)
    requires !ProtectedNoPass(cause)
    ensures var cut := Advance(st, Observe(Accepted(input, Broken(cause)), config));
            var whole := Advance(st, Observe(Accepted(input + more, ending), config));
            && (cut.acl == st.acl || cut.acl == whole.acl)
            && (cut.bindings == st.bindings || cut.bindings == whole.bindings)
            && (cut.edge == st.edge || cut.edge == whole.edge)
  {
    Interruption.CutPollLearnsAllOrNothing(input, cause, more, ending, config);
  }

  lemma ClosedIsNoDenial()
    ensures !ProtectedNoPass(Interruption.CONNECTION_CLOSED.text)
  {
    assert |Interruption.CONNECTION_CLOSED.text| == 17 && |"no password is set for the default user"| == 39;
  }

  /** A poll whose connection closes cleanly behind reply `n`: the first two accumulators
      are as before or as after the undisturbed poll; the third is so too, unless the close
      falls in front of the dry run's reply, which counts as a default user that is usable.
      So a rise that did not happen is counted exactly there, when the level was 0 and the
      poll would not have found it 1. */
  lemma ClosedPollUpdates(st: State, replies: seq<Wire>, n: nat, ending: Ending, config: Config)
    requires AllWellFormed(replies) && n <= |replies|
    ensures ClosedUpdate(st, Observe(Accepted(EncodeAll(replies[..n]), Closed), config),
                         Converse(Conn(EncodeAll(replies), ending, []), config), n)
  {
    Interruption.ClosedPollAllOrNothing(replies, n, ending, config);
    ClosedUpdates(st, Observe(Accepted(EncodeAll(replies[..n]), Closed), config),
                  Converse(Conn(EncodeAll(replies), ending, []), config), n);
  }

  ghost predicate ClosedUpdate(st: State, closed: Observation, whole: (Observation, Conn), n: nat)
  {
    var cut, after := Advance(st, closed), Advance(st, whole.0);
    && (cut.acl == st.acl || cut.acl == after.acl)
    && (cut.bindings == st.bindings || cut.bindings == after.bindings)
    && cut.edge == (if |whole.1.trace| <= n then after.edge
                    else if Interruption.AtDryRun(whole, n) then OnSignal(st.edge, 1)
                    else st.edge)
    && (cut.edge.success > after.edge.success
        <==> Interruption.AtDryRun(whole, n) && st.edge.usablePrev == 0 && Signal(whole.0) != Some(1))
  }

  lemma ClosedUpdates(st: State, closed: Observation, whole: (Observation, Conn), n: nat)
    requires Interruption.ClosedAt(closed, whole, n)
    ensures ClosedUpdate(st, closed, whole, n)
  {
    ClosedIsNoDenial();
  }

  /** A clean close within a reply that goes unnoticed: an accumulator is neither as before
      nor as after the undisturbed poll only if the shortened reply is the snapshot's last,
      or the one in front of the dry run (the ACL LOG's), or for the third one the poll's
      last or last but one. */
  lemma UnnoticedCloseUpdates(st: State, replies: seq<Wire>, n: nat, k: nat, ending: Ending, config: Config)
    requires AllWellFormed(replies) && n < |replies| && k < |Encode(replies[n])| && Truncation.Unnoticed(replies[n], k)
    ensures var cut := Conn(EncodeAll(replies[..n]) + Encode(replies[n])[..k], Closed, []);
            UnnoticedUpdate(st, Converse(cut, config), |ToSnapshot(cut, config).conn.trace|,
                            Converse(Conn(EncodeAll(replies), ending, []), config), n)
  {
    Interruption.UnnoticedCloseHarms(replies, n, k, ending, config);
    var cut := Conn(EncodeAll(replies[..n]) + Encode(replies[n])[..k], Closed, []);
    UnnoticedUpdates(st, Converse(cut, config), |ToSnapshot(cut, config).conn.trace|,
                     Converse(Conn(EncodeAll(replies), ending, []), config), n);
  }

  ghost predicate UnnoticedUpdate(st: State, cut: (Observation, Conn), snapEnd: nat, whole: (Observation, Conn), n: nat)
  {
    var closed, after := Advance(st, cut.0), Advance(st, whole.0);
    && (closed.bindings != st.bindings && closed.bindings != after.bindings ==> snapEnd == n + 1)
    && (closed.acl != st.acl && closed.acl != after.acl ==> |cut.1.trace| == n + 2)
    && (closed.edge != st.edge && closed.edge != after.edge ==> |cut.1.trace| in {n + 1, n + 2})
  }

  lemma UnnoticedUpdates(st: State, cut: (Observation, Conn), snapEnd: nat, whole: (Observation, Conn), n: nat)
    requires Interruption.HarmAt(cut, snapEnd, whole, n)
    ensures UnnoticedUpdate(st, cut, snapEnd, whole, n)
  {
  }
}
