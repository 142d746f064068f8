/** Churn of binding-set members, and rising edges of "default user usable". */
module Bindings {
  import opened Resp
  import Sums

  /** Set key to members, as one poll saw them. */
  type Snapshot = map<Reply, set<Reply>>

  /** A snapshot as a set of (key, member) pairs. */
  function Edges(s: Snapshot): set<(Reply, Reply)>
  {
    set key, member | key in s && member in s[key] :: (key, member)
  }

  datatype Binding = Binding(booted: bool, members: Snapshot, churn: nat)

  /** The first snapshot is adopted; a later one counts the edges it creates. */
  function Rebind(b: Binding, current: Snapshot): Binding
  {
    Binding(true, current, b.churn + if b.booted then |Edges(current) - Edges(b.members)| else 0)
  }

  /** The counting loop: all members of a new set, the additions of a known one. Together
      the two branches are the size of one set difference. */
  method CountAdditions(booted: bool, previous: Snapshot, current: Snapshot) returns (additions: nat)
    ensures additions == if booted then |Edges(current) - Edges(previous)| else 0
  {
    additions := 0;
    var rest := current.Keys;
    ghost var done: set<Reply> := {};
    NewEdgesBounds(previous, current);
    while |rest| != 0
      invariant rest !! done && rest + done == current.Keys
      invariant additions == if booted then |NewEdges(previous, current, done)| else 0
    {
      var key :| key in rest;
      NewEdgesStep(previous, current, done, key);
      rest, done := rest - {key}, done + {key};
      if booted {
        if key !in previous {
          additions := additions + |current[key]|;
        } else {
          additions := additions + |current[key] - previous[key]|;
        }
      }
    }
    assert done == current.Keys;
  }

  lemma NewEdgesBounds(previous: Snapshot, current: Snapshot)
    ensures NewEdges(previous, current, {}) == {}
    ensures NewEdges(previous, current, current.Keys) == Edges(current) - Edges(previous)
  {
  }

  /** The edges created under some of the keys. */
  ghost function NewEdges(previous: Snapshot, current: Snapshot, keys: set<Reply>): set<(Reply, Reply)>
  {
    set e | e in Edges(current) - Edges(previous) && e.0 in keys
  }

  lemma NewEdgesStep(previous: Snapshot, current: Snapshot, keys: set<Reply>, key: Reply)
    requires key in current && key !in keys
    ensures |NewEdges(previous, current, keys + {key})|
         == |NewEdges(previous, current, keys)|
            + if key in previous then |current[key] - previous[key]| else |current[key]|
  {
    var members := if key in previous then current[key] - previous[key] else current[key];
    var pairs := set member | member in members :: (key, member);
    PairsOf(key, members);
    NewEdgesSplit(previous, current, keys, key, members);
  }

  lemma NewEdgesSplit(previous: Snapshot, current: Snapshot, keys: set<Reply>, key: Reply, members: set<Reply>)
    requires key in current && key !in keys
    requires members == if key in previous then current[key] - previous[key] else current[key]
    ensures var pairs := set member | member in members :: (key, member);
            && NewEdges(previous, current, keys + {key}) == NewEdges(previous, current, keys) + pairs
            && NewEdges(previous, current, keys) !! pairs
  {
  }

  lemma {:induction false} PairsOf(key: Reply, members: set<Reply>)
    ensures |set member | member in members :: (key, member)| == |members|
    decreases members
  {
    if |members| != 0 {
      var x := Sums.Pick(members);
      PairsOf(key, members - {x});
      assert (set member | member in members :: (key, member))
          == (set member | member in members - {x} :: (key, member)) + {(key, x)};
    }
  }

  function Rebinds(b: Binding, snapshots: seq<Snapshot>): Binding
  {
    if snapshots == [] then b
    else Rebind(Rebinds(b, snapshots[..|snapshots| - 1]), snapshots[|snapshots| - 1])
  }

  /** Edges created, and edges lost, from each snapshot to the next. */
  function Created(snapshots: seq<Snapshot>): nat
  {
    if |snapshots| < 2 then 0
    else
      var n := |snapshots|;
      Created(snapshots[..n - 1]) + |Edges(snapshots[n - 1]) - Edges(snapshots[n - 2])|
  }

  function Removed(snapshots: seq<Snapshot>): nat
  {
    if |snapshots| < 2 then 0
    else
      var n := |snapshots|;
      Removed(snapshots[..n - 1]) + |Edges(snapshots[n - 2]) - Edges(snapshots[n - 1])|
  }

  lemma Exchange<T>(a: set<T>, b: set<T>)
    ensures |b| + |a - b| == |a| + |b - a|
  {
    assert b == (b - a) + a * b && a == (a - b) + a * b;
    assert |b| == |b - a| + |a * b| && |a| == |a - b| + |a * b|;
  }

  /** After any run the counter is the number of edges created after the first snapshot,
      and edges are conserved: what is there is what was there, plus created, minus removed. */
  lemma {:induction false} ChurnIsEdgeCreation(snapshots: seq<Snapshot>)
    requires snapshots != []
    ensures var b := Rebinds(Binding(false, map[], 0), snapshots);
            && b.booted && b.members == snapshots[|snapshots| - 1]
            && b.churn == Created(snapshots)
            && |Edges(b.members)| + Removed(snapshots) == |Edges(snapshots[0])| + b.churn
  {
    var n := |snapshots|;
    var before := Rebinds(Binding(false, map[], 0), snapshots[..n - 1]);
    if n > 1 {
      ChurnIsEdgeCreation(snapshots[..n - 1]);
      assert before.members == snapshots[n - 2] && snapshots[..n - 1][0] == snapshots[0];
      Exchange(Edges(before.members), Edges(snapshots[n - 1]));
    }
  }

  // ---- rising edges ---------------------------------------------------------------------------------

  datatype Edge = Edge(usablePrev: nat, success: nat)

  function OnSignal(e: Edge, usable: nat): Edge
  {
    Edge(usable, if usable == 1 && e.usablePrev == 0 then e.success + 1 else e.success)
  }

  function OnSignals(e: Edge, signals: seq<nat>): Edge
  {
    if signals == [] then e
    else OnSignal(OnSignals(e, signals[..|signals| - 1]), signals[|signals| - 1])
  }

  /** The number of places where a 0 (or the start) is followed by a 1, and conversely. */
  function Steps(signals: seq<nat>, from: nat, to: nat): nat
  {
    |set i | 0 <= i < |signals| && StepAt(signals, i, from, to)|
  }

  predicate StepAt(signals: seq<nat>, i: nat, from: nat, to: nat)
    requires i < |signals|
  {
    signals[i] == to && (if i == 0 then 0 else signals[i - 1]) == from
  }

  lemma StepsAppend(signals: seq<nat>, x: nat, from: nat, to: nat)
    ensures Steps(signals + [x], from, to)
         == Steps(signals, from, to)
            + if x == to && (if signals == [] then 0 else signals[|signals| - 1]) == from then 1 else 0
  {
    var n, longer := |signals|, signals + [x];
    var shorterSteps := set i | 0 <= i < n && StepAt(signals, i, from, to);
    var longerSteps := set i | 0 <= i < n + 1 && StepAt(longer, i, from, to);
    assert forall i | 0 <= i < n :: StepAt(longer, i, from, to) == StepAt(signals, i, from, to);
    assert longerSteps == shorterSteps + if StepAt(longer, n, from, to) then {n} else {};
  }

  /** The counter is the number of 0-to-1 transitions of the signal sequence, and rises
      minus falls is the current level. */
  lemma {:induction false} CountsRisingEdges(signals: seq<nat>)
    requires forall i | 0 <= i < |signals| :: signals[i] <= 1
    ensures var e := OnSignals(Edge(0, 0), signals);
            && e.usablePrev == (if signals == [] then 0 else signals[|signals| - 1])
            && e.success == Steps(signals, 0, 1)
            && Steps(signals, 0, 1) == Steps(signals, 1, 0) + e.usablePrev
  {
    if signals != [] {
      var front, last := signals[..|signals| - 1], signals[|signals| - 1];
      assert signals == front + [last];
      CountsRisingEdges(front);
      StepsAppend(front, last, 0, 1);
      StepsAppend(front, last, 1, 0);
    }
  }
}
