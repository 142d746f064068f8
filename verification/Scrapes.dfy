/** What a scrape can see between any two writes of any run of polls. */
module Scrapes {
  import opened Text
  import opened Ordering
  import opened Registry
  import opened AclLog
  import AclAccounting
  import Bindings
  import opened Poll
  import opened Exporter
  import opened Runs
  import Increase

  // ---- the last write of a series decides -----------------------------------------------------------

  predicate Sets(w: Write, key: Series) { w.CounterSet? && w.key == key }

  function LastIndex(log: seq<Write>, key: Series): (r: Option<nat>)
    ensures r.Some? ==> r.value < |log| && Sets(log[r.value], key)
  {
    if log == [] then None
    else if Sets(log[|log| - 1], key) then Some(|log| - 1)
    else LastIndex(log[..|log| - 1], key)
  }

  /** The value of a counter series that a scrape sees after the writes of `log`. */
  function Seen(log: seq<Write>, key: Series): Option<int>
  {
    Get(After(log).counters, key)
  }

  lemma {:induction false} SeenIsLastWrite(log: seq<Write>, key: Series)
    ensures Seen(log, key) == match LastIndex(log, key)
                              case None => None
                              case Some(i) => Some(log[i].value)
  {
    if log != [] {
      var front, w := log[..|log| - 1], log[|log| - 1];
      SeenIsLastWrite(front, key);
      if w.CounterSet? { GetPut(After(front).counters, w.key, w.value, key); }
    }
  }

  lemma {:induction false} LastIndexGrows(log: seq<Write>, key: Series, n: nat)
    requires n <= |log| && LastIndex(log[..n], key).Some?
    ensures LastIndex(log, key).Some? && LastIndex(log[..n], key).value <= LastIndex(log, key).value
  {
    if n == |log| {
      assert log[..n] == log;
    } else if !Sets(log[|log| - 1], key) {
      assert log[..|log| - 1][..n] == log[..n];
      LastIndexGrows(log[..|log| - 1], key, n);
    }
  }

  lemma SeenAppend(log: seq<Write>, w: Write, key: Series)
    ensures Seen(log + [w], key) == if Sets(w, key) then Some(w.value) else Seen(log, key)
  {
    AfterAppend(log, w);
    if w.CounterSet? { GetPut(After(log).counters, w.key, w.value, key); }
  }

  // ---- where a published value comes from -----------------------------------------------------------

  const DEFAULT_SERIES: Series := SeriesOf(DEFAULT_SUCCESS.name, [])
  const CHURN_SERIES: Series := SeriesOf(BINDING_EVENTS, [])

  function Published(key: Series): Series
  {
    SeriesOf(key.name, key.labels)
  }

  /** Publishing sorts the two labels of a denied-command counter; this undoes it. */
  function Source(key: Series): Series
  {
    if |key.labels| == 2 then Series(key.name, [key.labels[1], key.labels[0]]) else key
  }

  lemma PublishedDenied(role: string, category: string)
    ensures Published(Denied(role, category)).labels == [Label("category", category), Label("role", role)]
  {
    var r, c := Label("role", role), Label("category", category);
    assert [r, c][1..] == [c];
    assert Sort(LabelLess, [c]) == [c];
    assert "role"[0] == 'r' && "category"[0] == 'c';
    assert !StringLess("role", "category");
    assert !LabelLess(r, c);
    assert Sort(LabelLess, [r, c]) == Insert(LabelLess, r, [c]) == [c] + Insert(LabelLess, r, []);
  }

  /** No two of the eleven counters are published under one name. */
  lemma PublishedHasSource(key: Series)
    requires key in SEEDED_KEYS
    ensures Source(Published(key)) == key && Published(key).name == key.name
  {
    if |key.labels| == 2 {
      PublishedDenied(key.labels[0].value, key.labels[1].value);
      SeededShape(key);
    } else {
      SeededShape(key);
      assert Sort(LabelLess, key.labels) == [];
    }
  }

  predicate IsDenied(key: Series)
  {
    |key.labels| == 2 && key == Denied(key.labels[0].value, key.labels[1].value)
  }

  lemma PlaceOf(keys: seq<Series>, key: Series) returns (k: nat)
    requires key in keys
    ensures k < |keys| && keys[k] == key
  {
    k :| 0 <= k < |keys| && keys[k] == key;
  }

  predicate IsCounter(key: Series)
  {
    IsDenied(key) || key == AUTH_FAILURES || key == EMERGENCY_USE || key == DEFAULT_SUCCESS
  }

  lemma DeniedIsCounter(role: string)
    ensures |DeniedBy(role)| == 2 && IsCounter(DeniedBy(role)[0]) && IsCounter(DeniedBy(role)[1])
  {
  }

  ghost predicate AllCounters(keys: seq<Series>)
  {
    forall key | key in keys :: IsCounter(key)
  }

  lemma AllCountersConcat(a: seq<Series>, b: seq<Series>)
    requires AllCounters(a) && AllCounters(b)
    ensures AllCounters(a + b)
  {
  }

  lemma AllDeniedBy(role: string)
    ensures AllCounters(DeniedBy(role))
  {
    DeniedIsCounter(role);
  }

  lemma SeededCases(key: Series)
    requires key in SEEDED_KEYS
    ensures IsCounter(key)
  {
    AllDeniedBy("broker");
    AllDeniedBy("results");
    AllDeniedBy("monitor");
    AllDeniedBy("other");
    var two := DeniedBy("broker") + DeniedBy("results");
    AllCountersConcat(DeniedBy("broker"), DeniedBy("results"));
    AllCountersConcat(two, DeniedBy("monitor"));
    AllCountersConcat(two + DeniedBy("monitor"), DeniedBy("other"));
    AllCountersConcat(two + DeniedBy("monitor") + DeniedBy("other"), [AUTH_FAILURES]);
    AllCountersConcat(PARTITION, [EMERGENCY_USE, DEFAULT_SUCCESS]);
  }

  /** The names of the counters are of different lengths. */
  lemma NameLengths()
    ensures |BINDING_EVENTS| == 37 && |DEFAULT_SUCCESS.name| == 36
    ensures |AUTH_FAILURES.name| == 25 && |EMERGENCY_USE.name| == 29
    ensures forall role, category :: |Denied(role, category).name| == 31
  {
  }

  lemma SeededShape(key: Series)
    requires key in SEEDED_KEYS
    ensures key.labels == [] || IsDenied(key)
    ensures key.name != BINDING_EVENTS
    ensures key.name == DEFAULT_SUCCESS.name ==> key == DEFAULT_SUCCESS
  {
    SeededCases(key);
    NameLengths();
  }

  /** The accumulator behind a published series. */
  function Level(st: State, key: Series): int
  {
    if key.name == BINDING_EVENTS then st.bindings.churn else GetOr0(st.acl.counters, Source(key))
  }

  lemma PublishAllLevels(st: State, i: nat)
    requires Keys(st.acl.counters) == SEEDED_KEYS && i < |st.acl.counters|
    ensures var w := PublishAll(st.acl.counters)[i];
            && w.value == Level(st, w.key) && Source(w.key) == SEEDED_KEYS[i]
            && w.key.name == SEEDED_KEYS[i].name && w.key.name != BINDING_EVENTS
  {
    var d := st.acl.counters;
    assert Keys(d)[i] == d[i].key && d[i].key in SEEDED_KEYS;
    PublishedHasSource(d[i].key);
    SeededShape(d[i].key);
    SeededKeysDistinct();
    assert DistinctKeys(d) by {
      forall x, y | 0 <= x < y < |d| ensures d[x].key != d[y].key {
        assert Keys(d)[x] == d[x].key && Keys(d)[y] == d[y].key;
      }
    }
    GetItem(d, d[i].key, d[i].value);
  }

  // ---- monotonicity ---------------------------------------------------------------------------------

  /** Every write of a poll but those of the default-user series carries the level the
      poll leaves behind. */
  lemma WritesCarryLevels(st: State, o: Observation, now: int, i: nat)
    requires Keys(st.acl.counters) == SEEDED_KEYS && i < |Writes(st, o, now)|
    requires Writes(st, o, now)[i].CounterSet? && Writes(st, o, now)[i].key != DEFAULT_SERIES
    ensures Writes(st, o, now)[i].value == Level(Advance(st, o), Writes(st, o, now)[i].key)
  {
    var s, p, e := SnapshotWrites(st.bindings, o), PageWrites(st.acl, o), EndWrites(st.edge, o, now);
    WriteAt(s, p, e, i);
    if i < |s| {
      ChurnCarriesLevel(st, o);
    } else if i < |s| + |p| {
      PageCarriesLevel(st, o, i - |s|);
    } else {
      EndWritesDefault(st.edge, o, now, i - |s| - |p|);
    }
  }

  lemma WriteAt(s: seq<Write>, p: seq<Write>, e: seq<Write>, i: nat)
    requires i < |s + p + e|
    ensures (s + p + e)[i] == if i < |s| then s[i] else if i < |s| + |p| then p[i - |s|] else e[i - |s| - |p|]
  {
  }

  lemma ChurnCarriesLevel(st: State, o: Observation)
    requires o.snapshot.Some?
    ensures var w := SnapshotWrites(st.bindings, o)[0]; w.CounterSet? && w.value == Level(Advance(st, o), w.key)
  {
  }

  lemma PageCarriesLevel(st: State, o: Observation, k: nat)
    requires Keys(st.acl.counters) == SEEDED_KEYS && k < |PageWrites(st.acl, o)|
    ensures var w := PageWrites(st.acl, o)[k];
            && w.CounterSet? && w.value == Level(Advance(st, o), w.key)
            && k < |SEEDED_KEYS| && Source(w.key) == SEEDED_KEYS[k] && w.key.name == SEEDED_KEYS[k].name
  {
    AclAccounting.Partitioned(st.acl, o.page.value);
    KeysLength(Advance(st, o).acl.counters);
    PublishAllLevels(Advance(st, o), k);
  }

  lemma KeysLength(d: Dict)
    ensures |Keys(d)| == |d|
  {
  }

  lemma SnapshotWritesChurn(b: Bindings.Binding, o: Observation)
    ensures forall w | w in SnapshotWrites(b, o) :: w.key == CHURN_SERIES
  {
  }

  lemma EndWritesDefault(e: Bindings.Edge, o: Observation, now: int, k: nat)
    requires k < |EndWrites(e, o, now)| && EndWrites(e, o, now)[k].CounterSet?
    ensures EndWrites(e, o, now)[k].key == DEFAULT_SERIES
  {
  }

  /** The server's side of the bargain: new entries are listed with counts of at least 0. */
  ghost predicate Honest(st: State, o: Observation)
  {
    o.page.Some? && st.acl.booted ==> AclAccounting.NewNonNegative(st.acl.seen, o.page.value)
  }

  lemma LevelsGrow(st: State, o: Observation, key: Series)
    requires Honest(st, o)
    ensures Level(st, key) <= Level(Advance(st, o), key)
  {
    if o.page.Some? && st.acl.booted {
      AclAccounting.CountersOnlyGrow(st.acl, o.page.value, Source(key));
    }
  }

  ghost predicate HonestRun(polls: seq<Observation>)
  {
    forall i | 0 <= i < |polls| :: Honest(Run(polls[..i]), polls[i])
  }

  /** All counter writes of a run, polls taking place at the given times. */
  function Log(polls: seq<Observation>, times: seq<int>): seq<Write>
    requires |polls| == |times|
  {
    if polls == [] then []
    else
      var n := |polls| - 1;
      Log(polls[..n], times[..n]) + Writes(Run(polls[..n]), polls[n], times[n])
  }

  ghost predicate Rising(log: seq<Write>)
  {
    forall i, j | 0 <= i <= j < |log| && log[i].CounterSet? && log[j].CounterSet?
                  && log[i].key == log[j].key && log[i].key != DEFAULT_SERIES :: log[i].value <= log[j].value
  }

  ghost predicate AtMost(log: seq<Write>, st: State)
  {
    forall i | 0 <= i < |log| && log[i].CounterSet? && log[i].key != DEFAULT_SERIES ::
      log[i].value <= Level(st, log[i].key)
  }

  lemma RisingStep(log: seq<Write>, st: State, o: Observation, now: int)
    requires Keys(st.acl.counters) == SEEDED_KEYS && Honest(st, o) && Rising(log) && AtMost(log, st)
    ensures Rising(log + Writes(st, o, now)) && AtMost(log + Writes(st, o, now), Advance(st, o))
  {
    var ws, st' := Writes(st, o, now), Advance(st, o);
    forall i | 0 <= i < |log + ws| && (log + ws)[i].CounterSet? && (log + ws)[i].key != DEFAULT_SERIES
      ensures (log + ws)[i].value <= Level(st', (log + ws)[i].key)
      ensures i >= |log| ==> (log + ws)[i].value == Level(st', (log + ws)[i].key)
    {
      if i < |log| {
        LevelsGrow(st, o, log[i].key);
      } else {
        WritesCarryLevels(st, o, now, i - |log|);
      }
    }
  }

  lemma {:induction false} RunRising(polls: seq<Observation>, times: seq<int>)
    requires |polls| == |times| && HonestRun(polls)
    ensures Rising(Log(polls, times)) && AtMost(Log(polls, times), Run(polls))
  {
    if polls != [] {
      var n := |polls| - 1;
      forall i | 0 <= i < n ensures polls[..n][..i] == polls[..i] && polls[..n][i] == polls[i] {}
      RunRising(polls[..n], times[..n]);
      AclInvariant(polls[..n]);
      RisingStep(Log(polls[..n], times[..n]), Run(polls[..n]), polls[n], times[n]);
    }
  }

  /** Two scrapes of any run, the earlier after `i` writes and the later after `j`: no
      counter series but the default-user one has gone down or disappeared. */
  lemma ScrapesMonotone(polls: seq<Observation>, times: seq<int>, i: nat, j: nat, key: Series)
    requires |polls| == |times| && HonestRun(polls) && key != DEFAULT_SERIES
    requires i <= j <= |Log(polls, times)|
    ensures var log := Log(polls, times);
            Seen(log[..i], key).Some? ==>
              Seen(log[..j], key).Some? && Seen(log[..i], key).value <= Seen(log[..j], key).value
  {
    RunRising(polls, times);
    var log := Log(polls, times);
    SeenIsLastWrite(log[..i], key);
    SeenIsLastWrite(log[..j], key);
    if LastIndex(log[..i], key).Some? {
      assert log[..j][..i] == log[..i];
      LastIndexGrows(log[..j], key, i);
    }
  }

  lemma {:induction false} FailureCountersMonotone(log: seq<Write>, i: nat)
    requires i <= |log|
    ensures After(log[..i]).authFailures <= After(log).authFailures
    ensures After(log[..i]).scrapeErrors <= After(log).scrapeErrors
  {
    if i == |log| {
      assert log[..i] == log;
    } else {
      assert log[..|log| - 1][..i] == log[..i];
      FailureCountersMonotone(log[..|log| - 1], i);
    }
  }

  // ---- counters and gauges keep apart ---------------------------------------------------------------

  const COUNTERS: set<string> := {
    "redis_acl_denied_commands_total", "redis_auth_failures_total", "redis_acl_emergency_use_total",
    "redis_acl_default_auth_success_total", BINDING_EVENTS}

  lemma NamesDisjoint(name: string)
    ensures !(name in COUNTERS && name in GAUGES)
  {
    assert name in COUNTERS ==> |name| in {25, 29, 31, 36, 37};
    assert name in GAUGES ==> |name| in {8, 13, 16, 17, 18, 19, 21, 24, 26, 27, 28};
  }

  lemma WritesName(st: State, o: Observation, now: int, i: nat)
    requires Keys(st.acl.counters) == SEEDED_KEYS && i < |Writes(st, o, now)| && Writes(st, o, now)[i].CounterSet?
    ensures Writes(st, o, now)[i].key.name in COUNTERS
  {
    var s, p, e := SnapshotWrites(st.bindings, o), PageWrites(st.acl, o), EndWrites(st.edge, o, now);
    WriteAt(s, p, e, i);
    SnapshotWritesChurn(st.bindings, o);
    if |s| <= i < |s| + |p| {
      PageCarriesLevel(st, o, i - |s|);
      SeededNames(SEEDED_KEYS[i - |s|]);
    } else if i >= |s| + |p| {
      EndWritesDefault(st.edge, o, now, i - |s| - |p|);
    }
  }

  lemma SeededNames(key: Series)
    requires key in SEEDED_KEYS
    ensures key.name in COUNTERS
  {
    SeededCases(key);
  }

  lemma {:induction false} LogNames(polls: seq<Observation>, times: seq<int>, i: nat)
    requires |polls| == |times| && i < |Log(polls, times)| && Log(polls, times)[i].CounterSet?
    ensures Log(polls, times)[i].key.name in COUNTERS
  {
    var n := |polls| - 1;
    var front := Log(polls[..n], times[..n]);
    if i < |front| {
      LogNames(polls[..n], times[..n], i);
    } else {
      AclInvariant(polls[..n]);
      WritesName(Run(polls[..n]), polls[n], times[n], i - |front|);
    }
  }

  /** In every reachable state a series is a counter or a gauge, never both. */
  lemma CounterIsNoGauge(polls: seq<Observation>, times: seq<int>, values: Dict, key: Series)
    requires |polls| == |times| && OnlyGauges(values)
    ensures !(Seen(Log(polls, times), key).Some? && key in Keys(values))
  {
    var log := Log(polls, times);
    SeenIsLastWrite(log, key);
    if Seen(log, key).Some? { LogNames(polls, times, LastIndex(log, key).value); }
    NamesDisjoint(key.name);
  }

  lemma {:induction false} CountersDistinct(log: seq<Write>)
    ensures DistinctKeys(After(log).counters)
  {
    if log != [] {
      var front, w := log[..|log| - 1], log[|log| - 1];
      CountersDistinct(front);
      if w.CounterSet? { PutDistinct(After(front).counters, w.key, w.value); }
    }
  }

  lemma {:induction false} StoredHasKey(d: Dict, key: Series, value: int)
    requires Get(d, key) == Some(value)
    ensures key in Keys(d)
  {
    if d[0].key != key {
      StoredHasKey(d[1..], key, value);
      assert Keys(d) == [d[0].key] + Keys(d[1..]);
    } else {
      assert Keys(d)[0] == key;
    }
  }

  /** Two blocks without a common key list every series of both dicts once. */
  lemma BlocksListEachOnce(counters: Dict, values: Dict)
    requires DistinctKeys(counters) && DistinctKeys(values)
    requires forall key :: !(Get(counters, key).Some? && key in Keys(values))
    ensures ListsEachOnce(Sort(ItemLess, counters) + Sort(ItemLess, values), counters, values)
  {
    var a, b := Sort(ItemLess, counters), Sort(ItemLess, values);
    BlockDistinct(counters);
    BlockDistinct(values);
    forall i, j | 0 <= i < |a| && 0 <= j < |b| ensures a[i].key != b[j].key {
      assert Item(a[i].key, a[i].value) in a && Item(b[j].key, b[j].value) in b;
      StoredHasKey(values, b[j].key, b[j].value);
    }
    JoinedDistinct(a, b);
    assert forall item :: item in a + b <==> item in a || item in b;
  }

  lemma BlockDistinct(d: Dict)
    requires DistinctKeys(d)
    ensures DistinctKeys(Sort(ItemLess, d))
    ensures forall key, value :: Item(key, value) in Sort(ItemLess, d) <==> Get(d, key) == Some(value)
  {
    BlockListsEachOnce(d);
    var block := Sort(ItemLess, d);
    forall i, j | 0 <= i < j < |block| ensures block[i].key != block[j].key {
      SeriesIrreflexive(block[i].key);
    }
  }

  lemma SeriesIrreflexive(s: Series)
    ensures !SeriesLess(s, s)
  {
    SeriesOrder();
  }

  lemma JoinedDistinct(a: Dict, b: Dict)
    requires DistinctKeys(a) && DistinctKeys(b)
    requires forall i, j | 0 <= i < |a| && 0 <= j < |b| :: a[i].key != b[j].key
    ensures DistinctKeys(a + b)
  {
  }

  /** No series stands at two places, and the items are those of the two dicts. */
  ghost predicate ListsEachOnce(block: Dict, counters: Dict, values: Dict)
  {
    && DistinctKeys(block)
    && (forall key, value ::
          Item(key, value) in block <==> Get(counters, key) == Some(value) || Get(values, key) == Some(value))
  }

  /** In every reachable state the page lists every stored series exactly once. */
  lemma PageListsEachOnce(polls: seq<Observation>, times: seq<int>, values: Dict)
    requires |polls| == |times| && OnlyGauges(values) && DistinctKeys(values)
    ensures var counters := After(Log(polls, times)).counters;
            ListsEachOnce(Sort(ItemLess, counters) + Sort(ItemLess, values), counters, values)
  {
    var log := Log(polls, times);
    CountersDistinct(log);
    forall key ensures !(Get(After(log).counters, key).Some? && key in Keys(values)) {
      CounterIsNoGauge(polls, times, values, key);
    }
    BlocksListEachOnce(After(log).counters, values);
  }

  // ---- the default-user series ----------------------------------------------------------------------

  /** A poll that ends without an exception, or with a protected-mode denial, leaves the
      series at the accumulated number of rises. */
  lemma DefaultCorrectAtEnd(log: seq<Write>, st: State, o: Observation, now: int)
    requires Sound(o) && Signal(o).Some?
    ensures Seen(log + Writes(st, o, now), DEFAULT_SERIES) == Some(Advance(st, o).edge.success)
  {
    var front := log + SnapshotWrites(st.bindings, o) + PageWrites(st.acl, o);
    EndShowsDefault(front, st.edge, o, now);
    JoinWrites(log, SnapshotWrites(st.bindings, o), PageWrites(st.acl, o), EndWrites(st.edge, o, now));
  }

  lemma JoinWrites(log: seq<Write>, s: seq<Write>, p: seq<Write>, e: seq<Write>)
    ensures log + (s + p + e) == log + s + p + e
  {
  }

  lemma SeenTwo(log: seq<Write>, a: Write, b: Write, key: Series)
    ensures Seen(log + [a, b], key) == if Sets(b, key) then Some(b.value) else Seen(log + [a], key)
  {
    assert log + [a, b] == log + [a] + [b];
    SeenAppend(log + [a], b, key);
  }

  lemma EndShowsDefault(log: seq<Write>, e: Bindings.Edge, o: Observation, now: int)
    requires Sound(o) && Signal(o).Some?
    ensures Seen(log + EndWrites(e, o, now), DEFAULT_SERIES) == Some(Bindings.OnSignal(e, Signal(o).value).success)
  {
    var d := PublishDefault(Bindings.OnSignal(e, Signal(o).value).success);
    if o.failure.None? {
      assert EndWrites(e, o, now) == [d, PollSucceeded(now)];
      SeenTwo(log, d, PollSucceeded(now), DEFAULT_SERIES);
      SeenAppend(log, d, DEFAULT_SERIES);
    } else {
      var f := PollFailed(o.failure.value.AuthError?);
      assert EndWrites(e, o, now) == [f, d];
      SeenTwo(log, f, d, DEFAULT_SERIES);
    }
  }

  lemma EleventhIsZero(st: State)
    requires Keys(st.acl.counters) == SEEDED_KEYS && GetOr0(st.acl.counters, DEFAULT_SUCCESS) == 0
    ensures |st.acl.counters| == 11 && PublishAll(st.acl.counters)[10] == CounterSet(DEFAULT_SERIES, 0)
  {
    var d := st.acl.counters;
    SeededKeysDistinct();
    assert |Keys(d)| == |d| == 11;
    assert SEEDED_KEYS[10] == DEFAULT_SUCCESS && Keys(d)[10] == d[10].key;
    PublishAllLevels(st, 10);
  }

  /** The eleventh write of an ACL publication puts the default-user series back to 0,
      whatever it showed before; without a later signal it stays there. */
  lemma PublicationZeroes(log: seq<Write>, st: State, o: Observation)
    requires Keys(st.acl.counters) == SEEDED_KEYS && GetOr0(st.acl.counters, DEFAULT_SUCCESS) == 0
    requires o.page.Some? && st.acl.booted
    ensures Seen(log + SnapshotWrites(st.bindings, o) + PageWrites(st.acl, o), DEFAULT_SERIES) == Some(0)
  {
    var st' := Advance(st, o);
    AclAccounting.Partitioned(st.acl, o.page.value);
    EleventhIsZero(st');
    EndsWithZero(log + SnapshotWrites(st.bindings, o), PageWrites(st.acl, o));
  }

  lemma EndsWithZero(log: seq<Write>, p: seq<Write>)
    requires |p| == 11 && p[10] == CounterSet(DEFAULT_SERIES, 0)
    ensures Seen(log + p, DEFAULT_SERIES) == Some(0)
  {
    assert log + p == log + p[..10] + [p[10]];
    SeenAppend(log + p[..10], p[10], DEFAULT_SERIES);
  }

  /** A scrape inside the poll sees the default-user series below its value before. */
  ghost predicate Dips(log: seq<Write>, ws: seq<Write>)
  {
    exists i | 0 <= i <= |ws| :: Lower(Seen(log + ws[..i], DEFAULT_SERIES), Seen(log, DEFAULT_SERIES))
  }

  predicate Lower(now: Option<int>, before: Option<int>)
  {
    now.Some? && before.Some? && now.value < before.value
  }

  lemma SnapshotLeavesDefault(log: seq<Write>, st: State, o: Observation, i: nat)
    requires i <= |SnapshotWrites(st.bindings, o)|
    ensures Seen(log + SnapshotWrites(st.bindings, o)[..i], DEFAULT_SERIES) == Seen(log, DEFAULT_SERIES)
  {
    var s := SnapshotWrites(st.bindings, o);
    if i == 0 {
      assert log + s[..0] == log;
    } else {
      assert s[..i] == [s[0]];
      SeriesApart();
      SeenAppend(log, s[0], DEFAULT_SERIES);
    }
  }

  /** As long as nothing lower than `bound` is written, the series shows its old value or
      at least `bound`. */
  lemma {:induction false} WritesAtLeast(log: seq<Write>, ws: seq<Write>, i: nat, bound: int)
    requires i <= |ws| && forall k | 0 <= k < i && Sets(ws[k], DEFAULT_SERIES) :: ws[k].value >= bound
    ensures var seen := Seen(log + ws[..i], DEFAULT_SERIES);
            seen == Seen(log, DEFAULT_SERIES) || (seen.Some? && seen.value >= bound)
  {
    if i == 0 {
      assert log + ws[..0] == log;
    } else {
      WritesAtLeast(log, ws, i - 1, bound);
      assert log + ws[..i] == log + ws[..i - 1] + [ws[i - 1]];
      SeenAppend(log + ws[..i - 1], ws[i - 1], DEFAULT_SERIES);
    }
  }

  lemma EndWritesGrow(e: Bindings.Edge, o: Observation, now: int, k: nat)
    requires k < |EndWrites(e, o, now)| && EndWrites(e, o, now)[k].CounterSet?
    ensures EndWrites(e, o, now)[k].value >= e.success
  {
  }

  lemma SeriesApart()
    ensures CHURN_SERIES != DEFAULT_SERIES
  {
    NameLengths();
  }

  lemma NoDipWithoutPublication(log: seq<Write>, st: State, o: Observation, now: int, i: nat)
    requires PageWrites(st.acl, o) == [] && i <= |Writes(st, o, now)|
    requires Seen(log, DEFAULT_SERIES).Some? ==> Seen(log, DEFAULT_SERIES).value <= st.edge.success
    ensures !Lower(Seen(log + Writes(st, o, now)[..i], DEFAULT_SERIES), Seen(log, DEFAULT_SERIES))
  {
    var s, p, e := SnapshotWrites(st.bindings, o), PageWrites(st.acl, o), EndWrites(st.edge, o, now);
    var ws := Writes(st, o, now);
    SeriesApart();
    SnapshotWritesChurn(st.bindings, o);
    forall k | 0 <= k < i && Sets(ws[k], DEFAULT_SERIES) ensures ws[k].value >= st.edge.success {
      WriteAt(s, p, e, k);
      EndWritesGrow(st.edge, o, now, k - |s|);
    }
    WritesAtLeast(log, ws, i, st.edge.success);
  }

  lemma DipOnPublication(log: seq<Write>, st: State, o: Observation, now: int)
    requires Keys(st.acl.counters) == SEEDED_KEYS && GetOr0(st.acl.counters, DEFAULT_SUCCESS) == 0
    requires o.page.Some? && st.acl.booted
    ensures var n := |SnapshotWrites(st.bindings, o) + PageWrites(st.acl, o)|;
            n <= |Writes(st, o, now)| && Seen(log + Writes(st, o, now)[..n], DEFAULT_SERIES) == Some(0)
  {
    var s, p := SnapshotWrites(st.bindings, o), PageWrites(st.acl, o);
    PublicationZeroes(log, st, o);
    assert log + Writes(st, o, now)[..|s + p|] == log + s + p;
  }

  /** A poll shows the default-user series dipping exactly when it publishes the ACL
      counters over a value that was not 0. */
  lemma DipsIff(log: seq<Write>, st: State, o: Observation, now: int)
    requires Keys(st.acl.counters) == SEEDED_KEYS && GetOr0(st.acl.counters, DEFAULT_SUCCESS) == 0
    requires Seen(log, DEFAULT_SERIES).Some? ==> 0 <= Seen(log, DEFAULT_SERIES).value <= st.edge.success
    ensures Dips(log, Writes(st, o, now)) <==>
              o.page.Some? && st.acl.booted && Seen(log, DEFAULT_SERIES).Some? && Seen(log, DEFAULT_SERIES).value > 0
  {
    var ws, before := Writes(st, o, now), Seen(log, DEFAULT_SERIES);
    if o.page.Some? && st.acl.booted {
      DipOnPublication(log, st, o, now);
      forall i | 0 <= i <= |ws|
        ensures before.Some? && before.value <= 0 ==> !Lower(Seen(log + ws[..i], DEFAULT_SERIES), before)
      {
        SeenNonNegative(log, st, o, now, i);
      }
    } else {
      forall i | 0 <= i <= |ws| ensures !Lower(Seen(log + ws[..i], DEFAULT_SERIES), before) {
        NoDipWithoutPublication(log, st, o, now, i);
      }
    }
  }

  lemma SeenNonNegative(log: seq<Write>, st: State, o: Observation, now: int, i: nat)
    requires Keys(st.acl.counters) == SEEDED_KEYS && GetOr0(st.acl.counters, DEFAULT_SUCCESS) == 0
    requires Seen(log, DEFAULT_SERIES).Some? ==> Seen(log, DEFAULT_SERIES).value >= 0
    requires i <= |Writes(st, o, now)|
    ensures var seen := Seen(log + Writes(st, o, now)[..i], DEFAULT_SERIES);
            seen.Some? ==> seen.value >= 0
  {
    var ws := Writes(st, o, now);
    forall k | 0 <= k < |ws| && Sets(ws[k], DEFAULT_SERIES) ensures ws[k].value >= 0 {
      DefaultWriteNonNegative(st, o, now, k);
    }
    WritesAtLeast(log, ws, i, 0);
  }

  lemma DefaultWriteNonNegative(st: State, o: Observation, now: int, i: nat)
    requires Keys(st.acl.counters) == SEEDED_KEYS && GetOr0(st.acl.counters, DEFAULT_SUCCESS) == 0
    requires i < |Writes(st, o, now)| && Sets(Writes(st, o, now)[i], DEFAULT_SERIES)
    ensures Writes(st, o, now)[i].value >= 0
  {
    var s, p, e := SnapshotWrites(st.bindings, o), PageWrites(st.acl, o), EndWrites(st.edge, o, now);
    WriteAt(s, p, e, i);
    SeriesApart();
    SnapshotWritesChurn(st.bindings, o);
    if |s| <= i < |s| + |p| {
      PageDefaultIsZero(st, o, i - |s|);
    } else {
      EndWritesGrow(st.edge, o, now, i - |s| - |p|);
    }
  }

  lemma PageDefaultIsZero(st: State, o: Observation, k: nat)
    requires Keys(st.acl.counters) == SEEDED_KEYS && GetOr0(st.acl.counters, DEFAULT_SUCCESS) == 0
    requires k < |PageWrites(st.acl, o)| && Sets(PageWrites(st.acl, o)[k], DEFAULT_SERIES)
    ensures PageWrites(st.acl, o)[k].value == 0
  {
    PageCarriesLevel(st, o, k);
    AclAccounting.Partitioned(st.acl, o.page.value);
    DefaultIsItsSource();
    NameLengths();
  }

  /** What the default-user series shows after a poll: the number of rises if the poll
      learnt about the default user; otherwise 0 if it got as far as publishing the ACL
      counters, and what it showed before if not. */
  lemma DefaultAtEnd(log: seq<Write>, st: State, o: Observation, now: int)
    requires Keys(st.acl.counters) == SEEDED_KEYS && GetOr0(st.acl.counters, DEFAULT_SUCCESS) == 0 && Sound(o)
    ensures Seen(log + Writes(st, o, now), DEFAULT_SERIES)
         == if Signal(o).Some? then Some(Advance(st, o).edge.success)
            else if o.page.Some? && st.acl.booted then Some(0)
            else Seen(log, DEFAULT_SERIES)
  {
    if Signal(o).Some? {
      DefaultCorrectAtEnd(log, st, o, now);
    } else {
      var s, p, failed := SnapshotWrites(st.bindings, o), PageWrites(st.acl, o), PollFailed(o.failure.value.AuthError?);
      assert log + Writes(st, o, now) == log + s + p + [failed];
      SeenAppend(log + s + p, failed, DEFAULT_SERIES);
      if o.page.Some? && st.acl.booted {
        PublicationZeroes(log, st, o);
      } else {
        assert log + s + p == log + s[..|s|];
        SnapshotLeavesDefault(log, st, o, |s|);
      }
    }
  }

  /** In every run the published default-user value is between 0 and the true count. */
  lemma {:induction false} DefaultBounded(polls: seq<Observation>, times: seq<int>)
    requires |polls| == |times| && AllSound(polls)
    ensures var seen := Seen(Log(polls, times), DEFAULT_SERIES);
            seen.Some? ==> 0 <= seen.value <= Run(polls).edge.success
  {
    if polls != [] {
      var n := |polls| - 1;
      var st, o, log, now := Run(polls[..n]), polls[n], Log(polls[..n], times[..n]), times[n];
      DefaultBounded(polls[..n], times[..n]);
      AclInvariant(polls[..n]);
      DefaultAtEnd(log, st, o, now);
    }
  }

  /** For any reachable state: the dip happens exactly on a published non-zero value. */
  lemma RunDipsIff(polls: seq<Observation>, times: seq<int>, o: Observation, now: int)
    requires |polls| == |times| && AllSound(polls)
    ensures var log := Log(polls, times);
            Dips(log, Writes(Run(polls), o, now)) <==>
              && o.page.Some? && Run(polls).acl.booted
              && Seen(log, DEFAULT_SERIES).Some? && Seen(log, DEFAULT_SERIES).value > 0
  {
    DefaultBounded(polls, times);
    AclInvariant(polls);
    DipsIff(Log(polls, times), Run(polls), o, now);
  }

  /** A scraper that samples before, inside and after a dip takes it for a restart and
      counts everything again: more than happened, by the value before the dip. */
  lemma DipOverCounts(polls: seq<Observation>, times: seq<int>, o: Observation, now: int)
    requires |polls| == |times| && AllSound(polls) && Sound(o) && o.failure.None?
    requires var seen := Seen(Log(polls, times), DEFAULT_SERIES);
             Run(polls).acl.booted && seen.Some? && seen.value > 0
    ensures var log, ws := Log(polls, times), Writes(Run(polls), o, now);
            var before, after := Seen(log, DEFAULT_SERIES).value, Advance(Run(polls), o).edge.success;
            && Seen(log + ws, DEFAULT_SERIES) == Some(after)
            && (exists i | 0 <= i <= |ws| :: Seen(log + ws[..i], DEFAULT_SERIES) == Some(0))
            && after >= before
            && Increase.IncreaseOf([before, 0, after]) - (after - before) == before
  {
    var st, log, ws := Run(polls), Log(polls, times), Writes(Run(polls), o, now);
    DefaultBounded(polls, times);
    AclInvariant(polls);
    DefaultCorrectAtEnd(log, st, o, now);
    DipOnPublication(log, st, o, now);
    DipCounted(Seen(log, DEFAULT_SERIES).value, Advance(st, o).edge.success);
  }

  lemma DipCounted(before: nat, after: nat)
    requires before > 0
    ensures Increase.IncreaseOf([before, 0, after]) == after
  {
    assert [before, 0, after][..2] == [before, 0];
    assert Increase.IncreaseOf([before, 0]) == 0;
  }

  // ---- when the ACL series appear -------------------------------------------------------------------

  lemma {:induction false} SeenConcat(log: seq<Write>, ws: seq<Write>, key: Series)
    ensures Seen(log + ws, key).Some? <==> Seen(log, key).Some? || exists i | 0 <= i < |ws| :: Sets(ws[i], key)
  {
    if ws == [] {
      assert log + ws == log;
    } else {
      var n := |ws| - 1;
      SeenConcat(log, ws[..n], key);
      assert log + ws == log + ws[..n] + [ws[n]];
      SeenAppend(log + ws[..n], ws[n], key);
      if exists i | 0 <= i < |ws| :: Sets(ws[i], key) {
        var i :| 0 <= i < |ws| && Sets(ws[i], key);
        assert i < n ==> Sets(ws[..n][i], key);
      }
      assert forall i | 0 <= i < n :: ws[..n][i] == ws[i];
    }
  }

  lemma PublishedApart(key: Series)
    requires key in SEEDED_KEYS && key != DEFAULT_SUCCESS
    ensures Published(key) != CHURN_SERIES && Published(key) != DEFAULT_SERIES
  {
    SeededShape(key);
  }

  lemma OnlyPagesPublish(st: State, o: Observation, now: int, key: Series, i: nat)
    requires key in SEEDED_KEYS && key != DEFAULT_SUCCESS
    requires i < |Writes(st, o, now)| && Sets(Writes(st, o, now)[i], Published(key))
    ensures PageWrites(st.acl, o) != []
  {
    var s, p, e := SnapshotWrites(st.bindings, o), PageWrites(st.acl, o), EndWrites(st.edge, o, now);
    WriteAt(s, p, e, i);
    PublishedApart(key);
    SnapshotWritesChurn(st.bindings, o);
    if i >= |s| + |p| { EndWritesDefault(st.edge, o, now, i - |s| - |p|); }
  }

  lemma DefaultIsItsSource()
    ensures DEFAULT_SERIES == DEFAULT_SUCCESS && Source(DEFAULT_SERIES) == DEFAULT_SUCCESS
  {
    assert Sort(LabelLess, []) == [];
  }

  lemma PublicationHas(d: Dict, key: Series, k: nat)
    requires Keys(d) == SEEDED_KEYS && k < |SEEDED_KEYS| && SEEDED_KEYS[k] == key
    ensures k < |PublishAll(d)| && Sets(PublishAll(d)[k], Published(key))
  {
    KeysLength(d);
    assert Keys(d)[k] == d[k].key;
  }

  lemma PagesPublish(st: State, o: Observation, now: int, key: Series) returns (i: nat)
    requires Keys(st.acl.counters) == SEEDED_KEYS && key in SEEDED_KEYS
    requires o.page.Some? && st.acl.booted
    ensures i < |Writes(st, o, now)| && Sets(Writes(st, o, now)[i], Published(key))
  {
    var s, p, e := SnapshotWrites(st.bindings, o), PageWrites(st.acl, o), EndWrites(st.edge, o, now);
    AclAccounting.Partitioned(st.acl, o.page.value);
    var k := PlaceOf(SEEDED_KEYS, key);
    PublicationHas(Advance(st, o).acl.counters, key, k);
    WriteAt(s, p, e, |s| + k);
    i := |s| + k;
  }

  /** A poll publishes a counter of the ACL log exactly when it takes a page that is not
      the first. */
  lemma PublishesIff(st: State, o: Observation, now: int, key: Series)
    requires Keys(st.acl.counters) == SEEDED_KEYS && key in SEEDED_KEYS && key != DEFAULT_SUCCESS
    ensures (exists i | 0 <= i < |Writes(st, o, now)| :: Sets(Writes(st, o, now)[i], Published(key)))
       <==> o.page.Some? && st.acl.booted
  {
    var ws := Writes(st, o, now);
    forall i | 0 <= i < |ws| && Sets(ws[i], Published(key)) ensures PageWrites(st.acl, o) != [] {
      OnlyPagesPublish(st, o, now, key, i);
    }
    if o.page.Some? && st.acl.booted {
      var i := PagesPublish(st, o, now, key);
    }
  }

  /** A restart leaves a gap after all: the pre-seeded series show up on the page only once
      a second page of the ACL log has been taken. */
  lemma {:induction false} AclSeriesAppearIff(polls: seq<Observation>, times: seq<int>, key: Series)
    requires |polls| == |times| && key in SEEDED_KEYS && key != DEFAULT_SUCCESS
    ensures Seen(Log(polls, times), Published(key)).Some? <==> |Pages(polls)| >= 2
    ensures Run(polls).acl.booted <==> |Pages(polls)| >= 1
  {
    if polls != [] {
      var n := |polls| - 1;
      AclSeriesAppearIff(polls[..n], times[..n], key);
      AclInvariant(polls[..n]);
      PublishesIff(Run(polls[..n]), polls[n], times[n], key);
      SeenConcat(Log(polls[..n], times[..n]), Writes(Run(polls[..n]), polls[n], times[n]), Published(key));
      if polls[n].page.Some? && Run(polls[..n]).acl.booted {
        AclAccounting.SeenIsAdopted(Run(polls[..n]).acl, polls[n].page.value);
      }
    }
  }

  // ---- drops of the default-user series --------------------------------------------------------------------

  /** A poll writes the series as 0 or as the number of rises it ends with. */
  lemma DefaultWriteIs(st: State, o: Observation, now: int, i: nat)
    requires Keys(st.acl.counters) == SEEDED_KEYS && GetOr0(st.acl.counters, DEFAULT_SUCCESS) == 0
    requires i < |Writes(st, o, now)| && Sets(Writes(st, o, now)[i], DEFAULT_SERIES)
    ensures Writes(st, o, now)[i].value == 0 || Writes(st, o, now)[i].value == Advance(st, o).edge.success
  {
    var s, p, e := SnapshotWrites(st.bindings, o), PageWrites(st.acl, o), EndWrites(st.edge, o, now);
    WriteAt(s, p, e, i);
    SeriesApart();
    SnapshotWritesChurn(st.bindings, o);
    if |s| <= i < |s| + |p| {
      PageDefaultIsZero(st, o, i - |s|);
    } else {
      EndWriteIs(st, o, now, i - |s| - |p|);
    }
  }

  lemma EndWriteIs(st: State, o: Observation, now: int, k: nat)
    requires k < |EndWrites(st.edge, o, now)| && EndWrites(st.edge, o, now)[k].CounterSet?
    ensures EndWrites(st.edge, o, now)[k].value == Advance(st, o).edge.success
  {
  }

  /** Every write of the series is 0 or at least every earlier one, and none is above `bound`. */
  ghost predicate ZeroOrRising(log: seq<Write>, bound: int)
  {
    && (forall i | 0 <= i < |log| && Sets(log[i], DEFAULT_SERIES) :: 0 <= log[i].value <= bound)
    && (forall i, j | 0 <= i <= j < |log| && Sets(log[i], DEFAULT_SERIES) && Sets(log[j], DEFAULT_SERIES) ::
          log[j].value == 0 || log[i].value <= log[j].value)
  }

  lemma ZeroOrRisingAppend(log: seq<Write>, ws: seq<Write>, bound: int, bound': int)
    requires ZeroOrRising(log, bound) && 0 <= bound <= bound'
    requires forall k | 0 <= k < |ws| && Sets(ws[k], DEFAULT_SERIES) :: ws[k].value == 0 || ws[k].value == bound'
    ensures ZeroOrRising(log + ws, bound')
  {
  }

  lemma {:induction false} RunZeroOrRising(polls: seq<Observation>, times: seq<int>)
    requires |polls| == |times|
    ensures ZeroOrRising(Log(polls, times), Run(polls).edge.success)
  {
    if polls != [] {
      var n := |polls| - 1;
      var st, o, now := Run(polls[..n]), polls[n], times[n];
      RunZeroOrRising(polls[..n], times[..n]);
      AclInvariant(polls[..n]);
      forall k | 0 <= k < |Writes(st, o, now)| && Sets(Writes(st, o, now)[k], DEFAULT_SERIES)
        ensures Writes(st, o, now)[k].value == 0 || Writes(st, o, now)[k].value == Advance(st, o).edge.success
      {
        DefaultWriteIs(st, o, now, k);
      }
      ZeroOrRisingAppend(Log(polls[..n], times[..n]), Writes(st, o, now), st.edge.success, Advance(st, o).edge.success);
    }
  }

  /** The write a scrape after `n` writes goes by. */
  lemma SeenWrite(log: seq<Write>, key: Series, n: nat) returns (x: nat)
    requires n <= |log| && Seen(log[..n], key).Some?
    ensures LastIndex(log[..n], key) == Some(x) && x < |log|
    ensures Sets(log[x], key) && Seen(log[..n], key) == Some(log[x].value)
  {
    SeenIsLastWrite(log[..n], key);
    x := LastIndex(log[..n], key).value;
    assert log[..n][x] == log[x];
  }

  lemma StillSeen(log: seq<Write>, key: Series, i: nat, j: nat)
    requires i <= j <= |log| && Seen(log[..i], key).Some?
    ensures Seen(log[..j], key).Some? && LastIndex(log[..i], key).Some? && LastIndex(log[..j], key).Some?
    ensures LastIndex(log[..i], key).value <= LastIndex(log[..j], key).value
  {
    SeenIsLastWrite(log[..i], key);
    SeenIsLastWrite(log[..j], key);
    assert log[..j][..i] == log[..i];
    LastIndexGrows(log[..j], key, i);
  }

  lemma ZeroOrRisingSeen(log: seq<Write>, bound: int, i: nat, j: nat)
    requires ZeroOrRising(log, bound) && i <= j <= |log| && Seen(log[..i], DEFAULT_SERIES).Some?
    ensures var before, now := Seen(log[..i], DEFAULT_SERIES), Seen(log[..j], DEFAULT_SERIES);
            now.Some? && 0 <= before.value && (now.value == 0 || before.value <= now.value)
  {
    StillSeen(log, DEFAULT_SERIES, i, j);
    var x := SeenWrite(log, DEFAULT_SERIES, i);
    var y := SeenWrite(log, DEFAULT_SERIES, j);
  }

  /** Of two scrapes of any run the later one shows the default-user series at 0 or not
      below the earlier one. */
  lemma DropsToZero(polls: seq<Observation>, times: seq<int>, i: nat, j: nat)
    requires |polls| == |times| && i <= j <= |Log(polls, times)|
    requires Seen(Log(polls, times)[..i], DEFAULT_SERIES).Some?
    ensures var log := Log(polls, times);
            var before, now := Seen(log[..i], DEFAULT_SERIES), Seen(log[..j], DEFAULT_SERIES);
            now.Some? && 0 <= before.value && (now.value == 0 || before.value <= now.value)
  {
    RunZeroOrRising(polls, times);
    ZeroOrRisingSeen(Log(polls, times), Run(polls).edge.success, i, j);
  }

  /** The values in front of the drops among some samples. */
  function BeforeDrops(samples: seq<int>): int
  {
    if |samples| < 2 then 0
    else
      var before, now := samples[|samples| - 2], samples[|samples| - 1];
      BeforeDrops(samples[..|samples| - 1]) + if now < before then before else 0
  }

  lemma {:induction false} IncreaseWithDrops(samples: seq<int>)
    requires samples != []
    ensures Increase.IncreaseOf(samples) == samples[|samples| - 1] - samples[0] + BeforeDrops(samples)
  {
    if |samples| > 1 { IncreaseWithDrops(samples[..|samples| - 1]); }
  }

  /** Over any scrapes of one process, mid-poll ones included: what a scraper counts on the
      default-user series is the growth between its first and last sample, plus the value in
      front of every dip it sampled, where it found a 0. */
  lemma SurplusOfDips(polls: seq<Observation>, times: seq<int>, schedule: seq<nat>)
    requires |polls| == |times|
    requires schedule != [] && forall i, j | 0 <= i <= j < |schedule| :: schedule[i] <= schedule[j]
    requires forall k | 0 <= k < |schedule| ::
               schedule[k] <= |Log(polls, times)| && Seen(Log(polls, times)[..schedule[k]], DEFAULT_SERIES).Some?
    ensures var samples := SamplesAt(Log(polls, times), DEFAULT_SERIES, schedule);
            && Increase.IncreaseOf(samples) == samples[|samples| - 1] - samples[0] + BeforeDrops(samples)
            && forall k | 0 < k < |samples| && samples[k] < samples[k - 1] :: samples[k] == 0
  {
    var samples := SamplesAt(Log(polls, times), DEFAULT_SERIES, schedule);
    IncreaseWithDrops(samples);
    forall k | 0 < k < |samples| ensures samples[k] == 0 || samples[k - 1] <= samples[k] {
      DropsToZero(polls, times, schedule[k - 1], schedule[k]);
    }
  }

  // ---- scraping one process -------------------------------------------------------------------------

  /** The samples of a series at the given points of the log. */
  ghost function SamplesAt(log: seq<Write>, key: Series, schedule: seq<nat>): seq<int>
    requires forall k | 0 <= k < |schedule| :: schedule[k] <= |log| && Seen(log[..schedule[k]], key).Some?
  {
    seq(|schedule|, k requires 0 <= k < |schedule| => Seen(log[..schedule[k]], key).value)
  }

  lemma {:induction false} RisingSamples(samples: seq<int>)
    requires samples != [] && forall i, j | 0 <= i <= j < |samples| :: samples[i] <= samples[j]
    ensures Increase.IncreaseOf(samples) == samples[|samples| - 1] - samples[0]
  {
    if |samples| > 1 { RisingSamples(samples[..|samples| - 1]); }
  }

  /** Whatever the points at which one process is scraped, mid-poll included: on every
      series but the default-user one a scraper counts exactly the growth between its
      first and its last sample. */
  lemma ScrapedExactly(polls: seq<Observation>, times: seq<int>, key: Series, schedule: seq<nat>)
    requires |polls| == |times| && HonestRun(polls) && key != DEFAULT_SERIES
    requires schedule != [] && forall i, j | 0 <= i <= j < |schedule| :: schedule[i] <= schedule[j]
    requires forall k | 0 <= k < |schedule| ::
               schedule[k] <= |Log(polls, times)| && Seen(Log(polls, times)[..schedule[k]], key).Some?
    ensures var samples := SamplesAt(Log(polls, times), key, schedule);
            Increase.IncreaseOf(samples) == samples[|samples| - 1] - samples[0]
  {
    var samples := SamplesAt(Log(polls, times), key, schedule);
    forall i, j | 0 <= i <= j < |samples| ensures samples[i] <= samples[j] {
      ScrapesMonotone(polls, times, schedule[i], schedule[j], key);
    }
    RisingSamples(samples);
  }
}
