/** What the ACL counters are worth: closed form, independence of the poll schedule,
    partition and overlay. */
module AclAccounting {
  import opened Sums
  import opened Registry
  import opened AclLog

  // ---- the closed form ------------------------------------------------------------------------------

  function Base(boot: map<int, int>, id: int): int
  {
    if id in boot then boot[id] else 0
  }

  /** The count last observed for `id`, 0 if none. */
  function LastSeen(boot: map<int, int>, entries: seq<Entry>, id: int): int
  {
    Base(Adopt(boot, entries), id)
  }

  /** It is indeed the last one. */
  lemma {:induction false} LastSeenIsLast(boot: map<int, int>, entries: seq<Entry>, id: int, i: nat)
    requires i < |entries| && entries[i].id == id
    requires forall j | i < j < |entries| :: entries[j].id != id
    ensures LastSeen(boot, entries, id) == entries[i].count
  {
    var n := |entries| - 1;
    if i < n { LastSeenIsLast(boot, entries[..n], id, i); }
  }

  /** The total by which the count of `id` went down between its observations. */
  function Fallen(boot: map<int, int>, entries: seq<Entry>, id: int): nat
  {
    if entries == [] then 0
    else
      var front, last := entries[..|entries| - 1], entries[|entries| - 1];
      var before := Adopt(boot, front);
      Fallen(boot, front, id)
      + if last.id == id && id in before && last.count < before[id] then before[id] - last.count else 0
  }

  /** The ids seen so far that are charged to `key`. */
  ghost function HitIds(boot: map<int, int>, entries: seq<Entry>, cls: int -> Class, key: Series): set<int>
  {
    set id | id in Adopt(boot, entries).Keys && Hits(cls(id), key)
  }

  ghost function Net(boot: map<int, int>, entries: seq<Entry>): int -> int
  {
    id => LastSeen(boot, entries, id) - Base(boot, id)
  }

  ghost function Falls(boot: map<int, int>, entries: seq<Entry>): int -> int
  {
    id => Fallen(boot, entries, id)
  }

  ghost function Gross(boot: map<int, int>, entries: seq<Entry>): int -> int
  {
    id => LastSeen(boot, entries, id) - Base(boot, id) + Fallen(boot, entries, id)
  }

  /** Every entry of one id is charged alike. */
  ghost predicate FixedClasses(entries: seq<Entry>, cls: int -> Class)
  {
    forall e | e in entries :: Classify(e.record) == cls(e.id)
  }

  lemma {:induction false} SeenIsAdopted(a: Acl, entries: seq<Entry>)
    ensures CountAll(a, entries).seen == Adopt(a.seen, entries)
    ensures CountAll(a, entries).booted == a.booted
  {
    if entries != [] { SeenIsAdopted(a, entries[..|entries| - 1]); }
  }

  lemma {:induction false} BootIsSeen(boot: map<int, int>, entries: seq<Entry>)
    ensures boot.Keys <= Adopt(boot, entries).Keys
  {
    if entries != [] { BootIsSeen(boot, entries[..|entries| - 1]); }
  }

  lemma {:induction false} UnseenNeverFell(boot: map<int, int>, entries: seq<Entry>, id: int)
    requires id !in Adopt(boot, entries)
    ensures Fallen(boot, entries, id) == 0
  {
    if entries != [] { UnseenNeverFell(boot, entries[..|entries| - 1], id); }
  }

  /** One entry moves the sum over ids by exactly what it adds to the counter. */
  lemma GrossStep(boot: map<int, int>, front: seq<Entry>, last: Entry, cls: int -> Class, key: Series)
    requires Classify(last.record) == cls(last.id)
    ensures var entries := front + [last];
            Sum(HitIds(boot, entries, cls, key), Gross(boot, entries))
            == Sum(HitIds(boot, front, cls, key), Gross(boot, front))
               + if Hits(cls(last.id), key) then Delta(Adopt(boot, front), last) else 0
  {
    var entries := front + [last];
    var f, g := Gross(boot, front), Gross(boot, entries);
    GrossOfOne(boot, front, last);
    HitIdsStep(boot, front, last, cls, key);
    SumStep(HitIds(boot, front, cls, key), f, g, last.id, Hits(cls(last.id), key));
  }

  lemma GrossOfOne(boot: map<int, int>, front: seq<Entry>, last: Entry)
    ensures var f, g := Gross(boot, front), Gross(boot, front + [last]);
            && g(last.id) == f(last.id) + Delta(Adopt(boot, front), last)
            && (last.id !in Adopt(boot, front) ==> f(last.id) == 0)
            && (forall id | id != last.id :: g(id) == f(id))
  {
    var entries := front + [last];
    assert entries[..|entries| - 1] == front;
    BootIsSeen(boot, front);
    if last.id !in Adopt(boot, front) {
      UnseenNeverFell(boot, front, last.id);
    }
  }

  lemma HitIdsStep(boot: map<int, int>, front: seq<Entry>, last: Entry, cls: int -> Class, key: Series)
    ensures HitIds(boot, front + [last], cls, key)
         == HitIds(boot, front, cls, key) + if Hits(cls(last.id), key) then {last.id} else {}
  {
    var entries := front + [last];
    assert entries[..|entries| - 1] == front;
  }

  /** Exact accounting, for any entries at all: a counter has grown by the sum, over the
      ids charged to it, of last count minus bootstrap count plus whatever the count lost
      on the way. Ids may leave the page and return. */
  lemma {:induction false} CountedExactly(a: Acl, entries: seq<Entry>, cls: int -> Class, key: Series)
    requires FixedClasses(entries, cls)
    ensures GetOr0(CountAll(a, entries).counters, key)
         == GetOr0(a.counters, key) + Sum(HitIds(a.seen, entries, cls, key), Gross(a.seen, entries))
  {
    if entries == [] {
      SumZeroIff(HitIds(a.seen, [], cls, key), Gross(a.seen, []));
    } else {
      var front, last := entries[..|entries| - 1], entries[|entries| - 1];
      assert entries == front + [last];
      CountedExactly(a, front, cls, key);
      SeenIsAdopted(a, front);
      GrossStep(a.seen, front, last, cls, key);
      SeededKeysDistinct();
      var delta := Delta(CountAll(a, front).seen, last);
      ChargeGet(CountAll(a, front).counters, Classify(last.record), delta, key);
    }
  }

  function Flatten(pages: seq<seq<Entry>>): seq<Entry>
  {
    if pages == [] then [] else Flatten(pages[..|pages| - 1]) + pages[|pages| - 1]
  }

  lemma {:induction false} CountAllSplit(a: Acl, x: seq<Entry>, y: seq<Entry>)
    ensures CountAll(a, x + y) == CountAll(CountAll(a, x), y)
  {
    if y == [] {
      assert x + y == x;
    } else {
      CountAllSplit(a, x, y[..|y| - 1]);
      assert (x + y)[..|x + y| - 1] == x + y[..|y| - 1];
    }
  }

  /** After the first page the division into pages does not matter. */
  lemma {:induction false} PagesFlatten(boot: seq<Entry>, later: seq<seq<Entry>>)
    ensures OnPages(START, [boot] + later)
         == CountAll(Acl(true, Adopt(map[], boot), START.counters), Flatten(later))
  {
    var pages := [boot] + later;
    var booted := Acl(true, Adopt(map[], boot), START.counters);
    if later == [] {
      assert pages[..0] == [] && OnPages(START, []) == START;
    } else {
      var front, last := later[..|later| - 1], later[|later| - 1];
      assert pages[..|pages| - 1] == [boot] + front;
      PagesFlatten(boot, front);
      SeenIsAdopted(booted, Flatten(front));
      CountAllSplit(booted, Flatten(front), last);
    }
  }

  lemma {:induction false} ZerosGet(keys: seq<Series>, key: Series)
    ensures GetOr0(Zeros(keys), key) == 0
  {
    if keys != [] {
      assert Zeros(keys)[1..] == Zeros(keys[1..]);
      ZerosGet(keys[1..], key);
    }
  }

  /** A counter is the net growth of the ids charged to it plus all they lost on the way,
      and just the net growth if and only if none of them ever fell. */
  ghost predicate ClosedForm(counter: int, boot: map<int, int>, entries: seq<Entry>, cls: int -> Class, key: Series)
  {
    var ids := HitIds(boot, entries, cls, key);
    && counter == Sum(ids, Net(boot, entries)) + Sum(ids, Falls(boot, entries))
    && (counter == Sum(ids, Net(boot, entries)) <==> forall id | id in ids :: Fallen(boot, entries, id) == 0)
  }

  /** Every counter has it after any pages. */
  lemma AclClosedForm(boot: seq<Entry>, later: seq<seq<Entry>>, cls: int -> Class, key: Series)
    requires FixedClasses(Flatten(later), cls)
    ensures ClosedForm(GetOr0(OnPages(START, [boot] + later).counters, key),
                       Adopt(map[], boot), Flatten(later), cls, key)
  {
    var seen0, entries := Adopt(map[], boot), Flatten(later);
    var ids := HitIds(seen0, entries, cls, key);
    PagesFlatten(boot, later);
    ZerosGet(SEEDED_KEYS, key);
    CountedExactly(Acl(true, seen0, START.counters), entries, cls, key);
    SumPlus(ids, Net(seen0, entries), Falls(seen0, entries), Gross(seen0, entries));
    SumZeroIff(ids, Falls(seen0, entries));
    assert forall id :: Falls(seen0, entries)(id) == Fallen(seen0, entries, id);
  }

  /** Counts that never go down from one observation to the next. */
  ghost predicate NonDecreasing(boot: map<int, int>, entries: seq<Entry>)
  {
    forall i | 0 <= i < |entries| ::
      var before := Adopt(boot, entries[..i]);
      entries[i].id in before ==> before[entries[i].id] <= entries[i].count
  }

  lemma {:induction false} NonDecreasingNeverFalls(boot: map<int, int>, entries: seq<Entry>, id: int)
    requires NonDecreasing(boot, entries)
    ensures Fallen(boot, entries, id) == 0
  {
    if entries != [] {
      var front := entries[..|entries| - 1];
      forall i | 0 <= i < |front| ensures front[..i] == entries[..i] && front[i] == entries[i] {}
      NonDecreasingNeverFalls(boot, front, id);
    }
  }

  lemma NetGrowth(boot: seq<Entry>, later: seq<seq<Entry>>, cls: int -> Class, key: Series)
    requires FixedClasses(Flatten(later), cls) && NonDecreasing(Adopt(map[], boot), Flatten(later))
    ensures GetOr0(OnPages(START, [boot] + later).counters, key)
         == Sum(HitIds(Adopt(map[], boot), Flatten(later), cls, key), Net(Adopt(map[], boot), Flatten(later)))
  {
    AclClosedForm(boot, later, cls, key);
    forall id ensures Fallen(Adopt(map[], boot), Flatten(later), id) == 0 {
      NonDecreasingNeverFalls(Adopt(map[], boot), Flatten(later), id);
    }
  }

  /** Growth since the exporter started, `before` being the counts the server held then. */
  ghost function Since(before: map<int, int>, boot: map<int, int>, entries: seq<Entry>): int -> int
  {
    id => LastSeen(boot, entries, id) - Base(before, id)
  }

  /** What the bootstrap page did not show of it. */
  ghost function Unlisted(before: map<int, int>, boot: map<int, int>): int -> int
  {
    id => Base(before, id) - Base(boot, id)
  }

  /** The bootstrap page reads 128 entries, the server may keep more. A counter holds what
      happened since the start, plus the old counts of the entries that page left out; so
      it holds just what happened exactly when every entry charged to it that occurred
      before was on the page. */
  lemma OldEntriesUncountedIff(before: map<int, int>, boot: seq<Entry>, later: seq<seq<Entry>>,
                               cls: int -> Class, key: Series)
    requires FixedClasses(Flatten(later), cls) && NonDecreasing(Adopt(map[], boot), Flatten(later))
    requires forall id | id in before :: before[id] >= 0
    requires forall id | id in Adopt(map[], boot) :: id in before && before[id] == Adopt(map[], boot)[id]
    ensures var seen0, entries := Adopt(map[], boot), Flatten(later);
            var ids := HitIds(seen0, entries, cls, key);
            var counter := GetOr0(OnPages(START, [boot] + later).counters, key);
            && counter == Sum(ids, Since(before, seen0, entries)) + Sum(ids, Unlisted(before, seen0))
            && (counter == Sum(ids, Since(before, seen0, entries))
                <==> forall id | id in ids :: id in seen0 || Base(before, id) == 0)
  {
    var seen0, entries := Adopt(map[], boot), Flatten(later);
    NetGrowth(boot, later, cls, key);
    NetSplits(HitIds(seen0, entries, cls, key), before, seen0, entries);
  }

  lemma NetSplits(ids: set<int>, before: map<int, int>, boot: map<int, int>, entries: seq<Entry>)
    requires forall id | id in before :: before[id] >= 0
    requires forall id | id in boot :: id in before && before[id] == boot[id]
    ensures Sum(ids, Net(boot, entries)) == Sum(ids, Since(before, boot, entries)) + Sum(ids, Unlisted(before, boot))
    ensures Sum(ids, Unlisted(before, boot)) == 0 <==> forall id | id in ids :: id in boot || Base(before, id) == 0
  {
    var since, unlisted, net := Since(before, boot, entries), Unlisted(before, boot), Net(boot, entries);
    forall id ensures net(id) == since(id) + unlisted(id) && unlisted(id) >= 0
                   && (unlisted(id) == 0 <==> id in boot || Base(before, id) == 0) {}
    SumPlus(ids, since, unlisted, net);
    SumZeroIff(ids, unlisted);
  }

  /** Two runs that adopted the same bootstrap counts and last saw the same count for
      every id hold identical counters, however the observations in between were spread
      over polls, ordered or repeated. */
  lemma ScheduleIndependent(boot: seq<Entry>, later: seq<seq<Entry>>, boot': seq<Entry>, later': seq<seq<Entry>>,
                            cls: int -> Class, key: Series)
    requires FixedClasses(Flatten(later), cls) && FixedClasses(Flatten(later'), cls)
    requires Adopt(map[], boot) == Adopt(map[], boot')
    requires NonDecreasing(Adopt(map[], boot), Flatten(later)) && NonDecreasing(Adopt(map[], boot'), Flatten(later'))
    requires Adopt(Adopt(map[], boot), Flatten(later)) == Adopt(Adopt(map[], boot'), Flatten(later'))
    ensures GetOr0(OnPages(START, [boot] + later).counters, key)
         == GetOr0(OnPages(START, [boot'] + later').counters, key)
  {
    var seen0, entries, entries' := Adopt(map[], boot), Flatten(later), Flatten(later');
    NetGrowth(boot, later, cls, key);
    NetGrowth(boot', later', cls, key);
    var ids := HitIds(seen0, entries, cls, key);
    assert ids == HitIds(seen0, entries', cls, key);
    SumSame(ids, Net(seen0, entries), Net(seen0, entries'));
  }

  // ---- partition and overlay ------------------------------------------------------------------------

  function SumKeys(keys: seq<Series>, d: Dict): int
  {
    if keys == [] then 0 else GetOr0(d, keys[0]) + SumKeys(keys[1..], d)
  }

  /** Everything counted so far, whoever it was charged to. */
  function Growth(seen: map<int, int>, entries: seq<Entry>): int
  {
    if entries == [] then 0
    else
      var front := entries[..|entries| - 1];
      Growth(seen, front) + Delta(Adopt(seen, front), entries[|entries| - 1])
  }

  /** The part of it that names `rtrv-emergency`. */
  function EmergencyGrowth(seen: map<int, int>, entries: seq<Entry>): int
  {
    if entries == [] then 0
    else
      var front, last := entries[..|entries| - 1], entries[|entries| - 1];
      EmergencyGrowth(seen, front) + if Classify(last.record).emergency then Delta(Adopt(seen, front), last) else 0
  }

  lemma {:induction false} ChargeSum(keys: seq<Series>, d: Dict, c: Class, delta: int)
    requires EMERGENCY_USE !in keys && c.key != EMERGENCY_USE
    requires forall i, j | 0 <= i < j < |keys| :: keys[i] != keys[j]
    ensures SumKeys(keys, Charge(d, c, delta)) == SumKeys(keys, d) + if c.key in keys then delta else 0
  {
    if keys != [] {
      ChargeGet(d, c, delta, keys[0]);
      ChargeSum(keys[1..], d, c, delta);
      assert keys == [keys[0]] + keys[1..];
      assert forall i | 0 <= i < |keys[1..]| :: keys[1..][i] == keys[i + 1] != keys[0];
    }
  }

  lemma BumpKeys(d: Dict, key: Series, delta: int)
    requires key in Keys(d)
    ensures Keys(Bump(d, key, delta)) == Keys(d)
  {
    PutKeys(d, key, GetOr0(d, key) + delta);
  }

  /** The key set never changes. */
  lemma ChargeKeys(d: Dict, c: Class, delta: int)
    requires c.key in Keys(d) && EMERGENCY_USE in Keys(d)
    ensures Keys(Charge(d, c, delta)) == Keys(d)
  {
    BumpKeys(d, c.key, delta);
    BumpKeys(Bump(d, c.key, delta), EMERGENCY_USE, delta);
  }

  lemma {:induction false} Partitioned(a: Acl, entries: seq<Entry>)
    requires Keys(a.counters) == SEEDED_KEYS
    ensures var d := CountAll(a, entries).counters;
            && Keys(d) == SEEDED_KEYS
            && SumKeys(PARTITION, d) == SumKeys(PARTITION, a.counters) + Growth(a.seen, entries)
            && GetOr0(d, EMERGENCY_USE) == GetOr0(a.counters, EMERGENCY_USE) + EmergencyGrowth(a.seen, entries)
            && GetOr0(d, DEFAULT_SUCCESS) == GetOr0(a.counters, DEFAULT_SUCCESS)
  {
    if entries != [] {
      var front, last := entries[..|entries| - 1], entries[|entries| - 1];
      Partitioned(a, front);
      SeenIsAdopted(a, front);
      SeededKeysDistinct();
      var d, c := CountAll(a, front).counters, Classify(last.record);
      var delta := Delta(CountAll(a, front).seen, last);
      PartitionDistinct();
      assert SEEDED_KEYS[|PARTITION|] == EMERGENCY_USE;
      ChargeSum(PARTITION, d, c, delta);
      ChargeKeys(d, c, delta);
      ChargeGet(d, c, delta, EMERGENCY_USE);
      ChargeGet(d, c, delta, DEFAULT_SUCCESS);
    }
  }

  lemma PartitionDistinct()
    ensures forall i, j | 0 <= i < j < |PARTITION| :: PARTITION[i] != PARTITION[j]
  {
    PartitionPlaces();
    forall i, j | 0 <= i < j < |PARTITION| ensures PARTITION[i] != PARTITION[j] {
      assert Place(PARTITION[i]) == i && Place(PARTITION[j]) == j;
    }
  }

  lemma {:induction false} ZeroSum(keys: seq<Series>, d: Dict)
    requires forall key :: GetOr0(d, key) == 0
    ensures SumKeys(keys, d) == 0
  {
    if keys != [] { ZeroSum(keys[1..], d); }
  }

  /** The keys are the seeded ones, nine of them partition the growth, the emergency counter
      is the growth naming `rtrv-emergency`, and the default-user one is still 0. */
  predicate PartitionsGrowth(d: Dict, seen0: map<int, int>, entries: seq<Entry>)
  {
    && Keys(d) == SEEDED_KEYS
    && SumKeys(PARTITION, d) == Growth(seen0, entries)
    && GetOr0(d, EMERGENCY_USE) == EmergencyGrowth(seen0, entries)
    && GetOr0(d, DEFAULT_SUCCESS) == 0
  }

  /** So it is in every reachable state. */
  lemma AclPartition(boot: seq<Entry>, later: seq<seq<Entry>>)
    ensures PartitionsGrowth(OnPages(START, [boot] + later).counters, Adopt(map[], boot), Flatten(later))
  {
    PagesFlatten(boot, later);
    forall key ensures GetOr0(START.counters, key) == 0 { ZerosGet(SEEDED_KEYS, key); }
    ZeroSum(PARTITION, START.counters);
    Partitioned(Acl(true, Adopt(map[], boot), START.counters), Flatten(later));
  }

  // ---- what each counter counts ----------------------------------------------------------------------------

  /** The growth of the entries that pass a test. */
  ghost function GrowthWhere(seen: map<int, int>, entries: seq<Entry>, test: Record -> bool): int
  {
    if entries == [] then 0
    else
      var front, last := entries[..|entries| - 1], entries[|entries| - 1];
      GrowthWhere(seen, front, test) + if test(last.record) then Delta(Adopt(seen, front), last) else 0
  }

  lemma {:induction false} CounterIsGrowth(a: Acl, entries: seq<Entry>, key: Series, test: Record -> bool)
    requires forall record :: test(record) <==> Hits(Classify(record), key)
    ensures GetOr0(CountAll(a, entries).counters, key)
         == GetOr0(a.counters, key) + GrowthWhere(a.seen, entries, test)
  {
    if entries != [] {
      var front, last := entries[..|entries| - 1], entries[|entries| - 1];
      CounterIsGrowth(a, front, key, test);
      SeenIsAdopted(a, front);
      SeededKeysDistinct();
      ChargeGet(CountAll(a, front).counters, Classify(last.record), Delta(CountAll(a, front).seen, last), key);
    }
  }

  lemma PagesCounterIsGrowth(boot: seq<Entry>, later: seq<seq<Entry>>, key: Series, test: Record -> bool)
    requires forall record :: test(record) <==> Hits(Classify(record), key)
    ensures GetOr0(OnPages(START, [boot] + later).counters, key)
         == GrowthWhere(Adopt(map[], boot), Flatten(later), test)
  {
    PagesFlatten(boot, later);
    ZerosGet(SEEDED_KEYS, key);
    CounterIsGrowth(Acl(true, Adopt(map[], boot), START.counters), Flatten(later), key, test);
  }

  ghost function Denials(role: string, destructive: bool): Record -> bool
  {
    record => IsDenial(record, role, destructive)
  }

  ghost function AuthFailures(): Record -> bool
  {
    record => Field(record, "reason", "command") == "auth"
  }

  ghost function EmergencyUses(): Record -> bool
  {
    record => Field(record, "username", "") == "rtrv-emergency"
  }

  /** Every counter by the fields of the entries: the series of a role and category holds the
      growth of exactly the denials of such commands to such users, authentication failures
      that of the entries with reason `auth`, emergency use that of `rtrv-emergency`. */
  lemma CountersByField(boot: seq<Entry>, later: seq<seq<Entry>>, role: string, destructive: bool)
    ensures var d, seen0, entries := OnPages(START, [boot] + later).counters, Adopt(map[], boot), Flatten(later);
            && GetOr0(d, Denied(role, Category(destructive))) == GrowthWhere(seen0, entries, Denials(role, destructive))
            && GetOr0(d, AUTH_FAILURES) == GrowthWhere(seen0, entries, AuthFailures())
            && GetOr0(d, EMERGENCY_USE) == GrowthWhere(seen0, entries, EmergencyUses())
  {
    SeededKeysDistinct();
    DeniedApart(role, Category(destructive), role, Category(destructive));
    forall record ensures Denials(role, destructive)(record)
                     <==> Hits(Classify(record), Denied(role, Category(destructive))) {
      ClassifiedAsDenialIff(record, role, destructive);
    }
    assert PARTITION[8] == AUTH_FAILURES;
    forall record ensures EmergencyUses()(record) <==> Hits(Classify(record), EMERGENCY_USE) {}
    PagesCounterIsGrowth(boot, later, Denied(role, Category(destructive)), Denials(role, destructive));
    PagesCounterIsGrowth(boot, later, AUTH_FAILURES, AuthFailures());
    PagesCounterIsGrowth(boot, later, EMERGENCY_USE, EmergencyUses());
  }

  /** Redis reports at least one occurrence for an entry it lists. */
  ghost predicate NewNonNegative(seen: map<int, int>, entries: seq<Entry>)
  {
    forall i | 0 <= i < |entries| :: entries[i].id !in Adopt(seen, entries[..i]) ==> entries[i].count >= 0
  }

  /** Where emergency use can come from. */
  const EMERGENCY_SOURCES: seq<Series> := DeniedBy("other") + [AUTH_FAILURES]

  lemma {:induction false} EmergencyBounded(a: Acl, entries: seq<Entry>)
    requires NewNonNegative(a.seen, entries)
    ensures var d := CountAll(a, entries).counters;
            GetOr0(d, EMERGENCY_USE) - GetOr0(a.counters, EMERGENCY_USE)
            <= SumKeys(EMERGENCY_SOURCES, d) - SumKeys(EMERGENCY_SOURCES, a.counters)
  {
    if entries != [] {
      var front, last := entries[..|entries| - 1], entries[|entries| - 1];
      forall i | 0 <= i < |front| ensures front[..i] == entries[..i] && front[i] == entries[i] {}
      EmergencyBounded(a, front);
      SeenIsAdopted(a, front);
      SeededKeysDistinct();
      var d, c := CountAll(a, front).counters, Classify(last.record);
      var delta := Delta(CountAll(a, front).seen, last);
      SourcesDistinct();
      ChargeSum(EMERGENCY_SOURCES, d, c, delta);
      ChargeGet(d, c, delta, EMERGENCY_USE);
    }
  }

  lemma SourcesDistinct()
    ensures forall i, j | 0 <= i < j < |EMERGENCY_SOURCES| :: EMERGENCY_SOURCES[i] != EMERGENCY_SOURCES[j]
    ensures EMERGENCY_USE !in EMERGENCY_SOURCES
  {
    assert EMERGENCY_SOURCES == [Denied("other", "destructive"), Denied("other", "other"), AUTH_FAILURES];
    assert Denied("other", "destructive").labels[1].value != Denied("other", "other").labels[1].value;
    assert |AUTH_FAILURES.labels| == 0 == |EMERGENCY_USE.labels| && |AUTH_FAILURES.name| != |EMERGENCY_USE.name|;
  }

  predicate EmergencyCovered(d: Dict)
  {
    GetOr0(d, EMERGENCY_USE)
    <= GetOr0(d, AUTH_FAILURES)
       + GetOr0(d, Denied("other", "destructive")) + GetOr0(d, Denied("other", "other"))
  }

  /** Emergency use never exceeds authentication failures plus denials of unnamed users. */
  lemma EmergencyOverlay(boot: seq<Entry>, later: seq<seq<Entry>>)
    requires NewNonNegative(Adopt(map[], boot), Flatten(later))
    ensures EmergencyCovered(OnPages(START, [boot] + later).counters)
  {
    PagesFlatten(boot, later);
    forall key ensures GetOr0(START.counters, key) == 0 { ZerosGet(SEEDED_KEYS, key); }
    ZeroSum(EMERGENCY_SOURCES, START.counters);
    EmergencyBounded(Acl(true, Adopt(map[], boot), START.counters), Flatten(later));
    var d := OnPages(START, [boot] + later).counters;
    assert EMERGENCY_SOURCES == [Denied("other", "destructive"), Denied("other", "other"), AUTH_FAILURES];
    assert EMERGENCY_SOURCES[1..][1..] == [AUTH_FAILURES];
    assert SumKeys([AUTH_FAILURES], d) == GetOr0(d, AUTH_FAILURES);
  }

  // ---- when counters only go up ---------------------------------------------------------------------

  /** One entry lowers no counter exactly unless it is new and its count negative: a new
      entry's count is taken as it is. */
  lemma NeverLoweredIff(a: Acl, e: Entry)
    ensures (forall key :: GetOr0(a.counters, key) <= GetOr0(Count1(a, e).counters, key))
       <==> (e.id in a.seen || e.count >= 0)
  {
    SeededKeysDistinct();
    var c, delta := Classify(e.record), Delta(a.seen, e);
    forall key ensures GetOr0(Count1(a, e).counters, key)
                    == GetOr0(a.counters, key) + if Hits(c, key) then delta else 0 {
      ChargeGet(a.counters, c, delta, key);
    }
    assert Hits(c, c.key);
  }

  lemma {:induction false} CountersOnlyGrow(a: Acl, entries: seq<Entry>, key: Series)
    requires NewNonNegative(a.seen, entries)
    ensures GetOr0(a.counters, key) <= GetOr0(CountAll(a, entries).counters, key)
  {
    if entries != [] {
      var front, last := entries[..|entries| - 1], entries[|entries| - 1];
      forall i | 0 <= i < |front| ensures front[..i] == entries[..i] && front[i] == entries[i] {}
      CountersOnlyGrow(a, front, key);
      SeenIsAdopted(a, front);
      NeverLoweredIff(CountAll(a, front), last);
    }
  }
}
