/** The exporter as it runs: its main loop, and a scraper that outlives its restarts. */
module Processes {
  import opened Registry
  import AclLog
  import AclAccounting
  import opened Poll
  import Exporter
  import opened Runs
  import opened Scrapes
  import Increase

  // ---- the main loop --------------------------------------------------------------------------------

  function Observations(connections: seq<Connection>, config: Config): seq<Observation>
  {
    seq(|connections|, i requires 0 <= i < |connections| => Observe(connections[i], config))
  }

  /** A process that polls once for each connection: its state and its history of writes
      are those of the run. */
  method Serve(config: Config, connections: seq<Connection>, times: seq<int>) returns (exporter: Exporter.Exporter)
    requires |connections| == |times|
    ensures exporter.Valid() && exporter.State() == Run(Observations(connections, config))
    ensures exporter.metrics.log == Log(Observations(connections, config), times)
  {
    var metrics := new Metrics();
    exporter := new Exporter.Exporter(metrics, config);
    ghost var polls := Observations(connections, config);
    var i := 0;
    while i < |connections|
      invariant 0 <= i <= |connections|
      invariant exporter.Valid() && exporter.config == config && fresh(exporter) && fresh(exporter.metrics)
      invariant exporter.State() == Run(polls[..i])
      invariant exporter.metrics.log == Log(polls[..i], times[..i])
    {
      exporter.PollOnce(connections[i], times[i]);
      RunOneMore(polls, times, i);
      i := i + 1;
    }
    assert polls[..i] == polls && times[..i] == times;
  }

  lemma RunOneMore(polls: seq<Observation>, times: seq<int>, i: nat)
    requires i < |polls| == |times|
    ensures Run(polls[..i + 1]) == Exporter.Advance(Run(polls[..i]), polls[i])
    ensures Log(polls[..i + 1], times[..i + 1])
         == Log(polls[..i], times[..i]) + Exporter.Writes(Run(polls[..i]), polls[i], times[i])
  {
    assert polls[..i + 1][..i] == polls[..i] && times[..i + 1][..i] == times[..i];
  }

  // ---- restarts -------------------------------------------------------------------------------------

  /** A process from start to end, and the points of its history at which it is scraped. */
  datatype Process = Process(polls: seq<Observation>, times: seq<int>, schedule: seq<nat>)

  ghost predicate ScrapedFor(p: Process, key: Series)
  {
    && |p.polls| == |p.times| && HonestRun(p.polls)
    && (forall i, j | 0 <= i <= j < |p.schedule| :: p.schedule[i] <= p.schedule[j])
    && (forall k | 0 <= k < |p.schedule| ::
          p.schedule[k] <= |Log(p.polls, p.times)| && Seen(Log(p.polls, p.times)[..p.schedule[k]], key).Some?)
  }

  ghost function SamplesOf(p: Process, key: Series): seq<int>
    requires ScrapedFor(p, key)
  {
    SamplesAt(Log(p.polls, p.times), key, p.schedule)
  }

  /** What the scraper gets, one process after the other. */
  ghost function AllSamples(ps: seq<Process>, key: Series): seq<int>
    requires forall i | 0 <= i < |ps| :: ScrapedFor(ps[i], key)
  {
    if ps == [] then [] else AllSamples(ps[..|ps| - 1], key) + SamplesOf(ps[|ps| - 1], key)
  }

  /** What the processes counted, each from 0. */
  function AllGrowth(ps: seq<Process>, key: Series): int
  {
    if ps == [] then 0 else AllGrowth(ps[..|ps| - 1], key) + Level(Run(ps[|ps| - 1].polls), key)
  }

  lemma {:induction false} LevelNonNegative(polls: seq<Observation>, key: Series)
    requires HonestRun(polls)
    ensures Level(Run(polls), key) >= 0
  {
    if polls == [] {
      AclAccounting.ZerosGet(AclLog.SEEDED_KEYS, Source(key));
    } else {
      var n := |polls| - 1;
      HonestFront(polls);
      LevelNonNegative(polls[..n], key);
      assert Honest(Run(polls[..n]), polls[n]);
      LevelsGrow(Run(polls[..n]), polls[n], key);
    }
  }

  lemma HonestFront(polls: seq<Observation>)
    requires polls != [] && HonestRun(polls)
    ensures HonestRun(polls[..|polls| - 1])
  {
    var n := |polls| - 1;
    forall i | 0 <= i < n ensures polls[..n][..i] == polls[..i] && polls[..n][i] == polls[i] {}
  }

  /** Nothing negative is ever published, the default-user series aside. */
  lemma {:induction false} WritesNonNegative(polls: seq<Observation>, times: seq<int>, i: nat)
    requires |polls| == |times| && HonestRun(polls) && i < |Log(polls, times)|
    requires Log(polls, times)[i].CounterSet? && Log(polls, times)[i].key != DEFAULT_SERIES
    ensures Log(polls, times)[i].value >= 0
  {
    var n := |polls| - 1;
    var front := Log(polls[..n], times[..n]);
    HonestFront(polls);
    if i < |front| {
      WritesNonNegative(polls[..n], times[..n], i);
    } else {
      AclInvariant(polls[..n]);
      WritesCarryLevels(Run(polls[..n]), polls[n], times[n], i - |front|);
      LevelNonNegative(polls, Log(polls, times)[i].key);
    }
  }

  /** Every sample lies between 0 and the level the process ends with. */
  lemma SampleBounded(p: Process, key: Series, k: nat)
    requires ScrapedFor(p, key) && key != DEFAULT_SERIES && k < |p.schedule|
    ensures 0 <= SamplesOf(p, key)[k] <= Level(Run(p.polls), key)
  {
    var log, n := Log(p.polls, p.times), p.schedule[k];
    RunRising(p.polls, p.times);
    SeenIsLastWrite(log[..n], key);
    var i := LastIndex(log[..n], key).value;
    assert log[..n][i] == log[i];
    WritesNonNegative(p.polls, p.times, i);
  }

  lemma SamplesRise(p: Process, key: Series)
    requires ScrapedFor(p, key) && key != DEFAULT_SERIES
    ensures var s := SamplesOf(p, key); forall i, j | 0 <= i <= j < |s| :: s[i] <= s[j]
  {
    var s := SamplesOf(p, key);
    forall i, j | 0 <= i <= j < |s| ensures s[i] <= s[j] {
      ScrapesMonotone(p.polls, p.times, p.schedule[i], p.schedule[j], key);
    }
  }

  /** What the scraper loses at the first sample of a block: all of it if there was none
      before, and the last value before it if the restart does not show. */
  function Hidden(before: seq<int>, block: seq<int>): int
  {
    if block == [] then 0
    else if before == [] then block[0]
    else if block[0] >= before[|before| - 1] then before[|before| - 1]
    else 0
  }

  function LastOr0(samples: seq<int>): int
  {
    if samples == [] then 0 else samples[|samples| - 1]
  }

  /** A block of rising samples adds its last one but for what is hidden. */
  lemma {:induction false} BlockIncrease(before: seq<int>, block: seq<int>)
    requires forall i, j | 0 <= i <= j < |block| :: block[i] <= block[j]
    ensures Increase.IncreaseOf(before + block) + Hidden(before, block)
         == Increase.IncreaseOf(before) + LastOr0(block)
    decreases |block|
  {
    if block == [] {
      assert before + block == before;
    } else {
      var n := |block| - 1;
      BlockIncrease(before, block[..n]);
      OneMoreSample(before + block[..n], block[n]);
      assert before + block == before + block[..n] + [block[n]];
      if n > 0 {
        SameStart(before, block, n);
      } else {
        assert before + block[..0] == before;
      }
    }
  }

  lemma SameStart(before: seq<int>, block: seq<int>, n: nat)
    requires 0 < n <= |block|
    ensures Hidden(before, block[..n]) == Hidden(before, block)
    ensures LastOr0(before + block[..n]) == LastOr0(block[..n]) == block[n - 1] && before + block[..n] != []
  {
  }

  lemma OneMoreSample(samples: seq<int>, v: int)
    ensures Increase.IncreaseOf(samples + [v])
         == Increase.IncreaseOf(samples)
            + if samples == [] then 0
              else if v >= samples[|samples| - 1] then v - samples[|samples| - 1]
              else v
  {
    assert (samples + [v])[..|samples|] == samples;
  }

  lemma {:induction false} SamplesNonNegative(ps: seq<Process>, key: Series)
    requires key != DEFAULT_SERIES && forall i | 0 <= i < |ps| :: ScrapedFor(ps[i], key)
    ensures forall i | 0 <= i < |AllSamples(ps, key)| :: AllSamples(ps, key)[i] >= 0
  {
    if ps != [] {
      var n := |ps| - 1;
      SamplesNonNegative(ps[..n], key);
      forall k | 0 <= k < |ps[n].schedule| ensures SamplesOf(ps[n], key)[k] >= 0 {
        SampleBounded(ps[n], key, k);
      }
    }
  }

  /** Growth a process ended with that no scrape of it saw. */
  ghost function Unseen(p: Process, key: Series): int
    requires ScrapedFor(p, key)
  {
    Level(Run(p.polls), key) - LastOr0(SamplesOf(p, key))
  }

  /** All that the scraper missed: at the ends of the processes, and at their first samples. */
  ghost function AllMissed(ps: seq<Process>, key: Series): int
    requires forall i | 0 <= i < |ps| :: ScrapedFor(ps[i], key)
  {
    if ps == [] then 0
    else
      var front, p := ps[..|ps| - 1], ps[|ps| - 1];
      AllMissed(front, key) + Unseen(p, key) + Hidden(AllSamples(front, key), SamplesOf(p, key))
  }

  lemma PartsNonNegative(front: seq<Process>, p: Process, key: Series)
    requires key != DEFAULT_SERIES && (forall i | 0 <= i < |front| :: ScrapedFor(front[i], key)) && ScrapedFor(p, key)
    ensures Unseen(p, key) >= 0 && Hidden(AllSamples(front, key), SamplesOf(p, key)) >= 0
  {
    SamplesNonNegative(front, key);
    UnseenNonNegative(p, key);
    var before, block := AllSamples(front, key), SamplesOf(p, key);
    if block != [] { SampleBounded(p, key, 0); }
    HiddenNonNegative(before, block);
  }

  lemma UnseenNonNegative(p: Process, key: Series)
    requires key != DEFAULT_SERIES && ScrapedFor(p, key)
    ensures Unseen(p, key) >= 0
  {
    LevelNonNegative(p.polls, key);
    if p.schedule != [] { SampleBounded(p, key, |p.schedule| - 1); }
  }

  lemma HiddenNonNegative(before: seq<int>, block: seq<int>)
    requires forall i | 0 <= i < |before| :: before[i] >= 0
    requires block != [] ==> block[0] >= 0
    ensures Hidden(before, block) >= 0
  {
  }

  /** Exact accounting over any number of restarts and any scrapes in between, mid-poll ones
      included, on every series but the default-user one: counted and missed are what
      happened, and missed is never negative. */
  lemma {:induction false} RestartsAccounted(ps: seq<Process>, key: Series)
    requires key != DEFAULT_SERIES && forall i | 0 <= i < |ps| :: ScrapedFor(ps[i], key)
    ensures Increase.IncreaseOf(AllSamples(ps, key)) + AllMissed(ps, key) == AllGrowth(ps, key)
    ensures AllMissed(ps, key) >= 0
  {
    if ps != [] {
      var front, p := ps[..|ps| - 1], ps[|ps| - 1];
      RestartsAccounted(front, key);
      PartsNonNegative(front, p, key);
      SamplesRise(p, key);
      BlockIncrease(AllSamples(front, key), SamplesOf(p, key));
    }
  }

  /** Nothing is missed of any process. */
  ghost predicate AllVisible(ps: seq<Process>, key: Series)
    requires forall i | 0 <= i < |ps| :: ScrapedFor(ps[i], key)
  {
    ps == []
    || (var front, p := ps[..|ps| - 1], ps[|ps| - 1];
        && AllVisible(front, key) && Level(Run(p.polls), key) == LastOr0(SamplesOf(p, key))
        && Hidden(AllSamples(front, key), SamplesOf(p, key)) == 0)
  }

  lemma {:induction false} NothingMissedIff(ps: seq<Process>, key: Series)
    requires key != DEFAULT_SERIES && forall i | 0 <= i < |ps| :: ScrapedFor(ps[i], key)
    ensures AllMissed(ps, key) >= 0 && (AllMissed(ps, key) == 0 <==> AllVisible(ps, key))
  {
    if ps != [] {
      NothingMissedIff(ps[..|ps| - 1], key);
      PartsNonNegative(ps[..|ps| - 1], ps[|ps| - 1], key);
    }
  }

  /** So a scraper never counts more than happened, and counts all of it exactly when every
      process was scraped at its end and shows its start as a drop, or started from 0. */
  lemma RestartsNeverOverCount(ps: seq<Process>, key: Series)
    requires key != DEFAULT_SERIES && forall i | 0 <= i < |ps| :: ScrapedFor(ps[i], key)
    ensures Increase.IncreaseOf(AllSamples(ps, key)) <= AllGrowth(ps, key)
    ensures Increase.IncreaseOf(AllSamples(ps, key)) == AllGrowth(ps, key) <==> AllVisible(ps, key)
  {
    RestartsAccounted(ps, key);
    NothingMissedIff(ps, key);
  }
}
