/** How a scraper turns samples of a restarting counter back into events. */
module Increase {
  import opened Text

  datatype Event = Grow(n: nat) | Scrape | Restart

  /** The counter of the running process: it starts at 0 and only grows. */
  function Value(events: seq<Event>): nat
  {
    if events == [] then 0
    else match events[|events| - 1]
      case Grow(n) => Value(events[..|events| - 1]) + n
      case Scrape => Value(events[..|events| - 1])
      case Restart => 0
  }

  function Samples(events: seq<Event>): seq<nat>
  {
    if events == [] then []
    else
      var front := events[..|events| - 1];
      Samples(front) + if events[|events| - 1].Scrape? then [Value(front)] else []
  }

  /** Everything that was ever counted, in all processes. */
  function Truth(events: seq<Event>): nat
  {
    if events == [] then 0
    else Truth(events[..|events| - 1]) + if events[|events| - 1].Grow? then events[|events| - 1].n else 0
  }

  /** `increase()`: the sum of the rises; after a drop the whole new value. */
  function IncreaseOf(samples: seq<int>): int
  {
    if |samples| < 2 then 0
    else
      var before, now := samples[|samples| - 2], samples[|samples| - 1];
      IncreaseOf(samples[..|samples| - 1]) + if now >= before then now - before else now
  }

  /** Growth of the running process that no scrape has seen yet. */
  function Pending(events: seq<Event>): nat
  {
    if events == [] then 0
    else match events[|events| - 1]
      case Grow(n) => Pending(events[..|events| - 1]) + n
      case _ => 0
  }

  function LastSample(events: seq<Event>): Option<nat>
  {
    var samples := Samples(events);
    if samples == [] then None else Some(samples[|samples| - 1])
  }

  /** Whether the running process has been scraped. */
  predicate Scraped(events: seq<Event>)
  {
    events != [] && match events[|events| - 1]
                    case Grow(_) => Scraped(events[..|events| - 1])
                    case Scrape => true
                    case Restart => false
  }

  /** What is lost for good: growth before the very first sample, growth between the last
      sample of a process and its end, and a restart that the next sample does not show. */
  function Missed(events: seq<Event>): nat
  {
    if events == [] then 0
    else
      var front := events[..|events| - 1];
      Missed(front) + Loss(front, events[|events| - 1])
  }

  function Loss(front: seq<Event>, e: Event): nat
  {
    match e
    case Grow(_) => 0
    case Restart => Pending(front)
    case Scrape =>
      match LastSample(front)
      case None => Pending(front)
      case Some(last) => if Scraped(front) || Value(front) < last then 0 else last
  }

  lemma {:induction false} ValueParts(events: seq<Event>)
    ensures Scraped(events) ==>
              LastSample(events) != None && Value(events) == LastSample(events).value + Pending(events)
    ensures !Scraped(events) ==> Value(events) == Pending(events)
  {
    if events != [] { ValueParts(events[..|events| - 1]); }
  }

  /** Exact accounting over any scrape schedule and any number of restarts. */
  lemma {:induction false} Accounted(events: seq<Event>)
    ensures Truth(events) == IncreaseOf(Samples(events)) + Missed(events) + Pending(events)
  {
    if events != [] {
      var front, last := events[..|events| - 1], events[|events| - 1];
      Accounted(front);
      ValueParts(front);
      if last.Scrape? {
        assert Samples(events)[..|Samples(events)| - 1] == Samples(front);
      } else {
        assert Samples(events) == Samples(front);
      }
    }
  }

  /** Every process ends freshly scraped, every restart shows as a drop (or started from
      nothing), and nothing grew before the first sample. */
  predicate Clean(events: seq<Event>)
  {
    events == []
    || (var front, last := events[..|events| - 1], events[|events| - 1];
        && Clean(front)
        && (last.Restart? ==> Pending(front) == 0)
        && (last.Scrape? ==>
              match LastSample(front)
              case None => Pending(front) == 0
              case Some(sample) => Scraped(front) || Value(front) < sample || sample == 0))
  }

  lemma {:induction false} NothingMissedIff(events: seq<Event>)
    ensures Missed(events) == 0 <==> Clean(events)
  {
    if events != [] { NothingMissedIff(events[..|events| - 1]); }
  }

  /** The scraper never counts more than happened, and counts all that it could have seen
      exactly on the clean schedules. */
  lemma NeverOverCounts(events: seq<Event>)
    ensures IncreaseOf(Samples(events)) <= Truth(events)
    ensures IncreaseOf(Samples(events)) == Truth(events) - Pending(events) <==> Clean(events)
  {
    Accounted(events);
    NothingMissedIff(events);
  }
}
