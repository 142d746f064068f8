/** `Metrics`: the registry that the poll writes and another thread renders. */
module Registry {
  import opened Text
  import opened Ordering

  datatype Label = Label(name: string, value: string)

  datatype Series = Series(name: string, labels: seq<Label>)

  datatype Item = Item(key: Series, value: int)

  /** A Python dict from series to numbers, as the list of its items in insertion order. */
  type Dict = seq<Item>

  function Get(d: Dict, key: Series): (r: Option<int>)
  {
    if d == [] then None
    else if d[0].key == key then Some(d[0].value)
    else Get(d[1..], key)
  }

  /** Storing under a known key keeps its place; a new key goes to the end. */
  function Put(d: Dict, key: Series, value: int): (r: Dict)
  {
    if d == [] then [Item(key, value)]
    else if d[0].key == key then [Item(key, value)] + d[1..]
    else [d[0]] + Put(d[1..], key, value)
  }

  function Keys(d: Dict): seq<Series>
  {
    seq(|d|, i requires 0 <= i < |d| => d[i].key)
  }

  ghost predicate DistinctKeys(d: Dict)
  {
    forall i, j | 0 <= i < j < |d| :: d[i].key != d[j].key
  }

  lemma {:induction false} GetPut(d: Dict, key: Series, value: int, other: Series)
    ensures Get(Put(d, key, value), other) == if other == key then Some(value) else Get(d, other)
  {
    if d != [] && d[0].key != key {
      GetPut(d[1..], key, value, other);
    }
  }

  lemma {:induction false} PutKeys(d: Dict, key: Series, value: int)
    ensures Keys(Put(d, key, value)) == if key in Keys(d) then Keys(d) else Keys(d) + [key]
  {
    if d != [] {
      var tail := d[1..];
      assert Keys(d) == [d[0].key] + Keys(tail);
      if d[0].key == key {
        assert Keys(Put(d, key, value)) == [key] + Keys(tail);
      } else {
        PutKeys(tail, key, value);
        assert Keys(Put(d, key, value)) == [d[0].key] + Keys(Put(tail, key, value));
      }
    }
  }

  lemma PutDistinct(d: Dict, key: Series, value: int)
    requires DistinctKeys(d)
    ensures DistinctKeys(Put(d, key, value))
  {
    PutKeys(d, key, value);
    var r := Put(d, key, value);
    forall i, j | 0 <= i < j < |r| ensures r[i].key != r[j].key {
      assert r[i].key == Keys(r)[i] && r[j].key == Keys(r)[j] && |Keys(r)| == |r|;
      assert Keys(d)[i] == d[i].key && d[i].key in Keys(d);
      assert j < |d| ==> Keys(d)[j] == d[j].key;
    }
  }

  lemma {:induction false} GetItem(d: Dict, key: Series, value: int)
    requires DistinctKeys(d)
    ensures Get(d, key) == Some(value) <==> Item(key, value) in d
  {
    if d != [] {
      GetItem(d[1..], key, value);
      assert d == [d[0]] + d[1..];
    }
  }

  // ---- keyword labels -------------------------------------------------------------------------------

  predicate LabelLess(a: Label, b: Label)
  {
    StringLess(a.name, b.name) || (a.name == b.name && StringLess(a.value, b.value))
  }

  predicate SeriesLess(a: Series, b: Series)
  {
    StringLess(a.name, b.name) || (a.name == b.name && LexLess(LabelLess, a.labels, b.labels))
  }

  predicate ItemLess(a: Item, b: Item)
  {
    SeriesLess(a.key, b.key) || (a.key == b.key && a.value < b.value)
  }

  lemma LabelOrder()
    ensures StrictTotal(LabelLess)
  {
    StringOrder();
  }

  lemma SeriesOrder()
    ensures StrictTotal(SeriesLess)
  {
    StringOrder();
    LabelOrder();
    forall a: Series ensures !SeriesLess(a, a) { LexIrreflexive(LabelLess, a.labels); }
    forall a: Series, b: Series, c: Series | SeriesLess(a, b) && SeriesLess(b, c) ensures SeriesLess(a, c) {
      if a.name == b.name == c.name { LexTransitive(LabelLess, a.labels, b.labels, c.labels); }
    }
    forall a: Series, b: Series ensures SeriesLess(a, b) || a == b || SeriesLess(b, a) {
      LexTotal(LabelLess, a.labels, b.labels);
    }
  }

  lemma ItemOrder()
    ensures StrictTotal(ItemLess)
  {
    SeriesOrder();
  }

  /** Names first, then labels from left to right, each by its name and then its value. */
  lemma OrderIs(a: Series, b: Series, x: Label, y: Label, rest: seq<Label>, rest': seq<Label>)
    ensures a.name != b.name ==> (SeriesLess(a, b) <==> StringLess(a.name, b.name))
    ensures a.name == b.name && a.labels == [x] + rest && b.labels == [y] + rest' && x != y ==>
              (SeriesLess(a, b) <==>
               if x.name != y.name then StringLess(x.name, y.name) else StringLess(x.value, y.value))
  {
    LexIrreflexive(CharLess, a.name);
    LexIrreflexive(CharLess, x.name);
  }

  /** The key `set` and `set_counter` store under: `(name, tuple(sorted(labels.items())))`. */
  function SeriesOf(name: string, labels: seq<Label>): Series
  {
    Series(name, Sort(LabelLess, labels))
  }

  /** Keyword order does not matter. */
  lemma LabelOrderIrrelevant(name: string, a: seq<Label>, b: seq<Label>)
    requires multiset(a) == multiset(b)
    ensures SeriesOf(name, a) == SeriesOf(name, b)
  {
    LabelOrder();
    SortCanonical(LabelLess, a, b);
  }

  // ---- the exposition page --------------------------------------------------------------------------

  /** Everything a scrape can see. */
  datatype View = View(up: nat, lastSuccess: int, authFailures: nat, scrapeErrors: nat,
                       counters: Dict, values: Dict)

  function LabelText(labels: seq<Label>): string
  {
    if labels == [] then "" else "{" + LabelList(labels) + "}"
  }

  function LabelList(labels: seq<Label>): string
  {
    if labels == [] then ""
    else labels[0].name + "=\"" + labels[0].value + "\""
         + (if |labels| == 1 then "" else "," + LabelList(labels[1..]))
  }

  /** Counters are floats and print as such; gauges go through `_format`. */
  function CounterLine(item: Item): string
  {
    item.key.name + LabelText(item.key.labels) + " " + Decimal(item.value) + ".0"
  }

  function GaugeLine(item: Item): string
  {
    item.key.name + LabelText(item.key.labels) + " " + Decimal(item.value)
  }

  function OwnName(suffix: string): string
  {
    "redis_monitor_exporter_" + suffix
  }

  /** The three lines of one of the exporter's own series. */
  function OwnSeries(name: string, help: string, kind: string, value: int): (r: seq<string>)
    ensures |r| == 3
  {
    ["# HELP " + name + " " + help, "# TYPE " + name + " " + kind, name + " " + Decimal(value)]
  }

  function Preamble(v: View): (r: seq<string>)
    ensures |r| == 12
  {
    OwnSeries(OwnName("up"), "1 when the last poll succeeded", "gauge", v.up)
    + OwnSeries(OwnName("last_success_timestamp_seconds"),
                "Unix time of the last successful poll", "gauge", v.lastSuccess)
    + OwnSeries(OwnName("auth_failures_total"),
                "Exporter-side Redis authentication failures", "counter", v.authFailures)
    + OwnSeries(OwnName("scrape_errors_total"), "Exporter-side poll errors", "counter", v.scrapeErrors)
  }

  function Lines(items: Dict, line: Item -> string): (r: seq<string>)
    ensures |r| == |items| && forall i | 0 <= i < |items| :: r[i] == line(items[i])
  {
    seq(|items|, i requires 0 <= i < |items| => line(items[i]))
  }

  /** `"\n".join(lines) + "\n"`. */
  function JoinLines(lines: seq<string>): string
  {
    if lines == [] then "" else lines[0] + "\n" + JoinLines(lines[1..])
  }

  function PageLines(v: View): seq<string>
  {
    Preamble(v) + BodyLines(v)
  }

  /** Counters, then gauges, each sorted. */
  function BodyLines(v: View): seq<string>
  {
    Lines(Sort(ItemLess, v.counters), CounterLine) + Lines(Sort(ItemLess, v.values), GaugeLine)
  }

  ghost predicate SameContents(a: Dict, b: Dict)
  {
    forall key :: Get(a, key) == Get(b, key)
  }

  lemma {:induction false} CountInDict(d: Dict, item: Item)
    requires DistinctKeys(d)
    ensures multiset(d)[item] == if item in d then 1 else 0
  {
    if d != [] {
      CountInDict(d[1..], item);
      assert d == [d[0]] + d[1..];
    }
  }

  lemma SameMultiset(a: Dict, b: Dict)
    requires DistinctKeys(a) && DistinctKeys(b) && SameContents(a, b)
    ensures multiset(a) == multiset(b)
  {
    forall item: Item ensures multiset(a)[item] == multiset(b)[item] {
      GetItem(a, item.key, item.value);
      GetItem(b, item.key, item.value);
      CountInDict(a, item);
      CountInDict(b, item);
    }
  }

  /** The page depends only on what is stored, not on the order it was stored in. */
  lemma PageCanonical(v: View, w: View)
    requires DistinctKeys(v.counters) && DistinctKeys(w.counters) && SameContents(v.counters, w.counters)
    requires DistinctKeys(v.values) && DistinctKeys(w.values) && SameContents(v.values, w.values)
    requires v.(counters := w.counters, values := w.values) == w
    ensures PageLines(v) == PageLines(w)
  {
    ItemOrder();
    SameMultiset(v.counters, w.counters);
    SameMultiset(v.values, w.values);
    SortCanonical(ItemLess, v.counters, w.counters);
    SortCanonical(ItemLess, v.values, w.values);
  }

  /** A block of the page is the stored series in strictly ascending order: each of them,
      with its value, at exactly one place, and nothing else. */
  lemma BlockListsEachOnce(d: Dict)
    requires DistinctKeys(d)
    ensures var block := Sort(ItemLess, d);
            && (forall i, j | 0 <= i < j < |block| :: SeriesLess(block[i].key, block[j].key))
            && (forall key, value :: Item(key, value) in block <==> Get(d, key) == Some(value))
  {
    ItemOrder();
    SeriesOrder();
    SortOrdered(ItemLess, d);
    var block := Sort(ItemLess, d);
    forall key, value ensures Item(key, value) in block <==> Get(d, key) == Some(value) {
      GetItem(d, key, value);
      assert Item(key, value) in block <==> Item(key, value) in multiset(block);
    }
    forall i, j | 0 <= i < j < |block| ensures SeriesLess(block[i].key, block[j].key) {
      var x, y := block[i], block[j];
      assert !ItemLess(y, x) && x in multiset(d) && y in multiset(d);
      TwoPlaces(block, i, j);
      CountInDict(d, x);
      GetItem(d, x.key, x.value);
      GetItem(d, y.key, y.value);
    }
  }

  lemma TwoPlaces(s: Dict, i: nat, j: nat)
    requires i < j < |s|
    ensures s[i] == s[j] ==> multiset(s)[s[i]] >= 2
  {
    assert s == s[..i] + [s[i]] + s[i + 1..j] + [s[j]] + s[j + 1..];
  }

  // ---- the history of writes ------------------------------------------------------------------------

  /** One change of the part of the registry that holds counters. Between any two of
      these another thread may scrape. */
  datatype Write =
    | CounterSet(key: Series, value: int)
    | PollSucceeded(time: int)
    | PollFailed(auth: bool)

  function Apply1(v: View, w: Write): View
  {
    match w
    case CounterSet(key, value) => v.(counters := Put(v.counters, key, value))
    case PollSucceeded(time) => v.(up := 1, lastSuccess := time)
    case PollFailed(auth) =>
      if auth then v.(up := 0, authFailures := v.authFailures + 1)
      else v.(up := 0, scrapeErrors := v.scrapeErrors + 1)
  }

  const EMPTY_VIEW: View := View(0, 0, 0, 0, [], [])

  /** What is visible after the writes of `log`, gauges aside. */
  function After(log: seq<Write>): View
  {
    if log == [] then EMPTY_VIEW else Apply1(After(log[..|log| - 1]), log[|log| - 1])
  }

  lemma AfterAppend(log: seq<Write>, w: Write)
    ensures After(log + [w]) == Apply1(After(log), w)
  {
    assert (log + [w])[..|log|] == log;
  }

  lemma LinesJoin(own: seq<string>, v: View)
    ensures own + Lines(Sort(ItemLess, v.counters), CounterLine) + Lines(Sort(ItemLess, v.values), GaugeLine)
         == own + BodyLines(v)
  {
    Associative(own, Lines(Sort(ItemLess, v.counters), CounterLine), Lines(Sort(ItemLess, v.values), GaugeLine));
  }

  lemma Associative<T>(a: seq<T>, b: seq<T>, c: seq<T>)
    ensures a + b + c == a + (b + c)
  {
  }

  class Metrics {
    var values: Dict
    var counters: Dict
    var lastSuccess: int
    var up: nat
    var authFailures: nat
    var scrapeErrors: nat
    ghost var log: seq<Write>

    constructor ()
      ensures Valid() && log == [] && values == []
    {
      values, counters, lastSuccess, up, authFailures, scrapeErrors, log := [], [], 0, 0, 0, 0, [];
    }

    function Current(): View
      reads this
    {
      View(up, lastSuccess, authFailures, scrapeErrors, counters, values)
    }

    ghost predicate Valid()
      reads this
    {
      && After(log) == Current().(values := [])
      && DistinctKeys(counters) && DistinctKeys(values)
    }

    method Set(name: string, value: int, labels: seq<Label>)
      requires Valid()
      modifies this`values
      ensures Valid() && values == Put(old(values), SeriesOf(name, labels), value)
    {
      PutDistinct(values, SeriesOf(name, labels), value);
      values := Put(values, SeriesOf(name, labels), value);
    }

    method SetCounter(name: string, value: int, labels: seq<Label>)
      requires Valid()
      modifies this`counters, this`log
      ensures Valid() && log == old(log) + [CounterSet(SeriesOf(name, labels), value)]
    {
      var key := SeriesOf(name, labels);
      AfterAppend(log, CounterSet(key, value));
      PutDistinct(counters, key, value);
      counters := Put(counters, key, value);
      log := log + [CounterSet(key, value)];
    }

    method Succeeded(time: int)
      requires Valid()
      modifies this`up, this`lastSuccess, this`log
      ensures Valid() && log == old(log) + [PollSucceeded(time)]
    {
      AfterAppend(log, PollSucceeded(time));
      up, lastSuccess, log := 1, time, log + [PollSucceeded(time)];
    }

    method Failed(auth: bool)
      requires Valid()
      modifies this`up, this`authFailures, this`scrapeErrors, this`log
      ensures Valid() && log == old(log) + [PollFailed(auth)]
    {
      AfterAppend(log, PollFailed(auth));
      ghost var after := Apply1(After(log), PollFailed(auth));
      up, log := 0, log + [PollFailed(auth)];
      if auth {
        authFailures := authFailures + 1;
        assert Current().(values := []) == after;
      } else {
        scrapeErrors := scrapeErrors + 1;
        assert Current().(values := []) == after;
      }
    }

    /** The page a scrape gets. */
    method Render() returns (page: string)
      ensures page == JoinLines(PageLines(Current()))
    {
      var lines := Preamble(Current());
      lines := AppendBlock(lines, Sort(ItemLess, counters), CounterLine);
      lines := AppendBlock(lines, Sort(ItemLess, values), GaugeLine);
      LinesJoin(Preamble(Current()), Current());
      page := JoinLines(lines);
    }
  }

  method AppendBlock(lines: seq<string>, items: Dict, line: Item -> string) returns (r: seq<string>)
    ensures r == lines + Lines(items, line)
  {
    r := lines;
    var i := 0;
    while i < |items|
      invariant 0 <= i <= |items|
      invariant r == lines + Lines(items[..i], line)
    {
      assert items[..i + 1] == items[..i] + [items[i]];
      assert Lines(items[..i + 1], line) == Lines(items[..i], line) + [line(items[i])];
      r := r + [line(items[i])];
      i := i + 1;
    }
    assert items[..|items|] == items;
  }
}
