/** Reading a rendered page back: the page determines what the registry holds. */
module Exposition {
  import opened Text
  import opened Ordering
  import opened Registry

  /** One line of the page as a scraper takes it apart. */
  datatype Sample = Sample(name: string, labels: seq<Label>, counter: bool, value: int)

  // ---- a reader of sample lines ------------------------------------------------------------------------

  /** The text in front of the last blank, and behind it. */
  function SplitLast(s: string): Option<(string, string)>
  {
    if s == [] then None
    else if s[|s| - 1] == ' ' then Some((s[..|s| - 1], ""))
    else match SplitLast(s[..|s| - 1])
      case None => None
      case Some((head, tail)) => Some((head, tail + [s[|s| - 1]]))
  }

  /** Whether it is printed as a float, and the number. */
  function ReadValue(text: string): Option<(bool, int)>
  {
    var counter := EndsWith(text, ".0");
    match PyInt(if counter then text[..|text| - 2] else text)
    case None => None
    case Some(n) => Some((counter, n))
  }

  function ReadLabels(s: string): Option<seq<Label>>
    decreases |s|
  {
    var i := IndexOf(s, '=');
    if i + 1 >= |s| || s[i + 1] != '"' then None
    else
      var rest := s[i + 2..];
      var j := IndexOf(rest, '"');
      if j == |rest| then None
      else
        var first, more := Label(s[..i], rest[..j]), rest[j + 1..];
        if more == [] then Some([first])
        else if more[0] != ',' then None
        else match ReadLabels(more[1..])
          case None => None
          case Some(labels) => Some([first] + labels)
  }

  function ReadHead(head: string): Option<(string, seq<Label>)>
  {
    var i := IndexOf(head, '{');
    if i == |head| then Some((head, []))
    else if i + 1 == |head| || head[|head| - 1] != '}' then None
    else Labelled(head[..i], ReadLabels(head[i + 1..|head| - 1]))
  }

  function Labelled(name: string, labels: Option<seq<Label>>): Option<(string, seq<Label>)>
  {
    match labels case None => None case Some(list) => Some((name, list))
  }

  function ReadSample(line: string): Option<Sample>
  {
    match SplitLast(line)
    case None => None
    case Some((head, tail)) =>
      match (ReadHead(head), ReadValue(tail))
      case (Some((name, labels)), Some((counter, value))) => Some(Sample(name, labels, counter, value))
      case _ => None
  }

  // ---- one line ------------------------------------------------------------------------------------------

  /** Names and label values without the characters the format is made of. */
  predicate PlainLabel(l: Label)
  {
    '=' !in l.name && '"' !in l.value && '\n' !in l.name && '\n' !in l.value
  }

  predicate Plain(key: Series)
  {
    '{' !in key.name && '\n' !in key.name && forall l | l in key.labels :: PlainLabel(l)
  }

  lemma NotIn(s: string, c: char)
    requires c !in s
    ensures IndexOf(s, c) == |s|
  {
  }

  lemma FirstBehind(s: string, c: char, rest: string)
    requires c !in s
    ensures IndexOf(s + [c] + rest, c) == |s|
  {
    var t := s + [c] + rest;
    assert t[..|s|] == s;
    IndexOfFirst(t, c, |s|);
  }

  lemma {:induction false} SplitLastAt(head: string, tail: string)
    requires ' ' !in tail
    ensures SplitLast(head + " " + tail) == Some((head, tail))
    decreases |tail|
  {
    var s := head + " " + tail;
    if tail == [] {
      assert s[..|s| - 1] == head;
    } else {
      var front := tail[..|tail| - 1];
      assert s[..|s| - 1] == head + " " + front && s[|s| - 1] == tail[|tail| - 1];
      SplitLastAt(head, front);
      assert tail == front + [tail[|tail| - 1]];
    }
  }

  function LabelText1(l: Label): string
  {
    l.name + "=\"" + l.value + "\""
  }

  lemma ReadLabelsAt(s: string, i: nat, rest: string, j: nat)
    requires IndexOf(s, '=') == i && i + 1 < |s| && s[i + 1] == '"' && rest == s[i + 2..]
    requires IndexOf(rest, '"') == j && j < |rest|
    ensures ReadLabels(s) == Continued(Label(s[..i], rest[..j]), rest[j + 1..])
  {
  }

  /** A label, and what follows it in the list. */
  function Continued(l: Label, more: string): Option<seq<Label>>
  {
    if more == [] then Some([l])
    else if more[0] != ',' then None
    else match ReadLabels(more[1..])
      case None => None
      case Some(labels) => Some([l] + labels)
  }

  /** One label in front of `more`. */
  lemma ReadOneLabel(l: Label, more: string)
    requires PlainLabel(l)
    ensures ReadLabels(LabelText1(l) + more) == Continued(l, more)
  {
    var s, rest := LabelText1(l) + more, l.value + ['"'] + more;
    FirstBehind(l.name, '=', ['"'] + rest);
    FirstBehind(l.value, '"', more);
    LabelSplits(l, more, s, rest);
    ReadLabelsAt(s, |l.name|, rest, |l.value|);
    assert l == Label(l.name, l.value);
  }

  lemma LabelSplits(l: Label, more: string, s: string, rest: string)
    requires s == LabelText1(l) + more && rest == l.value + ['"'] + more
    ensures s == l.name + ['='] + (['"'] + rest)
    ensures |s| > |l.name| + 1 && s[..|l.name|] == l.name && s[|l.name| + 1] == '"' && s[|l.name| + 2..] == rest
    ensures |rest| > |l.value| && rest[..|l.value|] == l.value && rest[|l.value| + 1..] == more
  {
    assert s == l.name + ['='] + (['"'] + rest);
  }

  lemma {:induction false} LabelsReadBack(labels: seq<Label>)
    requires labels != [] && forall l | l in labels :: PlainLabel(l)
    ensures ReadLabels(LabelList(labels)) == Some(labels)
    decreases |labels|
  {
    var more := if |labels| == 1 then "" else "," + LabelList(labels[1..]);
    ListSplits(labels, more);
    ReadOneLabel(labels[0], more);
    if |labels| > 1 {
      LabelsReadBack(labels[1..]);
    }
  }

  lemma ListSplits(labels: seq<Label>, more: string)
    requires labels != [] && more == if |labels| == 1 then "" else "," + LabelList(labels[1..])
    ensures LabelList(labels) == LabelText1(labels[0]) + more
    ensures |labels| == 1 ==> labels == [labels[0]] && more == []
    ensures |labels| > 1 ==> labels == [labels[0]] + labels[1..] && more != [] && more[0] == ','
                             && more[1..] == LabelList(labels[1..])
  {
    ListUnfolds(labels, more);
  }

  lemma ListUnfolds(labels: seq<Label>, more: string)
    requires labels != [] && more == if |labels| == 1 then "" else "," + LabelList(labels[1..])
    ensures LabelList(labels) == LabelText1(labels[0]) + more
  {
  }

  lemma ReadHeadAt(head: string, i: nat, list: string)
    requires IndexOf(head, '{') == i && i + 1 < |head| && head[|head| - 1] == '}' && head[i + 1..|head| - 1] == list
    ensures ReadHead(head) == Labelled(head[..i], ReadLabels(list))
  {
  }

  lemma HeadSplits(name: string, list: string, head: string)
    requires head == name + ['{'] + (list + ['}'])
    ensures |head| > |name| + 1 && head[|head| - 1] == '}'
    ensures head[..|name|] == name && head[|name| + 1..|head| - 1] == list
  {
  }

  lemma HeadReadBack(key: Series)
    requires Plain(key)
    ensures ReadHead(key.name + LabelText(key.labels)) == Some((key.name, key.labels))
  {
    var head := key.name + LabelText(key.labels);
    if key.labels == [] {
      assert head == key.name;
      NotIn(head, '{');
    } else {
      var list := LabelList(key.labels);
      assert head == key.name + ['{'] + (list + ['}']);
      FirstBehind(key.name, '{', list + ['}']);
      HeadSplits(key.name, list, head);
      ReadHeadAt(head, |key.name|, list);
      LabelsReadBack(key.labels);
    }
  }

  lemma NumbersHold(n: int)
    ensures ' ' !in Decimal(n) && '\n' !in Decimal(n) && '.' !in Decimal(n)
  {
  }

  lemma NoPointNoFloat(d: string)
    requires '.' !in d
    ensures !EndsWith(d, ".0")
  {
    assert |d| >= 2 ==> d[|d| - 2..][0] == d[|d| - 2] && d[|d| - 2] in d;
  }

  lemma ValuesReadBack(n: int)
    ensures ReadValue(Decimal(n)) == Some((false, n)) && ReadValue(Decimal(n) + ".0") == Some((true, n))
    ensures ' ' !in Decimal(n) && ' ' !in Decimal(n) + ".0"
  {
    var d := Decimal(n);
    NumbersHold(n);
    PyIntDecimal(n);
    NoPointNoFloat(d);
    var t := d + ".0";
    assert t[|t| - 2..] == ".0" && t[..|t| - 2] == d;
  }

  function SampleOf(item: Item, counter: bool): Sample
  {
    Sample(item.key.name, item.key.labels, counter, item.value)
  }

  /** A reader gets back name, labels and value, and which kind it is. */
  lemma LinesReadBack(item: Item)
    requires Plain(item.key)
    ensures ReadSample(CounterLine(item)) == Some(SampleOf(item, true))
    ensures ReadSample(GaugeLine(item)) == Some(SampleOf(item, false))
  {
    var head, d := item.key.name + LabelText(item.key.labels), Decimal(item.value);
    ValuesReadBack(item.value);
    HeadReadBack(item.key);
    LineSplits(item, head, d);
    SampleRead(CounterLine(item), head, d + ".0", SampleOf(item, true));
    SampleRead(GaugeLine(item), head, d, SampleOf(item, false));
  }

  lemma LineSplits(item: Item, head: string, d: string)
    requires head == item.key.name + LabelText(item.key.labels) && d == Decimal(item.value)
    requires ' ' !in d && ' ' !in d + ".0"
    ensures SplitLast(CounterLine(item)) == Some((head, d + ".0")) && SplitLast(GaugeLine(item)) == Some((head, d))
  {
    assert CounterLine(item) == head + " " + (d + ".0");
    SplitLastAt(head, d + ".0");
    SplitLastAt(head, d);
  }

  lemma SampleRead(line: string, head: string, tail: string, s: Sample)
    requires SplitLast(line) == Some((head, tail))
    requires ReadHead(head) == Some((s.name, s.labels)) && ReadValue(tail) == Some((s.counter, s.value))
    ensures ReadSample(line) == Some(s)
  {
  }

  // ---- the page line by line --------------------------------------------------------------------------------

  ghost predicate PlainView(v: View)
  {
    && DistinctKeys(v.counters) && DistinctKeys(v.values)
    && (forall item | item in v.counters || item in v.values :: Plain(item.key))
  }

  /** The registry holds what the sample says. */
  predicate Stored(v: View, s: Sample)
  {
    Get(if s.counter then v.counters else v.values, Series(s.name, s.labels)) == Some(s.value)
  }

  lemma BlockApart(d: Dict)
    requires DistinctKeys(d)
    ensures AllApart(Sort(ItemLess, d))
  {
    BlockListsEachOnce(d);
    SeriesOrder();
    var block := Sort(ItemLess, d);
    forall i, j | 0 <= i < j < |block| ensures block[i] != block[j] {
      assert !SeriesLess(block[j].key, block[j].key);
    }
  }

  function Blocks(v: View): seq<Sample>
  {
    Samples(Sort(ItemLess, v.counters), true) + Samples(Sort(ItemLess, v.values), false)
  }

  lemma SortedPlain(v: View)
    requires PlainView(v)
    ensures forall item | item in Sort(ItemLess, v.counters) || item in Sort(ItemLess, v.values) :: Plain(item.key)
  {
    forall item ensures item in Sort(ItemLess, v.counters) <==> item in v.counters {
      assert item in multiset(Sort(ItemLess, v.counters)) <==> item in multiset(v.counters);
    }
    forall item ensures item in Sort(ItemLess, v.values) <==> item in v.values {
      assert item in multiset(Sort(ItemLess, v.values)) <==> item in multiset(v.values);
    }
  }

  lemma CounterBlockReads(a: seq<Item>)
    requires forall item | item in a :: Plain(item.key)
    ensures forall i | 0 <= i < |a| :: ReadSample(Lines(a, CounterLine)[i]) == Some(Samples(a, true)[i])
  {
    forall i | 0 <= i < |a| ensures ReadSample(Lines(a, CounterLine)[i]) == Some(Samples(a, true)[i]) {
      LinesReadBack(a[i]);
    }
  }

  lemma GaugeBlockReads(b: seq<Item>)
    requires forall item | item in b :: Plain(item.key)
    ensures forall i | 0 <= i < |b| :: ReadSample(Lines(b, GaugeLine)[i]) == Some(Samples(b, false)[i])
  {
    forall i | 0 <= i < |b| ensures ReadSample(Lines(b, GaugeLine)[i]) == Some(Samples(b, false)[i]) {
      LinesReadBack(b[i]);
    }
  }

  lemma ReadsConcat(x: seq<string>, p: seq<Sample>, y: seq<string>, q: seq<Sample>)
    requires |x| == |p| && forall i | 0 <= i < |x| :: ReadSample(x[i]) == Some(p[i])
    requires |y| == |q| && forall i | 0 <= i < |y| :: ReadSample(y[i]) == Some(q[i])
    ensures forall i | 0 <= i < |x + y| :: ReadSample((x + y)[i]) == Some((p + q)[i])
  {
  }

  /** Each line of the body reads as the next sample of the two blocks. */
  lemma LinesAre(v: View)
    requires PlainView(v)
    ensures |BodyLines(v)| == |Blocks(v)|
    ensures forall i | 0 <= i < |Blocks(v)| :: ReadSample(BodyLines(v)[i]) == Some(Blocks(v)[i])
  {
    var a, b := Sort(ItemLess, v.counters), Sort(ItemLess, v.values);
    SortedPlain(v);
    CounterBlockReads(a);
    GaugeBlockReads(b);
    ReadsConcat(Lines(a, CounterLine), Samples(a, true), Lines(b, GaugeLine), Samples(b, false));
  }

  ghost predicate AllApart<T>(s: seq<T>)
  {
    forall i, j | 0 <= i < j < |s| :: s[i] != s[j]
  }

  function Samples(items: seq<Item>, counter: bool): seq<Sample>
  {
    seq(|items|, i requires 0 <= i < |items| => SampleOf(items[i], counter))
  }

  lemma SamplesApart(a: seq<Item>, b: seq<Item>)
    requires AllApart(a) && AllApart(b)
    ensures AllApart(Samples(a, true) + Samples(b, false))
  {
    var s := Samples(a, true) + Samples(b, false);
    forall i, j | 0 <= i < j < |s| ensures s[i] != s[j] {
      SampleOfIs(if i < |a| then a[i] else b[i - |a|], i < |a|, s[i]);
      SampleOfIs(if j < |a| then a[j] else b[j - |a|], j < |a|, s[j]);
    }
  }

  lemma BlocksApart(v: View)
    requires PlainView(v)
    ensures AllApart(Blocks(v))
  {
    BlockApart(v.counters);
    BlockApart(v.values);
    SamplesApart(Sort(ItemLess, v.counters), Sort(ItemLess, v.values));
  }

  lemma BlocksCount(v: View)
    ensures |Blocks(v)| == |v.counters| + |v.values|
  {
    SortLength(v.counters);
    SortLength(v.values);
  }

  lemma SortLength(d: Dict)
    ensures |Sort(ItemLess, d)| == |d|
  {
    assert |multiset(Sort(ItemLess, d))| == |multiset(d)|;
  }

  lemma SampleOfIs(item: Item, counter: bool, s: Sample)
    ensures SampleOf(item, counter) == s <==> counter == s.counter && item == Item(Series(s.name, s.labels), s.value)
  {
  }

  lemma InSamples(items: seq<Item>, counter: bool, s: Sample)
    ensures s in Samples(items, counter) <==> s.counter == counter && Item(Series(s.name, s.labels), s.value) in items
  {
    var item := Item(Series(s.name, s.labels), s.value);
    forall i | 0 <= i < |items| ensures Samples(items, counter)[i] == s <==> s.counter == counter && items[i] == item {
      SampleOfIs(items[i], counter, s);
    }
    if s.counter == counter && item in items {
      var i :| 0 <= i < |items| && items[i] == item;
      assert Samples(items, counter)[i] == s;
    }
  }

  lemma InBlocks(v: View, s: Sample)
    ensures s in Blocks(v) <==>
              Item(Series(s.name, s.labels), s.value) in Sort(ItemLess, if s.counter then v.counters else v.values)
  {
    InSamples(Sort(ItemLess, v.counters), true, s);
    InSamples(Sort(ItemLess, v.values), false, s);
  }

  lemma SampleStored(v: View, s: Sample)
    requires PlainView(v)
    ensures s in Blocks(v) <==> Stored(v, s)
  {
    InBlocks(v, s);
    BlockListsEachOnce(if s.counter then v.counters else v.values);
  }

  // ---- what a page says ---------------------------------------------------------------------------------------

  lemma OwnNames(suffix: string)
    ensures OwnName(suffix) == "redis_monitor_exporter_" + suffix
  {
  }

  /** The twelve lines of the exporter's own four series: for each of them its description,
      its type and its value. */
  lemma OwnLines(v: View)
    ensures var p := PageLines(v)[..12];
            && IsOwn(p[0..3], OwnName("up"), "1 when the last poll succeeded", "gauge", v.up)
            && IsOwn(p[3..6], OwnName("last_success_timestamp_seconds"),
                     "Unix time of the last successful poll", "gauge", v.lastSuccess)
            && IsOwn(p[6..9], OwnName("auth_failures_total"),
                     "Exporter-side Redis authentication failures", "counter", v.authFailures)
            && IsOwn(p[9..12], OwnName("scrape_errors_total"), "Exporter-side poll errors", "counter", v.scrapeErrors)
  {
    var a := OwnSeries(OwnName("up"), "1 when the last poll succeeded", "gauge", v.up);
    var b := OwnSeries(OwnName("last_success_timestamp_seconds"),
                       "Unix time of the last successful poll", "gauge", v.lastSuccess);
    var c := OwnSeries(OwnName("auth_failures_total"),
                       "Exporter-side Redis authentication failures", "counter", v.authFailures);
    var d := OwnSeries(OwnName("scrape_errors_total"), "Exporter-side poll errors", "counter", v.scrapeErrors);
    FourParts(a, b, c, d, BodyLines(v));
    OwnIs(OwnName("up"), "1 when the last poll succeeded", "gauge", v.up);
    OwnIs(OwnName("last_success_timestamp_seconds"),
          "Unix time of the last successful poll", "gauge", v.lastSuccess);
    OwnIs(OwnName("auth_failures_total"),
          "Exporter-side Redis authentication failures", "counter", v.authFailures);
    OwnIs(OwnName("scrape_errors_total"), "Exporter-side poll errors", "counter", v.scrapeErrors);
  }

  lemma FourParts<T>(a: seq<T>, b: seq<T>, c: seq<T>, d: seq<T>, rest: seq<T>)
    requires |a| == |b| == |c| == |d| == 3
    ensures var p := (a + b + c + d + rest)[..12];
            p[0..3] == a && p[3..6] == b && p[6..9] == c && p[9..12] == d
  {
  }

  lemma OwnIs(name: string, help: string, kind: string, value: int)
    ensures IsOwn(OwnSeries(name, help, kind, value), name, help, kind, value)
  {
  }

  predicate IsOwn(lines: seq<string>, name: string, help: string, kind: string, value: int)
  {
    && |lines| == 3
    && lines[0] == "# HELP " + name + " " + help
    && lines[1] == "# TYPE " + name + " " + kind
    && lines[2] == name + " " + Decimal(value)
  }

  /** Behind twelve lines there is exactly one for every stored series and value, and no
      other. */
  ghost predicate PageSays(lines: seq<string>, v: View)
  {
    && |lines| == 12 + |v.counters| + |v.values|
    && (forall i | 12 <= i < |lines| :: ReadSample(lines[i]).Some? && Stored(v, ReadSample(lines[i]).value))
    && (forall s | Stored(v, s) :: exists i | 12 <= i < |lines| :: ReadSample(lines[i]) == Some(s))
    && (forall i, j | 12 <= i < j < |lines| :: ReadSample(lines[i]) != ReadSample(lines[j]))
  }

  ghost predicate Reads(lines: seq<string>, blocks: seq<Sample>)
  {
    |lines| == 12 + |blocks| && forall i | 12 <= i < |lines| :: ReadSample(lines[i]) == Some(blocks[i - 12])
  }

  lemma BodyReads(own: seq<string>, body: seq<string>, blocks: seq<Sample>)
    requires |own| == 12 && |body| == |blocks|
    requires forall i | 0 <= i < |body| :: ReadSample(body[i]) == Some(blocks[i])
    ensures Reads(own + body, blocks)
  {
    var lines := own + body;
    forall i | 12 <= i < |lines| ensures ReadSample(lines[i]) == Some(blocks[i - 12]) {
      assert lines[i] == body[i - 12];
    }
  }

  lemma EachSaid(lines: seq<string>, blocks: seq<Sample>, s: Sample)
    requires Reads(lines, blocks) && s in blocks
    ensures exists i | 12 <= i < |lines| :: ReadSample(lines[i]) == Some(s)
  {
    var k :| 0 <= k < |blocks| && blocks[k] == s;
    assert ReadSample(lines[12 + k]) == Some(blocks[12 + k - 12]);
  }

  lemma SaidOnce(lines: seq<string>, blocks: seq<Sample>, i: nat, j: nat)
    requires Reads(lines, blocks) && AllApart(blocks) && 12 <= i < j < |lines|
    ensures ReadSample(lines[i]) != ReadSample(lines[j])
  {
    assert blocks[i - 12] != blocks[j - 12];
  }

  lemma BodySays(lines: seq<string>, blocks: seq<Sample>, v: View)
    requires Reads(lines, blocks) && |blocks| == |v.counters| + |v.values| && AllApart(blocks)
    requires forall s :: s in blocks <==> Stored(v, s)
    ensures PageSays(lines, v)
  {
    forall i | 12 <= i < |lines| ensures ReadSample(lines[i]).Some? && Stored(v, ReadSample(lines[i]).value) {
      assert blocks[i - 12] in blocks;
    }
    forall s | Stored(v, s) ensures exists i | 12 <= i < |lines| :: ReadSample(lines[i]) == Some(s) {
      EachSaid(lines, blocks, s);
    }
    forall i, j | 12 <= i < j < |lines| ensures ReadSample(lines[i]) != ReadSample(lines[j]) {
      SaidOnce(lines, blocks, i, j);
    }
  }

  /** So it is with every page. */
  lemma PageReads(v: View)
    requires PlainView(v)
    ensures PageSays(PageLines(v), v)
  {
    LinesAre(v);
    BlocksApart(v);
    BlocksCount(v);
    forall s ensures s in Blocks(v) <==> Stored(v, s) { SampleStored(v, s); }
    BodyReads(Preamble(v), BodyLines(v), Blocks(v));
    BodySays(PageLines(v), Blocks(v), v);
  }

  // ---- the page determines the contents ---------------------------------------------------------------------

  lemma {:induction false} JoinInjective(a: seq<string>, b: seq<string>)
    requires (forall l | l in a :: '\n' !in l) && (forall l | l in b :: '\n' !in l)
    requires JoinLines(a) == JoinLines(b)
    ensures a == b
    decreases |a|
  {
    if a != [] && b != [] {
      FirstBehind(a[0], '\n', JoinLines(a[1..]));
      FirstBehind(b[0], '\n', JoinLines(b[1..]));
      JoinSplits(a);
      JoinSplits(b);
      JoinInjective(a[1..], b[1..]);
      assert a == [a[0]] + a[1..] && b == [b[0]] + b[1..];
    }
  }

  lemma JoinSplits(a: seq<string>)
    requires a != []
    ensures JoinLines(a) == a[0] + ['\n'] + JoinLines(a[1..])
    ensures JoinLines(a)[..|a[0]|] == a[0] && JoinLines(a)[|a[0]| + 1..] == JoinLines(a[1..])
  {
    assert JoinLines(a) == a[0] + ['\n'] + JoinLines(a[1..]);
  }

  lemma NoFeedConcat(a: string, b: string)
    requires '\n' !in a && '\n' !in b
    ensures '\n' !in a + b
  {
  }

  lemma {:induction false} LabelListNoFeed(labels: seq<Label>)
    requires forall l | l in labels :: PlainLabel(l)
    ensures '\n' !in LabelList(labels)
    decreases |labels|
  {
    if labels != [] {
      var l := labels[0];
      assert l in labels;
      var more := if |labels| == 1 then "" else "," + LabelList(labels[1..]);
      if |labels| > 1 { LabelListNoFeed(labels[1..]); }
      NoFeedConcat(l.name, "=\"");
      NoFeedConcat(l.name + "=\"", l.value);
      NoFeedConcat(l.name + "=\"" + l.value, "\"");
      NoFeedConcat(l.name + "=\"" + l.value + "\"", more);
    }
  }

  lemma LinesNoFeed(item: Item)
    requires Plain(item.key)
    ensures '\n' !in CounterLine(item) && '\n' !in GaugeLine(item)
  {
    var labels := item.key.labels;
    LabelListNoFeed(labels);
    NoFeedConcat("{", LabelList(labels));
    NoFeedConcat("{" + LabelList(labels), "}");
    NoFeedConcat(item.key.name, LabelText(labels));
    NoFeedConcat(item.key.name + LabelText(labels), " ");
    NumbersHold(item.value);
    NoFeedConcat(item.key.name + LabelText(labels) + " ", Decimal(item.value));
    NoFeedConcat(item.key.name + LabelText(labels) + " " + Decimal(item.value), ".0");
  }

  ghost predicate NoFeeds(lines: seq<string>)
  {
    forall l | l in lines :: '\n' !in l
  }

  lemma OwnNoFeed(name: string, help: string, kind: string, value: int)
    requires '\n' !in name && '\n' !in help && '\n' !in kind
    ensures NoFeeds(OwnSeries(OwnName(name), help, kind, value))
  {
    NoFeedConcat("redis_monitor_exporter_", name);
    NumbersHold(value);
  }

  lemma NoFeedsConcat(a: seq<string>, b: seq<string>)
    requires NoFeeds(a) && NoFeeds(b)
    ensures NoFeeds(a + b)
  {
  }

  lemma UpNoFeed(v: View)
    ensures NoFeeds(OwnSeries(OwnName("up"), "1 when the last poll succeeded", "gauge", v.up))
  {
    OwnNoFeed("up", "1 when the last poll succeeded", "gauge", v.up);
  }

  lemma LastSuccessNoFeed(v: View)
    ensures NoFeeds(OwnSeries(OwnName("last_success_timestamp_seconds"),
                              "Unix time of the last successful poll", "gauge", v.lastSuccess))
  {
    OwnNoFeed("last_success_timestamp_seconds",
              "Unix time of the last successful poll", "gauge", v.lastSuccess);
  }

  lemma AuthFailuresNoFeed(v: View)
    ensures NoFeeds(OwnSeries(OwnName("auth_failures_total"),
                              "Exporter-side Redis authentication failures", "counter", v.authFailures))
  {
    OwnNoFeed("auth_failures_total",
              "Exporter-side Redis authentication failures", "counter", v.authFailures);
  }

  lemma ScrapeErrorsNoFeed(v: View)
    ensures NoFeeds(OwnSeries(OwnName("scrape_errors_total"), "Exporter-side poll errors", "counter",
                              v.scrapeErrors))
  {
    OwnNoFeed("scrape_errors_total", "Exporter-side poll errors", "counter", v.scrapeErrors);
  }

  lemma FourNoFeed(a: seq<string>, b: seq<string>, c: seq<string>, d: seq<string>)
    requires NoFeeds(a) && NoFeeds(b) && NoFeeds(c) && NoFeeds(d)
    ensures NoFeeds(a + b + c + d)
  {
    NoFeedsConcat(a, b);
    NoFeedsConcat(a + b, c);
    NoFeedsConcat(a + b + c, d);
  }

  lemma PreambleNoFeed(v: View)
    ensures NoFeeds(Preamble(v))
  {
    UpNoFeed(v);
    LastSuccessNoFeed(v);
    AuthFailuresNoFeed(v);
    ScrapeErrorsNoFeed(v);
    FourNoFeed(
      OwnSeries(OwnName("up"), "1 when the last poll succeeded", "gauge", v.up),
      OwnSeries(OwnName("last_success_timestamp_seconds"),
                "Unix time of the last successful poll", "gauge", v.lastSuccess),
      OwnSeries(OwnName("auth_failures_total"),
                "Exporter-side Redis authentication failures", "counter", v.authFailures),
      OwnSeries(OwnName("scrape_errors_total"), "Exporter-side poll errors", "counter", v.scrapeErrors));
  }

  lemma BlockNoFeed(block: seq<Item>, line: Item -> string)
    requires line in {CounterLine, GaugeLine} && forall item | item in block :: Plain(item.key)
    ensures NoFeeds(Lines(block, line))
  {
    forall i | 0 <= i < |block| ensures '\n' !in Lines(block, line)[i] { LinesNoFeed(block[i]); }
  }

  lemma BodyNoFeed(v: View)
    requires PlainView(v)
    ensures NoFeeds(BodyLines(v))
  {
    var a, b := Sort(ItemLess, v.counters), Sort(ItemLess, v.values);
    SortedPlain(v);
    BlockNoFeed(a, CounterLine);
    BlockNoFeed(b, GaugeLine);
    NoFeedsConcat(Lines(a, CounterLine), Lines(b, GaugeLine));
  }

  /** Two registries render the same page only if they hold the same: the converse of
      `PageCanonical`. */
  lemma PageDetermines(v: View, w: View)
    requires PlainView(v) && PlainView(w) && JoinLines(PageLines(v)) == JoinLines(PageLines(w))
    ensures SameContents(v.counters, w.counters) && SameContents(v.values, w.values)
    ensures v.(counters := w.counters, values := w.values) == w
  {
    PreambleNoFeed(v);
    PreambleNoFeed(w);
    BodyNoFeed(v);
    BodyNoFeed(w);
    JoinInjective(PageLines(v), PageLines(w));
    PageReads(v);
    PageReads(w);
    SameStored(PageLines(v), v, w);
    SameOwn(v, w);
  }

  lemma SameStored(lines: seq<string>, v: View, w: View)
    requires PageSays(lines, v) && PageSays(lines, w)
    ensures SameContents(v.counters, w.counters) && SameContents(v.values, w.values)
  {
    forall s ensures Stored(v, s) <==> Stored(w, s) {
      StoredAlike(lines, v, w, s);
      StoredAlike(lines, w, v, s);
    }
    forall key ensures Get(v.counters, key) == Get(w.counters, key) && Get(v.values, key) == Get(w.values, key) {
      SameGet(v, w, key, true);
      SameGet(v, w, key, false);
    }
  }

  lemma StoredAlike(lines: seq<string>, v: View, w: View, s: Sample)
    requires PageSays(lines, v) && PageSays(lines, w)
    ensures Stored(v, s) ==> Stored(w, s)
  {
    if Stored(v, s) {
      var i :| 12 <= i < |lines| && ReadSample(lines[i]) == Some(s);
    }
  }

  lemma SameGet(v: View, w: View, key: Series, counter: bool)
    requires forall s :: Stored(v, s) <==> Stored(w, s)
    ensures counter ==> Get(v.counters, key) == Get(w.counters, key)
    ensures !counter ==> Get(v.values, key) == Get(w.values, key)
  {
    var a := Get(if counter then v.counters else v.values, key);
    var b := Get(if counter then w.counters else w.values, key);
    if a.Some? { assert Stored(v, Sample(key.name, key.labels, counter, a.value)); }
    if b.Some? { assert Stored(w, Sample(key.name, key.labels, counter, b.value)); }
  }

  lemma SameValue(name: string, m: int, n: int)
    requires name + " " + Decimal(m) == name + " " + Decimal(n)
    ensures m == n
  {
    assert (name + " " + Decimal(m))[|name| + 1..] == Decimal(m);
    assert (name + " " + Decimal(n))[|name| + 1..] == Decimal(n);
    PyIntDecimal(m);
    PyIntDecimal(n);
  }

  lemma SameOwn(v: View, w: View)
    requires PageLines(v) == PageLines(w)
    ensures v.up == w.up && v.lastSuccess == w.lastSuccess
    ensures v.authFailures == w.authFailures && v.scrapeErrors == w.scrapeErrors
  {
    OwnLines(v);
    OwnLines(w);
    SameValue(OwnName("up"), v.up, w.up);
    SameValue(OwnName("last_success_timestamp_seconds"), v.lastSuccess, w.lastSuccess);
    SameValue(OwnName("auth_failures_total"), v.authFailures, w.authFailures);
    SameValue(OwnName("scrape_errors_total"), v.scrapeErrors, w.scrapeErrors);
  }
}
