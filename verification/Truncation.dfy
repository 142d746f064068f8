/** A reply cut off by a clean close: exactly when the reader does not notice, and exactly
    when it does no harm. */
module Truncation {
  import opened Text
  import opened Resp

  function ArrayHeader(count: nat): Bytes
  {
    "*" + Decimal(count) + CRLF
  }

  /** Of `w` only the first `k` bytes arrive, fewer than were sent, and no exception is
      raised: the first byte of a simple string is enough, as is the first digit of a
      number or of the length of a bulk string. Of an array only the last element may be
      cut, and no error may stand before it. */
  predicate Unnoticed(w: Wire, k: nat)
    decreases w, 1
  {
    match w
    case Simple(_) => k >= 1
    case Error(_) => false
    case Integer(n) => k >= if n < 0 then 3 else 2
    case Bulk(_) => k >= 2
    case NullBulk => k >= 3
    case NullArray => k >= 3
    case Array(elements) =>
      if elements == [] then k >= 2
      else k >= |ArrayHeader(|elements|)| && UnnoticedAll(elements, k - |ArrayHeader(|elements|)|)
  }

  predicate UnnoticedAll(ws: seq<Wire>, k: nat)
    requires ws != []
    decreases ws, 0
  {
    if |ws| == 1 then Unnoticed(ws[0], k)
    else Mean(ws[0]).Value? && k >= |Encode(ws[0])| && UnnoticedAll(ws[1..], k - |Encode(ws[0])|)
  }

  /** All that was cut off is part of the last line end, or was never looked at: the value
      read is the value sent. */
  predicate Harmless(w: Wire, k: nat)
    decreases w, 1
  {
    match w
    case Simple(s) => k >= 1 + |s|
    case Error(_) => false
    case Integer(n) => k >= 1 + |Decimal(n)|
    case Bulk(data) => data == [] && k >= 2
    case NullBulk => k >= 3
    case NullArray => k >= 3
    case Array(elements) =>
      if elements == [] then k >= 2
      else k >= |ArrayHeader(|elements|)| && HarmlessAll(elements, k - |ArrayHeader(|elements|)|)
  }

  predicate HarmlessAll(ws: seq<Wire>, k: nat)
    requires ws != []
    decreases ws, 0
  {
    if |ws| == 1 then Harmless(ws[0], k)
    else Mean(ws[0]).Value? && k >= |Encode(ws[0])| && HarmlessAll(ws[1..], k - |Encode(ws[0])|)
  }

  // ---- a line cut off -------------------------------------------------------------------------------

  /** What is left of a line of which `k` bytes arrive. */
  function Left(s: Bytes, k: nat): Bytes
  {
    if k <= |s| then s[..k] else s
  }

  lemma NoneFound(text: Bytes, c: char)
    requires c !in text
    ensures IndexOf(text, c) == |text|
  {
  }

  lemma CutOfLine(line: Bytes, k: nat)
    requires k < |line| + 2
    ensures (line + CRLF)[..k] == if k <= |line| then line[..k] else line + "\r"
  {
    assert line + CRLF == line + "\r" + "\n";
  }

  lemma ReadCutLine(s: Bytes, k: nat)
    requires '\n' !in s && '\r' !in s && 0 < k < |s| + 2
    ensures ReadLine((s + CRLF)[..k], Closed) == Got(Left(s, k), [])
  {
    var p := (s + CRLF)[..k];
    CutOfLine(s, k);
    if k <= |s| {
      assert forall c | c in p :: c in s;
      assert p[|p| - 1] in s;
    } else {
      StripReturn(s, p);
    }
    NoneFound(p, '\n');
  }

  lemma StripReturn(s: Bytes, p: Bytes)
    requires p == s + "\r" && '\n' !in s && '\r' !in s
    ensures StripLineEnd(p) == s
  {
    assert p[..|p| - 1] == s;
    assert s != [] ==> s[|s| - 1] in s;
  }

  // ---- one reply cut off ----------------------------------------------------------------------------

  /** Everything the two conditions say about one reply. */
  ghost predicate CutAsSaid(w: Wire, k: nat, r: Read<Reply>)
  {
    && (r.Got? <==> Unnoticed(w, k)) && (r.Got? ==> r.rest == [])
    && (r.Got? && Mean(w) == Value(r.value) <==> Harmless(w, k))
  }

  ghost predicate CutAllAsSaid(ws: seq<Wire>, k: nat, r: Read<seq<Reply>>)
    requires ws != []
  {
    && (r.Got? <==> UnnoticedAll(ws, k)) && (r.Got? ==> r.rest == [])
    && (r.Got? && MeanAll(ws) == Value(r.value) <==> HarmlessAll(ws, k))
  }

  lemma {:induction false} StripKeepsFirst(s: Bytes)
    requires s != [] && s[0] != '\r' && s[0] != '\n'
    ensures StripLineEnd(s) != [] && StripLineEnd(s)[0] == s[0]
  {
    if s[|s| - 1] == '\r' || s[|s| - 1] == '\n' {
      StripKeepsFirst(s[..|s| - 1]);
    }
  }

  lemma ReadLastLine(p: Bytes)
    requires p != [] && '\n' !in p
    ensures ReadLine(p, Closed) == Got(StripLineEnd(p), [])
  {
    NoneFound(p, '\n');
  }

  lemma TextLine(prefix: char, s: Bytes)
    requires prefix in "+-" && LineSafe(s)
    ensures var line := [prefix] + s;
            '\n' !in line && line[|line| - 1] != '\r' && line[|line| - 1] != '\n'
  {
    assert forall c | c in [prefix] + s :: c == prefix || c in s;
    assert s != [] ==> s[|s| - 1] in s;
  }

  /** A text line may lose the carriage returns at its new end as well. */
  lemma TextLineCut(prefix: char, s: Bytes, k: nat) returns (payload: Bytes)
    requires prefix in "+-" && LineSafe(s) && 0 < k < |s| + 3
    ensures ReadLine(([prefix] + s + CRLF)[..k], Closed) == Got([prefix] + payload, [])
    ensures payload == s <==> k >= 1 + |s|
  {
    var line := [prefix] + s;
    var p := if k <= |line| then line[..k] else line + "\r";
    TextLine(prefix, s);
    CutOfLine(line, k);
    ReadLastLine(p);
    StripKeepsFirst(p);
    var r := StripLineEnd(p);
    payload := r[1..];
    assert r == [prefix] + payload;
    if k >= |line| {
      StripsTo(line, p);
    } else {
      assert |r| <= k;
    }
  }

  lemma StripsTo(line: Bytes, p: Bytes)
    requires line != [] && line[|line| - 1] != '\r' && line[|line| - 1] != '\n' && (p == line || p == line + "\r")
    ensures StripLineEnd(p) == line
  {
    assert p != line ==> p[..|p| - 1] == line;
  }

  lemma SimpleCut(s: Bytes, k: nat)
    requires LineSafe(s) && k < |Encode(Simple(s))|
    ensures CutAsSaid(Simple(s), k, ReadReply(Encode(Simple(s))[..k], Closed))
  {
    assert Encode(Simple(s)) == ['+'] + s + CRLF;
    if k > 0 {
      var payload := TextLineCut('+', s, k);
    }
  }

  lemma ErrorCut(text: Bytes, k: nat)
    requires LineSafe(text) && k < |Encode(Error(text))|
    ensures CutAsSaid(Error(text), k, ReadReply(Encode(Error(text))[..k], Closed))
  {
    assert Encode(Error(text)) == ['-'] + text + CRLF;
    if k > 0 {
      var payload := TextLineCut('-', text, k);
    }
  }

  // ---- headers --------------------------------------------------------------------------------------

  /** A header line of which `k` bytes arrive, and nothing behind it. */
  lemma HeaderCut(prefix: char, n: int, k: nat)
    requires prefix in ":$*" && 0 < k < |Decimal(n)| + 3
    ensures var p := ([prefix] + Decimal(n) + CRLF)[..k];
            var digits := Left(Decimal(n), k - 1);
            ReadReply(p, Closed) == ReadBody([prefix] + digits, [], Closed)
  {
    var line := [prefix] + Decimal(n);
    assert '\n' !in line && '\r' !in line;
    ReadCutLine(line, k);
    assert Left(line, k) == [prefix] + Left(Decimal(n), k - 1);
  }

  lemma LeftIsPrefix(n: int, k: nat)
    ensures var j := if k <= |Decimal(n)| then k else |Decimal(n)|;
            Left(Decimal(n), k) == Decimal(n)[..j]
  {
  }

  lemma IntegerCut(n: int, k: nat)
    requires k < |Encode(Integer(n))|
    ensures CutAsSaid(Integer(n), k, ReadReply(Encode(Integer(n))[..k], Closed))
  {
    assert Encode(Integer(n)) == [':'] + Decimal(n) + CRLF;
    assert |Decimal(n)| >= if n < 0 then 2 else 1;
    if k > 0 {
      HeaderCut(':', n, k);
      var digits := Left(Decimal(n), k - 1);
      LeftIsPrefix(n, k - 1);
      PyIntPrefix(n, |digits|);
      assert ([':'] + digits)[1..] == digits;
    }
  }

  lemma NullOnNothing(prefix: char, digits: Bytes)
    requires prefix in "$*" && (PyInt(digits).None? || PyInt(digits) == Some(-1))
    ensures var r := ReadBody([prefix] + digits, [], Closed);
            if PyInt(digits).Some? then r == Got(Nil, []) else r.Raised?
  {
    assert ([prefix] + digits)[1..] == digits;
  }

  lemma NullHeaderCut(prefix: char, k: nat)
    requires prefix in "$*" && 0 < k < 5
    ensures var r := ReadReply(([prefix] + Decimal(-1) + CRLF)[..k], Closed);
            if k >= 3 then r == Got(Nil, []) else r.Raised?
  {
    MinusOne();
    HeaderCut(prefix, -1, k);
    LeftIsPrefix(-1, k - 1);
    PyIntPrefix(-1, |Left(Decimal(-1), k - 1)|);
    NullOnNothing(prefix, Left(Decimal(-1), k - 1));
  }

  lemma MinusOne()
    ensures Decimal(-1) == "-1" && |Decimal(-1)| == 2
  {
    assert DecimalNat(1) == "1";
  }

  lemma NullCut(w: Wire, k: nat)
    requires (w.NullBulk? || w.NullArray?) && k < |Encode(w)|
    ensures CutAsSaid(w, k, ReadReply(Encode(w)[..k], Closed))
  {
    var prefix := if w.NullBulk? then '$' else '*';
    MinusOne();
    assert Encode(w) == [prefix] + Decimal(-1) + CRLF;
    if k > 0 { NullHeaderCut(prefix, k); }
  }

  /** The length of a header cut off inside its line. */
  lemma LengthCut(n: nat, k: nat)
    requires 0 < k < |Decimal(n)| + 3
    ensures var length := PyInt(Left(Decimal(n), k - 1));
            && (length.Some? <==> k >= 2)
            && (length.Some? ==> length.value >= 0 && (length.value == 0 <==> n == 0))
  {
    LeftIsPrefix(n, k - 1);
    PyIntPrefix(n, |Left(Decimal(n), k - 1)|);
    if n == 0 { assert DecimalNat(0) == [DigitChar(0)]; }
  }

  lemma BulkOnNothing(digits: Bytes)
    requires PyInt(digits).Some? ==> PyInt(digits).value >= 0
    ensures var r := ReadBody(['$'] + digits, [], Closed);
            if PyInt(digits).Some? then r == Got(Str([]), []) else r.Raised?
  {
    assert (['$'] + digits)[1..] == digits;
  }

  /** A bulk string whose length is not all there, or nothing behind it. */
  lemma BulkHeaderCut(n: nat, k: nat)
    requires 0 < k < |Decimal(n)| + 3
    ensures var r := ReadReply((['$'] + Decimal(n) + CRLF)[..k], Closed);
            if k >= 2 then r == Got(Str([]), []) else r.Raised?
  {
    HeaderCut('$', n, k);
    LengthCut(n, k);
    BulkOnNothing(Left(Decimal(n), k - 1));
  }

  lemma BulkCut(data: Bytes, k: nat)
    requires k < |Encode(Bulk(data))|
    ensures CutAsSaid(Bulk(data), k, ReadReply(Encode(Bulk(data))[..k], Closed))
  {
    var header, rest := ['$'] + Decimal(|data|) + CRLF, data + CRLF;
    assert Encode(Bulk(data)) == header + rest;
    if k == 0 {
    } else if k < |header| {
      assert (header + rest)[..k] == header[..k];
      BulkHeaderCut(|data|, k);
    } else {
      var part := rest[..k - |header|];
      assert (header + rest)[..k] == header + part;
      ShortBodyUndetected(|data|, part);
      assert DropLastTwo(part) == data <==> data == [];
    }
  }

  // ---- arrays ---------------------------------------------------------------------------------------

  /** With nothing to read there are no elements. */
  lemma NothingToRead(count: nat)
    ensures ReadMany(count, [], Closed)
         == if count == 0 then Got([], []) else Raised(RespError("connection closed"), [])
  {
  }

  lemma ArrayOnNothing(digits: Bytes)
    requires PyInt(digits).Some? ==> PyInt(digits).value >= 0
    ensures var r := ReadBody(['*'] + digits, [], Closed);
            if PyInt(digits) == Some(0) then r == Got(List([]), []) else r.Raised?
  {
    assert (['*'] + digits)[1..] == digits;
    if PyInt(digits).Some? { NothingToRead(PyInt(digits).value); }
  }

  lemma ArrayHeaderCut(count: nat, k: nat)
    requires 0 < k < |ArrayHeader(count)|
    ensures var r := ReadReply(ArrayHeader(count)[..k], Closed);
            if count == 0 && k >= 2 then r == Got(List([]), []) else r.Raised?
  {
    HeaderCut('*', count, k);
    LengthCut(count, k);
    ArrayOnNothing(Left(Decimal(count), k - 1));
  }

  lemma ReadElements(count: nat, part: Bytes)
    ensures var many := ReadMany(count, part, Closed);
            ReadReply(ArrayHeader(count) + part, Closed)
            == if many.Got? then Got(List(many.value), many.rest) else Raised(many.exn, many.rest)
  {
    var line := ['*'] + Decimal(count);
    assert ArrayHeader(count) + part == line + CRLF + part;
    ReadHeader('*', count, part, Closed);
    ReadArrayBody(line, count, part, Closed);
  }

  lemma MeanOfArray(elements: seq<Wire>, many: Read<seq<Reply>>)
    requires many.Got?
    ensures Mean(Array(elements)) == Value(List(many.value)) <==> MeanAll(elements) == Value(many.value)
  {
  }

  /** The conditions on an array are those on its elements. */
  lemma ArrayCondition(elements: seq<Wire>, k: nat, many: Read<seq<Reply>>, r: Read<Reply>)
    requires elements != [] && CutAllAsSaid(elements, k, many)
    requires r == if many.Got? then Got(List(many.value), many.rest) else Raised(many.exn, many.rest)
    ensures CutAsSaid(Array(elements), |ArrayHeader(|elements|)| + k, r)
  {
    if many.Got? { MeanOfArray(elements, many); }
  }

  lemma CutInArray(elements: seq<Wire>, k: nat)
    requires k < |Encode(Array(elements))|
    ensures var header := ArrayHeader(|elements|);
            Encode(Array(elements))[..k]
            == if k < |header| then header[..k] else header + EncodeAll(elements)[..k - |header|]
    ensures k >= |ArrayHeader(|elements|)| ==> elements != [] && k - |ArrayHeader(|elements|)| < |EncodeAll(elements)|
  {
    assert Encode(Array(elements)) == ArrayHeader(|elements|) + EncodeAll(elements);
  }

  lemma ArrayCut(elements: seq<Wire>, k: nat)
    requires k < |Encode(Array(elements))|
    requires var h := |ArrayHeader(|elements|)|;
             elements != [] && k >= h ==>
               CutAllAsSaid(elements, k - h, ReadMany(|elements|, EncodeAll(elements)[..k - h], Closed))
    ensures CutAsSaid(Array(elements), k, ReadReply(Encode(Array(elements))[..k], Closed))
  {
    var header := ArrayHeader(|elements|);
    CutInArray(elements, k);
    if k < |header| {
      HeaderOnlyCut(elements, k);
    } else {
      var part := EncodeAll(elements)[..k - |header|];
      ReadElements(|elements|, part);
      ArrayCondition(elements, k - |header|, ReadMany(|elements|, part, Closed), ReadReply(header + part, Closed));
    }
  }

  lemma HeaderOnlyCut(elements: seq<Wire>, k: nat)
    requires k < |ArrayHeader(|elements|)|
    ensures CutAsSaid(Array(elements), k, ReadReply(ArrayHeader(|elements|)[..k], Closed))
  {
    if k > 0 { ArrayHeaderCut(|elements|, k); }
    if elements == [] { assert MeanAll(elements) == Value([]); }
  }

  lemma {:induction false} ElementsCut(ws: seq<Wire>, k: nat)
    requires ws != [] && AllWellFormed(ws) && k < |EncodeAll(ws)|
    ensures CutAllAsSaid(ws, k, ReadMany(|ws|, EncodeAll(ws)[..k], Closed))
    decreases ws, 0
  {
    if k < |Encode(ws[0])| {
      SplitBefore(ws, k);
      ReplyCut(ws[0], k);
      FirstElementCut(ws, k, EncodeAll(ws)[..k]);
    } else {
      var part := EncodeAll(ws[1..])[..k - |Encode(ws[0])|];
      SplitBehind(ws, k);
      ReadEncoded(ws[0], part, Closed);
      ElementsCut(ws[1..], k - |Encode(ws[0])|);
      LaterElementCut(ws, k, EncodeAll(ws)[..k], part);
    }
  }

  lemma SplitBefore(ws: seq<Wire>, k: nat)
    requires ws != [] && k < |Encode(ws[0])|
    ensures k <= |EncodeAll(ws)| && EncodeAll(ws)[..k] == Encode(ws[0])[..k]
  {
    assert EncodeAll(ws) == Encode(ws[0]) + EncodeAll(ws[1..]);
  }

  lemma SplitBehind(ws: seq<Wire>, k: nat)
    requires ws != [] && |Encode(ws[0])| <= k < |EncodeAll(ws)|
    ensures |ws| > 1 && k - |Encode(ws[0])| < |EncodeAll(ws[1..])|
    ensures EncodeAll(ws)[..k] == Encode(ws[0]) + EncodeAll(ws[1..])[..k - |Encode(ws[0])|]
  {
    assert EncodeAll(ws) == Encode(ws[0]) + EncodeAll(ws[1..]);
  }

  lemma FirstElementCut(ws: seq<Wire>, k: nat, input: Bytes)
    requires ws != [] && k < |Encode(ws[0])| && CutAsSaid(ws[0], k, ReadReply(input, Closed))
    ensures CutAllAsSaid(ws, k, ReadMany(|ws|, input, Closed))
  {
    var r := ReadReply(input, Closed);
    NothingToRead(|ws| - 1);
    ManyStep(|ws|, input, Closed, r, ReadMany(|ws| - 1, [], Closed));
    if |ws| == 1 && r.Got? { MeanOne(ws, r); }
  }

  lemma MeanOne(ws: seq<Wire>, r: Read<Reply>)
    requires |ws| == 1 && r.Got?
    ensures MeanAll(ws) == Value([r.value] + []) <==> Mean(ws[0]) == Value(r.value)
  {
    assert MeanAll(ws[1..]) == Value([]);
    if Mean(ws[0]).Value? {
      assert MeanAll(ws) == Value([Mean(ws[0]).v] + []);
      SameTail(Mean(ws[0]).v, [], r.value, []);
    }
  }

  lemma SameTail<T>(x: T, s: seq<T>, y: T, t: seq<T>)
    ensures [x] + s == [y] + t <==> x == y && s == t
  {
    assert ([x] + s)[1..] == s && ([y] + t)[1..] == t;
    assert ([x] + s)[0] == x && ([y] + t)[0] == y;
  }

  lemma LaterElementCut(ws: seq<Wire>, k: nat, input: Bytes, part: Bytes)
    requires |ws| > 1 && k >= |Encode(ws[0])|
    requires ReadReply(input, Closed) == After(Mean(ws[0]), part)
    requires CutAllAsSaid(ws[1..], k - |Encode(ws[0])|, ReadMany(|ws| - 1, part, Closed))
    ensures CutAllAsSaid(ws, k, ReadMany(|ws|, input, Closed))
  {
    var others := ReadMany(|ws| - 1, part, Closed);
    ManyStep(|ws|, input, Closed, After(Mean(ws[0]), part), others);
    if Mean(ws[0]).Value? && others.Got? && MeanAll(ws[1..]).Value? {
      var v := Mean(ws[0]).v;
      assert MeanAll(ws) == Value([v] + MeanAll(ws[1..]).v);
      SameTail(v, others.value, v, MeanAll(ws[1..]).v);
    }
  }

  /** The exact conditions, for every well-formed reply and every proper prefix of it. */
  lemma {:induction false} ReplyCut(w: Wire, k: nat)
    requires WellFormed(w) && k < |Encode(w)|
    ensures CutAsSaid(w, k, ReadReply(Encode(w)[..k], Closed))
    decreases w, 1
  {
    match w
    case Simple(s) => SimpleCut(s, k);
    case Error(text) => ErrorCut(text, k);
    case Integer(n) => IntegerCut(n, k);
    case Bulk(data) => BulkCut(data, k);
    case NullBulk => NullCut(w, k);
    case NullArray => NullCut(w, k);
    case Array(elements) =>
      var h := |ArrayHeader(|elements|)|;
      if elements != [] && k >= h {
        assert Encode(w) == ArrayHeader(|elements|) + EncodeAll(elements);
        ElementsCut(elements, k - h);
      }
      ArrayCut(elements, k);
  }

  /** A clean close within a reply goes unnoticed on exactly these prefixes, and does no
      harm on exactly those. */
  lemma UnnoticedIff(w: Wire, k: nat)
    requires WellFormed(w) && k < |Encode(w)|
    ensures ReadReply(Encode(w)[..k], Closed).Got? <==> Unnoticed(w, k)
    ensures Mean(w).Value? ==> (ReadReply(Encode(w)[..k], Closed) == Got(Mean(w).v, []) <==> Harmless(w, k))
  {
    ReplyCut(w, k);
  }

  // ---- harm at the end of an array --------------------------------------------------------------------

  lemma {:induction false} LastElement(front: seq<Wire>, last: Wire, k: nat)
    requires MeanAll(front).Value?
    ensures var ws := front + [last];
            && (UnnoticedAll(ws, |EncodeAll(front)| + k) <==> Unnoticed(last, k))
            && (HarmlessAll(ws, |EncodeAll(front)| + k) <==> Harmless(last, k))
    decreases |front|
  {
    if front == [] {
      assert front + [last] == [last];
    } else {
      assert (front + [last])[1..] == front[1..] + [last];
      LastElement(front[1..], last, k);
      assert EncodeAll(front) == Encode(front[0]) + EncodeAll(front[1..]);
    }
  }

  /** A cut within the last element of an array is noticed as in that element alone, and as
      harmful. */
  lemma LastElementDecides(front: seq<Wire>, last: Wire, k: nat)
    requires MeanAll(front).Value?
    ensures var w, before := Array(front + [last]), |ArrayHeader(|front| + 1)| + |EncodeAll(front)|;
            && (Unnoticed(w, before + k) <==> Unnoticed(last, k))
            && (Harmless(w, before + k) <==> Harmless(last, k))
  {
    LastElement(front, last, k);
  }

  /** For instance: a page of the ACL log whose last field is a number of two digits or more
      can lose its last digit without an exception. */
  lemma LastDigitLost(entries: seq<Wire>, fields: seq<Wire>, number: nat) returns (k: nat)
    requires MeanAll(entries).Value? && MeanAll(fields).Value? && number >= 10
    ensures var page := Array(entries + [Array(fields + [Integer(number)])]);
            Unnoticed(page, k) && !Harmless(page, k)
  {
    var j := |Decimal(number)|;
    assert j >= 2;
    LastElementDecides(fields, Integer(number), j);
    var before := |ArrayHeader(|fields| + 1)| + |EncodeAll(fields)|;
    LastElementDecides(entries, Array(fields + [Integer(number)]), before + j);
    k := |ArrayHeader(|entries| + 1)| + |EncodeAll(entries)| + (before + j);
  }

  // ---- any value as a reply -------------------------------------------------------------------------

  /** A reply that a server could have sent to be read as `v`. */
  function AsWire(v: Reply): Wire
    decreases v, 1
  {
    match v
    case Str(s) => Bulk(s)
    case Int(n) => Integer(n)
    case Nil => NullBulk
    case List(items) => Array(AsWires(items))
  }

  function AsWires(vs: seq<Reply>): seq<Wire>
    decreases vs, 0
  {
    if vs == [] then [] else [AsWire(vs[0])] + AsWires(vs[1..])
  }

  lemma {:induction false} AsWireMeans(v: Reply)
    ensures Mean(AsWire(v)) == Value(v) && WellFormed(AsWire(v))
    decreases v, 1
  {
    if v.List? { AsWiresMean(v.items); }
  }

  lemma {:induction false} AsWiresMean(vs: seq<Reply>)
    ensures MeanAll(AsWires(vs)) == Value(vs) && AllWellFormed(AsWires(vs))
    decreases vs, 0
  {
    if vs != [] {
      AsWireMeans(vs[0]);
      AsWiresMean(vs[1..]);
      var ws := AsWires(vs);
      assert ws[0] == AsWire(vs[0]) && ws[1..] == AsWires(vs[1..]);
      assert MeanAll(ws) == Value([vs[0]] + vs[1..]);
      assert [vs[0]] + vs[1..] == vs;
    }
  }
}
