/** The reply side of the hand-written RESP2 client: what a server may put on the wire,
    and the recursive reader that turns it into Python values or exceptions. */
module Resp {
  import opened Text

  /** A parsed reply. Simple and bulk strings both become `str`. */
  datatype Reply =
    | Str(s: Bytes)
    | Int(n: int)
    | Nil
    | List(items: seq<Reply>)

  /** The exceptions a poll distinguishes: RespError, its subclass RespAuthError, and
      everything else (OSError, ValueError, TypeError, ...), each with its `str()`. */
  datatype Exn =
    | RespError(text: Bytes)
    | AuthError(text: Bytes)
    | Failure(text: Bytes)

  /** What happens when the input is used up: the peer closed the connection and reads
      come back short, or they raise (a timeout, a reset). */
  datatype Ending = Closed | Broken(text: Bytes)

  datatype Read<+T> = Got(value: T, rest: Bytes) | Raised(exn: Exn, rest: Bytes) {
    predicate IsFailure() { Raised? }

    function PropagateFailure<U>(): Read<U>
      requires Raised?
    {
      Raised(exn, rest)
    }

    function Extract(): (T, Bytes)
      requires Got?
    {
      (value, rest)
    }
  }

  // ---- the reader -----------------------------------------------------------------------------------

  /** `rstrip(b"\r\n")`. */
  function StripLineEnd(s: Bytes): (r: Bytes)
    ensures r <= s
  {
    if s != [] && (s[|s| - 1] == '\r' || s[|s| - 1] == '\n') then StripLineEnd(s[..|s| - 1]) else s
  }

  function ReadLine(input: Bytes, ending: Ending): (r: Read<Bytes>)
    ensures |r.rest| <= |input|
    ensures r.Got? ==> |r.rest| < |input|
  {
    var i := IndexOf(input, '\n');
    if i < |input| then Got(StripLineEnd(input[..i + 1]), input[i + 1..])
    else match ending
      case Broken(text) => Raised(Failure(text), [])
      case Closed =>
        if input == [] then Raised(RespError("connection closed"), []) else Got(StripLineEnd(input), [])
  }

  const BAD_LENGTH: Exn := Failure("read length must be non-negative or -1")

  /** `read(n)` of a buffered stream: -1 reads to the end of the input, a smaller size is a
      ValueError, and a closed connection gives fewer bytes than asked for without any
      error. */
  function ReadBytes(n: int, input: Bytes, ending: Ending): (r: Read<Bytes>)
    ensures |r.rest| <= |input|
  {
    if n < -1 then Raised(BAD_LENGTH, input)
    else if 0 <= n <= |input| then Got(input[..n], input[n..])
    else match ending
      case Broken(text) => Raised(Failure(text), [])
      case Closed => Got(input, [])
  }

  function DropLastTwo(s: Bytes): Bytes
  {
    if |s| < 2 then [] else s[..|s| - 2]
  }

  function ServerError(text: Bytes): Exn
  {
    if Contains(text, "WRONGPASS") || Contains(text, "NOAUTH") || Contains(text, "NOPERM")
    then AuthError(text)
    else RespError(text)
  }

  function BadInteger(payload: Bytes): Exn
  {
    Failure("invalid literal for int() with base 10: b'" + payload + "'")
  }

  function ReadReply(input: Bytes, ending: Ending): (r: Read<Reply>)
    ensures |r.rest| <= |input|
    ensures r.Got? ==> |r.rest| < |input|
    decreases |input|, 0
  {
    var (line, rest) :- ReadLine(input, ending);
    ReadBody(line, rest, ending)
  }

  /** What `_read_reply` does once it has the line. */
  function ReadBody(line: Bytes, rest: Bytes, ending: Ending): (r: Read<Reply>)
    ensures |r.rest| <= |rest|
    decreases |rest|, 2
  {
    if line == [] then Raised(RespError("unexpected reply type"), rest)
    else
      var payload := line[1..];
      match line[0]
      case '+' => Got(Str(payload), rest)
      case '-' => Raised(ServerError(payload), rest)
      case ':' =>
        (match PyInt(payload)
         case None => Raised(BadInteger(payload), rest)
         case Some(n) => Got(Int(n), rest))
      case '$' =>
        (match PyInt(payload)
         case None => Raised(BadInteger(payload), rest)
         case Some(length) =>
           if length == -1 then Got(Nil, rest)
           else
             var (data, after) :- ReadBytes(length + 2, rest, ending);
             Got(Str(DropLastTwo(data)), after))
      case '*' =>
        (match PyInt(payload)
         case None => Raised(BadInteger(payload), rest)
         case Some(count) =>
           if count == -1 then Got(Nil, rest)
           else
             var (items, after) :- ReadMany(count, rest, ending);
             Got(List(items), after))
      case _ => Raised(RespError("unexpected reply type"), rest)
  }

  function ReadMany(count: int, input: Bytes, ending: Ending): (r: Read<seq<Reply>>)
    ensures |r.rest| <= |input|
    ensures r.Got? ==> |r.value| == if count < 0 then 0 else count
    decreases |input|, 1, count
  {
    if count <= 0 then Got([], input)
    else
      var (first, rest) :- ReadReply(input, ending);
      var (others, after) :- ReadMany(count - 1, rest, ending);
      Got([first] + others, after)
  }

  // ---- what a server writes -------------------------------------------------------------------------

  datatype Wire =
    | Simple(s: Bytes)
    | Error(text: Bytes)
    | Integer(n: int)
    | Bulk(data: Bytes)
    | NullBulk
    | Array(elements: seq<Wire>)
    | NullArray

  function Encode(w: Wire): (s: Bytes)
    ensures s != []
    decreases w, 1
  {
    match w
    case Simple(s) => "+" + s + CRLF
    case Error(text) => "-" + text + CRLF
    case Integer(n) => ":" + Decimal(n) + CRLF
    case Bulk(data) => "$" + Decimal(|data|) + CRLF + data + CRLF
    case NullBulk => "$-1" + CRLF
    case Array(elements) => "*" + Decimal(|elements|) + CRLF + EncodeAll(elements)
    case NullArray => "*-1" + CRLF
  }

  function EncodeAll(ws: seq<Wire>): Bytes
    decreases ws, 0
  {
    if ws == [] then [] else Encode(ws[0]) + EncodeAll(ws[1..])
  }

  /** What RESP2 demands of text sent on a line of its own, weakened to what the reader
      needs: no line feed, and no carriage return at the end. Bulk data is unrestricted. */
  predicate LineSafe(s: Bytes)
  {
    '\n' !in s && (s == [] || s[|s| - 1] != '\r')
  }

  predicate WellFormed(w: Wire)
    decreases w
  {
    match w
    case Simple(s) => LineSafe(s)
    case Error(text) => LineSafe(text)
    case Array(elements) => forall e | e in elements :: WellFormed(e)
    case _ => true
  }

  predicate AllWellFormed(ws: seq<Wire>)
  {
    forall w | w in ws :: WellFormed(w)
  }

  // ---- what the client should make of it ------------------------------------------------------------

  /** Either the value sent, or the first error in it together with everything that was
      sent behind that error's line. */
  datatype Meaning<+T> = Value(v: T) | Throws(exn: Exn, residue: Bytes) {
    predicate IsFailure() { Throws? }

    function PropagateFailure<U>(): Meaning<U>
      requires Throws?
    {
      Throws(exn, residue)
    }

    function Extract(): T
      requires Value?
    {
      v
    }
  }

  function Mean(w: Wire): Meaning<Reply>
    decreases w, 1
  {
    match w
    case Simple(s) => Value(Str(s))
    case Error(text) => Throws(ServerError(text), [])
    case Integer(n) => Value(Int(n))
    case Bulk(data) => Value(Str(data))
    case NullBulk => Value(Nil)
    case NullArray => Value(Nil)
    case Array(elements) =>
      var items :- MeanAll(elements);
      Value(List(items))
  }

  function MeanAll(ws: seq<Wire>): (m: Meaning<seq<Reply>>)
    ensures m.Value? ==> |m.v| == |ws|
    decreases ws, 0
  {
    if ws == [] then Value([])
    else match Mean(ws[0])
      case Throws(exn, residue) => Throws(exn, residue + EncodeAll(ws[1..]))
      case Value(first) =>
        var others :- MeanAll(ws[1..]);
        Value([first] + others)
  }

  /** The reader's answer when `m` was sent and `rest` follows it. */
  function After<T>(m: Meaning<T>, rest: Bytes): Read<T>
  {
    match m
    case Value(v) => Got(v, rest)
    case Throws(exn, residue) => Raised(exn, residue + rest)
  }

  // ---- round trip -----------------------------------------------------------------------------------

  lemma StripLine(s: Bytes)
    requires s == [] || (s[|s| - 1] != '\r' && s[|s| - 1] != '\n')
    ensures StripLineEnd(s + CRLF) == s
  {
    var t := s + CRLF;
    assert t[..|t| - 1] == s + "\r";
    assert (s + "\r")[..|s|] == s;
    assert StripLineEnd(t) == StripLineEnd(s + "\r") == StripLineEnd(s);
  }

  lemma ReadLineEncoded(s: Bytes, rest: Bytes, ending: Ending)
    requires LineSafe(s)
    ensures ReadLine(s + CRLF + rest, ending) == Got(s, rest)
  {
    var t := s + CRLF + rest;
    assert t[..|s| + 1] == s + "\r";
    IndexOfFirst(t, '\n', |s| + 1);
    assert t[..|s| + 2] == s + CRLF;
    assert s == [] || s[|s| - 1] in s;
    StripLine(s);
    assert t[|s| + 2..] == rest;
  }

  /** A length header is read as the number printed in it. */
  lemma ReadHeader(prefix: char, n: int, tail: Bytes, ending: Ending)
    requires prefix in ":$*"
    ensures PyInt(([prefix] + Decimal(n))[1..]) == Some(n)
    ensures ReadReply([prefix] + Decimal(n) + CRLF + tail, ending) == ReadBody([prefix] + Decimal(n), tail, ending)
  {
    PyIntDecimal(n);
    assert ([prefix] + Decimal(n))[1..] == Decimal(n);
    ReadLineEncoded([prefix] + Decimal(n), tail, ending);
  }

  lemma ReadBulkBody(line: Bytes, data: Bytes, rest: Bytes, ending: Ending)
    requires line != [] && line[0] == '$' && PyInt(line[1..]) == Some(|data|)
    ensures ReadBody(line, data + CRLF + rest, ending) == Got(Str(data), rest)
  {
    var tail := data + CRLF + rest;
    assert tail[..|data| + 2] == data + CRLF && tail[|data| + 2..] == rest;
    assert ReadBytes(|data| + 2, tail, ending) == Got(data + CRLF, rest);
  }

  lemma ReadBulk(data: Bytes, rest: Bytes, ending: Ending)
    ensures ReadReply(Encode(Bulk(data)) + rest, ending) == Got(Str(data), rest)
  {
    var tail := data + CRLF + rest;
    assert Encode(Bulk(data)) + rest == ['$'] + Decimal(|data|) + CRLF + tail;
    ReadHeader('$', |data|, tail, ending);
    ReadBulkBody(['$'] + Decimal(|data|), data, rest, ending);
  }

  lemma ReadArrayBody(line: Bytes, count: nat, tail: Bytes, ending: Ending)
    requires line != [] && line[0] == '*' && PyInt(line[1..]) == Some(count)
    ensures var many := ReadMany(count, tail, ending);
            ReadBody(line, tail, ending)
            == if many.Got? then Got(List(many.value), many.rest) else Raised(many.exn, many.rest)
  {
  }

  lemma ReadArray(elements: seq<Wire>, rest: Bytes, ending: Ending)
    requires ReadMany(|elements|, EncodeAll(elements) + rest, ending) == After(MeanAll(elements), rest)
    ensures ReadReply(Encode(Array(elements)) + rest, ending) == After(Mean(Array(elements)), rest)
  {
    var tail := EncodeAll(elements) + rest;
    assert Encode(Array(elements)) + rest == ['*'] + Decimal(|elements|) + CRLF + tail;
    ReadHeader('*', |elements|, tail, ending);
    ReadArrayBody(['*'] + Decimal(|elements|), |elements|, tail, ending);
  }

  /** A line of its own is read back whole. */
  lemma ReadTextLine(prefix: char, s: Bytes, rest: Bytes, ending: Ending)
    requires LineSafe(s) && prefix in "+-"
    ensures ReadReply([prefix] + s + CRLF + rest, ending)
         == if prefix == '+' then Got(Str(s), rest) else Raised(ServerError(s), rest)
  {
    assert ([prefix] + s)[1..] == s;
    ReadLineEncoded([prefix] + s, rest, ending);
  }

  lemma ReadNull(prefix: char, rest: Bytes, ending: Ending)
    requires prefix in "$*"
    ensures ReadReply([prefix] + "-1" + CRLF + rest, ending) == Got(Nil, rest)
  {
    assert DecimalNat(1) == "1" && Decimal(-1) == "-1";
    ReadHeader(prefix, -1, rest, ending);
  }

  lemma ReadInteger(n: int, rest: Bytes, ending: Ending)
    ensures ReadReply([':'] + Decimal(n) + CRLF + rest, ending) == Got(Int(n), rest)
  {
    ReadHeader(':', n, rest, ending);
  }

  lemma ReadLeaf(w: Wire, rest: Bytes, ending: Ending)
    requires WellFormed(w) && !w.Array? && !w.Bulk?
    ensures ReadReply(Encode(w) + rest, ending) == After(Mean(w), rest)
  {
    match w
    case Simple(s) => ReadTextLine('+', s, rest, ending);
    case Error(text) =>
      ReadTextLine('-', text, rest, ending);
      assert [] + rest == rest;
    case Integer(n) => ReadInteger(n, rest, ending);
    case NullBulk =>
      assert "$-1" == ['$'] + "-1";
      ReadNull('$', rest, ending);
    case NullArray =>
      assert "*-1" == ['*'] + "-1";
      ReadNull('*', rest, ending);
  }

  /** The round trip, errors included: whatever well-formed reply the server sends, and
      whatever follows it, the reader returns the value sent and leaves exactly what
      follows; a reply containing an error raises the first one and leaves everything
      behind that error's line. */
  lemma {:induction false} ReadEncoded(w: Wire, rest: Bytes, ending: Ending)
    requires WellFormed(w)
    ensures ReadReply(Encode(w) + rest, ending) == After(Mean(w), rest)
    decreases w, 1
  {
    match w
    case Bulk(data) => ReadBulk(data, rest, ending);
    case Array(elements) =>
      ReadEncodedAll(elements, rest, ending);
      ReadArray(elements, rest, ending);
    case _ => ReadLeaf(w, rest, ending);
  }

  lemma {:induction false} ReadEncodedAll(ws: seq<Wire>, rest: Bytes, ending: Ending)
    requires AllWellFormed(ws)
    ensures ReadMany(|ws|, EncodeAll(ws) + rest, ending) == After(MeanAll(ws), rest)
    decreases ws, 0
  {
    if ws == [] {
      assert [] + rest == rest;
    } else {
      var tail := EncodeAll(ws[1..]) + rest;
      ReadEncoded(ws[0], tail, ending);
      ReadEncodedAll(ws[1..], rest, ending);
      EncodeAllSplit(ws, rest);
      ManyStep(|ws|, Encode(ws[0]) + tail, ending, After(Mean(ws[0]), tail), After(MeanAll(ws[1..]), rest));
      MeanStep(ws, rest);
    }
  }

  lemma ManyStep(count: nat, input: Bytes, ending: Ending, first: Read<Reply>, others: Read<seq<Reply>>)
    requires count > 0 && ReadReply(input, ending) == first
    requires first.Got? ==> ReadMany(count - 1, first.rest, ending) == others
    ensures ReadMany(count, input, ending)
         == if first.Raised? then Raised(first.exn, first.rest)
            else if others.Raised? then Raised(others.exn, others.rest)
            else Got([first.value] + others.value, others.rest)
  {
  }

  lemma EncodeAllSplit(ws: seq<Wire>, rest: Bytes)
    requires ws != []
    ensures EncodeAll(ws) + rest == Encode(ws[0]) + (EncodeAll(ws[1..]) + rest)
  {
  }

  lemma MeanStep(ws: seq<Wire>, rest: Bytes)
    requires ws != []
    ensures var first, others := After(Mean(ws[0]), EncodeAll(ws[1..]) + rest), After(MeanAll(ws[1..]), rest);
            After(MeanAll(ws), rest)
            == if first.Raised? then Raised(first.exn, first.rest)
               else if others.Raised? then Raised(others.exn, others.rest)
               else Got([first.value] + others.value, others.rest)
  {
    if Mean(ws[0]).Throws? {
      var tail := EncodeAll(ws[1..]);
      assert Mean(ws[0]).residue + (tail + rest) == Mean(ws[0]).residue + tail + rest;
    }
  }

  /** A simple string survives exactly when it is safe on a line: with a line feed in it,
      or a carriage return at its end, the reader returns something else. */
  lemma SimpleRoundTripIff(s: Bytes, ending: Ending)
    ensures ReadReply(Encode(Simple(s)), ending) == Got(Str(s), []) <==> LineSafe(s)
  {
    var t := ("+" + s) + CRLF;
    assert Encode(Simple(s)) == t;
    if LineSafe(s) {
      ReadEncoded(Simple(s), [], ending);
      assert t + [] == t;
    } else if ReadReply(t, ending) == Got(Str(s), []) {
      var i := IndexOf(t, '\n');
      IndexOfAtMost(t, '\n', |s| + 2);
      var line := StripLineEnd(t[..i + 1]);
      assert ReadReply(t, ending) == ReadBody(line, t[i + 1..], ending);
      assert line != [] && line[0] == t[0];
      assert ReadReply(t, ending) == Got(Str(line[1..]), t[i + 1..]);
      assert i == |s| + 2;
      assert forall k | 0 <= k < |s| :: s[k] == t[..i][k + 1];
      StripStops(t[..i + 1]);
    }
  }

  lemma {:induction false} StripStops(s: Bytes)
    ensures var r := StripLineEnd(s); r == [] || r[|r| - 1] != '\r'
  {
    if s != [] && (s[|s| - 1] == '\r' || s[|s| - 1] == '\n') {
      StripStops(s[..|s| - 1]);
    }
  }

  // ---- a stream cut short ---------------------------------------------------------------------------

  /** The same answer with `more` bytes behind it. */
  function Extended<T>(r: Read<T>, more: Bytes): Read<T>
  {
    match r
    case Got(v, rest) => Got(v, rest + more)
    case Raised(exn, rest) => Raised(exn, rest + more)
  }

  /** Reading a prefix of a stream that then breaks off: either the break is noticed, or
      the answer is the one the whole stream gives. */
  predicate CutShort<T(==)>(cut: Read<T>, full: Read<T>, cause: Bytes, more: Bytes)
  {
    (cut.Raised? && cut.exn == Failure(cause)) || full == Extended(cut, more)
  }

  lemma CutLine(s: Bytes, more: Bytes, cause: Bytes, ending: Ending)
    ensures CutShort(ReadLine(s, Broken(cause)), ReadLine(s + more, ending), cause, more)
  {
    var i := IndexOf(s, '\n');
    if i < |s| {
      assert (s + more)[..i] == s[..i];
      IndexOfFirst(s + more, '\n', i);
      assert (s + more)[..i + 1] == s[..i + 1] && (s + more)[i + 1..] == s[i + 1..] + more;
    }
  }

  lemma CutBytes(n: int, s: Bytes, more: Bytes, cause: Bytes, ending: Ending)
    ensures CutShort(ReadBytes(n, s, Broken(cause)), ReadBytes(n, s + more, ending), cause, more)
  {
    if 0 <= n <= |s| {
      assert (s + more)[..n] == s[..n] && (s + more)[n..] == s[n..] + more;
    }
  }

  /** A reply is read whole or not at all when the connection breaks with an exception.
      (On a connection that merely closes this is false: see `ShortBodyUndetected`.) */
  lemma {:induction false} CutReply(s: Bytes, more: Bytes, cause: Bytes, ending: Ending)
    ensures CutShort(ReadReply(s, Broken(cause)), ReadReply(s + more, ending), cause, more)
    decreases |s|, 0
  {
    CutLine(s, more, cause, ending);
    var line := ReadLine(s, Broken(cause));
    if line.Got? {
      CutBody(line.value, line.rest, more, cause, ending);
    }
  }

  lemma {:induction false} CutBody(line: Bytes, s: Bytes, more: Bytes, cause: Bytes, ending: Ending)
    ensures CutShort(ReadBody(line, s, Broken(cause)), ReadBody(line, s + more, ending), cause, more)
    decreases |s|, 2
  {
    if line != [] && PyInt(line[1..]).Some? {
      var n := PyInt(line[1..]).value;
      if line[0] == '$' {
        CutBytes(n + 2, s, more, cause, ending);
      } else if line[0] == '*' {
        CutMany(n, s, more, cause, ending);
      }
    }
  }

  lemma {:induction false} CutMany(count: int, s: Bytes, more: Bytes, cause: Bytes, ending: Ending)
    ensures CutShort(ReadMany(count, s, Broken(cause)), ReadMany(count, s + more, ending), cause, more)
    decreases |s|, 1, count
  {
    if count > 0 {
      CutReply(s, more, cause, ending);
      var first := ReadReply(s, Broken(cause));
      if first.Got? {
        CutMany(count - 1, first.rest, more, cause, ending);
      }
    }
  }

  /** A bulk body cut off by a clean close is returned two bytes short of what arrived,
      without any error. */
  lemma ShortBodyUndetected(n: nat, part: Bytes)
    requires |part| < n + 2
    ensures ReadReply(['$'] + Decimal(n) + CRLF + part, Closed) == Got(Str(DropLastTwo(part)), [])
  {
    ReadHeader('$', n, part, Closed);
    ShortBody(['$'] + Decimal(n), n, part);
  }

  /** So a body that does not arrive whole is noticed only when the connection breaks. */
  lemma ShortBodyNoticedIff(n: nat, part: Bytes, ending: Ending)
    requires |part| < n + 2
    ensures ReadReply(['$'] + Decimal(n) + CRLF + part, ending).Raised? <==> ending.Broken?
  {
    ReadHeader('$', n, part, ending);
    var line := ['$'] + Decimal(n);
    assert ReadBody(line, part, ending).Raised? <==> ReadBytes(n + 2, part, ending).Raised?;
  }

  lemma ShortBody(line: Bytes, n: nat, part: Bytes)
    requires line != [] && line[0] == '$' && PyInt(line[1..]) == Some(n) && |part| < n + 2
    ensures ReadBody(line, part, Closed) == Got(Str(DropLastTwo(part)), [])
  {
    assert ReadBytes(n + 2, part, Closed) == Got(part, []);
  }

  // ---- the command side -----------------------------------------------------------------------------

  function EncodeArgs(args: seq<Bytes>): Bytes
  {
    if args == [] then [] else "$" + Decimal(|args[0]|) + CRLF + args[0] + CRLF + EncodeArgs(args[1..])
  }

  /** The bytes `command` sends: a length-prefixed array of bulk strings. */
  function EncodeCommand(args: seq<Bytes>): Bytes
  {
    "*" + Decimal(|args|) + CRLF + EncodeArgs(args)
  }

  function AsBulks(args: seq<Bytes>): seq<Wire>
  {
    seq(|args|, i requires 0 <= i < |args| => Bulk(args[i]))
  }

  function AsStrs(args: seq<Bytes>): seq<Reply>
  {
    seq(|args|, i requires 0 <= i < |args| => Str(args[i]))
  }

  lemma {:induction false} CommandIsArrayOfBulks(args: seq<Bytes>)
    ensures EncodeArgs(args) == EncodeAll(AsBulks(args))
    ensures MeanAll(AsBulks(args)) == Value(AsStrs(args))
    ensures AllWellFormed(AsBulks(args))
  {
    var ws := AsBulks(args);
    if args == [] {
      assert AsStrs(args) == [];
    } else {
      CommandIsArrayOfBulks(args[1..]);
      assert ws[1..] == AsBulks(args[1..]) && ws[0] == Bulk(args[0]);
      assert MeanAll(ws) == Value([Str(args[0])] + AsStrs(args[1..]));
      assert AsStrs(args) == [Str(args[0])] + AsStrs(args[1..]);
    }
  }

  /** `_read_reply` inverts `command`'s encoding, whatever bytes the arguments hold. */
  lemma ReadCommand(args: seq<Bytes>, rest: Bytes, ending: Ending)
    ensures ReadReply(EncodeCommand(args) + rest, ending) == Got(List(AsStrs(args)), rest)
  {
    CommandIsArrayOfBulks(args);
    ReadEncoded(Array(AsBulks(args)), rest, ending);
  }

  /** Two commands followed by anything agree only when they are the same command and the
      same thing follows: the encoding is injective and prefix-free. */
  lemma CommandPrefixFree(a: seq<Bytes>, x: Bytes, b: seq<Bytes>, y: Bytes)
    requires EncodeCommand(a) + x == EncodeCommand(b) + y
    ensures a == b && x == y
  {
    ReadCommand(a, x, Closed);
    ReadCommand(b, y, Closed);
    assert |AsStrs(a)| == |a| && |AsStrs(b)| == |b|;
    forall i | 0 <= i < |a| ensures a[i] == b[i] {
      assert AsStrs(a)[i] == AsStrs(b)[i];
    }
  }

  /** The same for replies without errors: equal streams carry equal values and split at
      the same place. */
  lemma ReplyPrefixFree(v: Wire, x: Bytes, w: Wire, y: Bytes)
    requires WellFormed(v) && WellFormed(w) && Mean(v).Value? && Mean(w).Value?
    requires Encode(v) + x == Encode(w) + y
    ensures Mean(v) == Mean(w) && x == y
  {
    ReadEncoded(v, x, Closed);
    ReadEncoded(w, y, Closed);
  }

  // ---- which exception an error line becomes ---------------------------------------------------------

  /** What the server says about authentication or permission. */
  ghost predicate AboutAuth(t: Bytes)
  {
    HasWord(t, "WRONGPASS") || HasWord(t, "NOAUTH") || HasWord(t, "NOPERM")
  }

  /** An error line is an authentication error exactly when it holds one of the three words,
      and a plain one otherwise. */
  lemma ErrorLineRead(t: Bytes, rest: Bytes, ending: Ending)
    requires LineSafe(t)
    ensures ReadReply("-" + t + CRLF + rest, ending)
         == Raised(if AboutAuth(t) then AuthError(t) else RespError(t), rest)
  {
    ReadTextLine('-', t, rest, ending);
    ContainsIff(t, "WRONGPASS");
    ContainsIff(t, "NOAUTH");
    ContainsIff(t, "NOPERM");
    assert "-" + t == ['-'] + t;
  }

  /** A line that is no reply at all. */
  lemma UnknownLineRead(line: Bytes, rest: Bytes, ending: Ending)
    requires LineSafe(line) && (line == [] || line[0] !in "+-:$*")
    ensures ReadReply(line + CRLF + rest, ending) == Raised(RespError("unexpected reply type"), rest)
  {
    ReadLineEncoded(line, rest, ending);
  }

  /** A number or a length that is none is a ValueError that quotes it. */
  lemma BadNumberRead(prefix: char, payload: Bytes, rest: Bytes, ending: Ending)
    requires prefix in ":$*" && LineSafe(payload) && PyInt(payload) == None
    ensures ReadReply([prefix] + payload + CRLF + rest, ending)
         == Raised(Failure("invalid literal for int() with base 10: b'" + payload + "'"), rest)
  {
    ReadLineEncoded([prefix] + payload, rest, ending);
    assert ([prefix] + payload)[1..] == payload;
  }

  /** Below -1 the length of an array is none at all. */
  lemma NegativeArrayRead(n: int, rest: Bytes, ending: Ending)
    requires n <= -2
    ensures ReadReply("*" + Decimal(n) + CRLF + rest, ending) == Got(List([]), rest)
  {
    ReadHeader('*', n, rest, ending);
    assert "*" + Decimal(n) == ['*'] + Decimal(n);
    NegativeArray(['*'] + Decimal(n), n, rest, ending);
  }

  lemma NegativeArray(line: Bytes, count: int, rest: Bytes, ending: Ending)
    requires line != [] && line[0] == '*' && PyInt(line[1..]) == Some(count) && count <= -2
    ensures ReadBody(line, rest, ending) == Got(List([]), rest)
  {
  }

  /** What a length below -1 gives: -2 asks for nothing, -3 for everything there is, and
      less is a ValueError. */
  ghost function OfNegative(length: int, rest: Bytes): Read<Reply>
  {
    if length == -2 then Got(Str([]), rest)
    else if length == -3 then Got(Str(if |rest| < 2 then [] else rest[..|rest| - 2]), [])
    else Raised(Failure("read length must be non-negative or -1"), rest)
  }

  lemma NegativeBulkRead(n: int, rest: Bytes)
    requires n <= -2
    ensures ReadReply("$" + Decimal(n) + CRLF + rest, Closed) == OfNegative(n, rest)
  {
    BulkHeaderRead(n, rest);
    NegativeBody(['$'] + Decimal(n), n, rest);
  }

  lemma BulkHeaderRead(n: int, rest: Bytes)
    ensures PyInt((['$'] + Decimal(n))[1..]) == Some(n)
    ensures ReadReply("$" + Decimal(n) + CRLF + rest, Closed) == ReadBody(['$'] + Decimal(n), rest, Closed)
  {
    ReadHeader('$', n, rest, Closed);
    assert "$" + Decimal(n) == ['$'] + Decimal(n);
  }

  lemma NegativeBody(line: Bytes, length: int, rest: Bytes)
    requires line != [] && line[0] == '$' && PyInt(line[1..]) == Some(length) && length <= -2
    ensures ReadBody(line, rest, Closed) == OfNegative(length, rest)
  {
    assert rest[..0] == [] && rest[0..] == rest;
  }
}
