/** `RedisClient`: one connection, its conversation, and the paging loop on top of it. */
module Client {
  import opened Text
  import opened Resp

  /** What a command hands back to its caller. */
  datatype Result<+T> = Ok(value: T) | Raise(exn: Exn)

  datatype Exchange = Exchange(args: seq<Bytes>, answer: Result<Reply>)

  /** A connection seen from the client: what is still to be read, and the conversation
      so far, one entry for each command. */
  datatype Conn = Conn(input: Bytes, ending: Ending, trace: seq<Exchange>)

  datatype Step<+T> = Done(value: T, conn: Conn) | Thrown(exn: Exn, conn: Conn) {
    predicate IsFailure() { Thrown? }

    function PropagateFailure<U>(): Step<U>
      requires Thrown?
    {
      Thrown(exn, conn)
    }

    function Extract(): (T, Conn)
      requires Done?
    {
      (value, conn)
    }

    function AsResult(): Result<T>
    {
      match this
      case Done(value, _) => Ok(value)
      case Thrown(exn, _) => Raise(exn)
    }
  }

  // ---- Python's view of a reply ---------------------------------------------------------------------

  /** `str(r)`; of a list only the bracket it starts with is kept. */
  function PyStr(r: Reply): Bytes
  {
    match r
    case Str(s) => s
    case Int(n) => Decimal(n)
    case Nil => "None"
    case List(_) => "["
  }

  /** Iterating over a reply; None is the TypeError. */
  function Elements(r: Reply): Option<seq<Reply>>
  {
    match r
    case Str(s) => Some(seq(|s|, i requires 0 <= i < |s| => Str([s[i]])))
    case List(items) => Some(items)
    case _ => None
  }

  function Item(r: Reply, i: nat): Option<Reply>
  {
    match Elements(r)
    case None => None
    case Some(items) => if i < |items| then Some(items[i]) else None
  }

  predicate Truthy(r: Reply)
  {
    match r
    case Str(s) => s != []
    case Int(n) => n != 0
    case Nil => false
    case List(items) => items != []
  }

  predicate Hashable(r: Reply) { !r.List? }

  /** `set(members or [])`. */
  function SetOf(members: Reply): Option<set<Reply>>
  {
    if !Truthy(members) then Some({})
    else match Elements(members)
      case None => None
      case Some(items) =>
        if forall x | x in items :: Hashable(x) then Some(set x | x in items) else None
  }

  /** What Python takes for false: an empty text or list, 0 and None. */
  lemma FalsyIff(r: Reply)
    ensures !Truthy(r) <==> r == Str("") || r == Int(0) || r == Nil || r == List([])
  {
  }

  lemma PyStrIs(s: Bytes, n: int, items: seq<Reply>)
    ensures PyStr(Str(s)) == s && PyStr(Int(n)) == Decimal(n) && PyStr(Nil) == "None" && "[" <= PyStr(List(items))
  {
  }

  /** `x` is one of the members an answer gives: an element of a list, or a character of a
      text, as Python iterates over it. */
  ghost predicate IsMember(answer: Reply, x: Reply)
  {
    match answer
    case List(items) => x in items
    case Str(s) => exists i :: 0 <= i < |s| && x == Str([s[i]])
    case _ => false
  }

  /** The set of a reply has exactly its members; there is none exactly for a number that is
      not 0 and for a list with a list in it. */
  lemma SetOfMembers(answer: Reply)
    ensures SetOf(answer).Some? ==> forall x :: x in SetOf(answer).value <==> IsMember(answer, x)
    ensures SetOf(answer).None? <==>
              (answer.Int? && answer.n != 0) || (answer.List? && exists x :: x in answer.items && x.List?)
  {
    if answer.Str? {
      var s, items := answer.s, Elements(answer).value;
      assert |items| == |s| && forall i | 0 <= i < |s| :: items[i] == Str([s[i]]);
      assert forall x :: x in items <==> exists i :: 0 <= i < |items| && items[i] == x;
    }
  }

  /** What a reply to SCAN as Redis sends it is taken apart into. */
  lemma ScanReplyParts(x: Exchange, cursor: Bytes, keys: seq<Reply>)
    requires x.answer == Ok(List([Str(cursor), List(keys)]))
    ensures CursorIn(x) == Some(Str(cursor)) && BatchIn(x) == keys && PyStr(CursorIn(x).value) == cursor
  {
  }

  const BAD_TYPE: Exn := Failure("TypeError")

  // ---- specification --------------------------------------------------------------------------------

  function Issue(c: Conn, args: seq<Bytes>): (r: Step<Reply>)
    ensures |r.conn.trace| == |c.trace| + 1
  {
    match ReadReply(c.input, c.ending)
    case Got(reply, rest) => Done(reply, Conn(rest, c.ending, c.trace + [Exchange(args, Ok(reply))]))
    case Raised(exn, rest) => Thrown(exn, Conn(rest, c.ending, c.trace + [Exchange(args, Raise(exn))]))
  }

  function ScanCommand(cursor: Bytes, pattern: Bytes): seq<Bytes>
  {
    ["SCAN", cursor, "MATCH", pattern, "COUNT", "500"]
  }

  /** At most `pages` pages from `cursor` on; a scan that is not finished by then returns
      what it has. */
  function ScanFrom(c: Conn, pattern: Bytes, cursor: Bytes, keys: seq<Reply>, pages: nat): (r: Step<seq<Reply>>)
    ensures |r.conn.trace| >= |c.trace|
    decreases pages
  {
    if pages == 0 then Done(keys, c)
    else
      var (reply, after) :- Issue(c, ScanCommand(cursor, pattern));
      match (Item(reply, 0), Item(reply, 1))
      case (Some(next), Some(batch)) =>
        (match Elements(batch)
         case None => Thrown(BAD_TYPE, after)
         case Some(more) =>
           if next == Str("0") then Done(keys + more, after)
           else ScanFrom(after, pattern, PyStr(next), keys + more, pages - 1))
      case _ => Thrown(BAD_TYPE, after)
  }

  // ---- the class ------------------------------------------------------------------------------------

  class RedisClient {
    var input: Bytes
    const ending: Ending
    var sent: Bytes
    ghost var trace: seq<Exchange>

    constructor (input: Bytes, ending: Ending)
      ensures State() == Conn(input, ending, []) && sent == []
    {
      this.input, this.ending, this.sent, this.trace := input, ending, [], [];
    }

    ghost function State(): Conn
      reads this
    {
      Conn(input, ending, trace)
    }

    method ReadLine() returns (r: Result<Bytes>)
      modifies this`input
      ensures Resp.ReadLine(old(input), ending) == Answer(r, input)
    {
      var i := IndexOf(input, '\n');
      assert input[..|input|] == input;
      var line := if i < |input| then input[..i + 1] else input;
      assert i == |input| && line != [] ==> line[|line| - 1] in input[..i];
      input := input[|line|..];
      if (line == [] || line[|line| - 1] != '\n') && ending.Broken? {
        return Raise(Failure(ending.text));
      }
      if line == [] {
        return Raise(RespError("connection closed"));
      }
      r := Ok(StripLineEnd(line));
    }

    method ReadReply() returns (r: Result<Reply>)
      modifies this`input
      ensures Resp.ReadReply(old(input), ending) == Answer(r, input)
      decreases |input|, 0
    {
      var line := ReadLine();
      if line.Raise? {
        return Raise(line.exn);
      }
      if line.value == [] {
        return Raise(RespError("unexpected reply type"));
      }
      var prefix, payload := line.value[0], line.value[1..];
      if prefix == '+' {
        return Ok(Str(payload));
      }
      if prefix == '-' {
        return Raise(ServerError(payload));
      }
      if prefix !in ":$*" {
        return Raise(RespError("unexpected reply type"));
      }
      var number := PyInt(payload);
      if number.None? {
        return Raise(BadInteger(payload));
      }
      if prefix == ':' {
        return Ok(Int(number.value));
      }
      if number.value == -1 {
        return Ok(Nil);
      }
      if prefix == '$' {
        r := ReadBulkBody(number.value + 2);
        return;
      }
      var items := ReadItems(number.value);
      r := if items.Raise? then Raise(items.exn) else Ok(List(items.value));
    }

    /** The list comprehension: `count` replies one after the other. */
    method ReadItems(count: int) returns (r: Result<seq<Reply>>)
      modifies this`input
      ensures ReadMany(count, old(input), ending) == Answer(r, input)
      decreases |input|, 1
    {
      ghost var whole := ReadMany(count, input, ending);
      ghost var start := |input|;
      PrependNothing(whole);
      var items, i := [], 0;
      while i < count
        invariant 0 <= i && (i <= count || i == 0) && |input| <= start
        invariant whole == Prepended(items, ReadMany(count - i, input, ending))
      {
        ghost var before := input;
        var item := ReadReply();
        ghost var others := ReadMany(count - i - 1, input, ending);
        ManyStep(count - i, before, ending, Answer(item, input), others);
        if item.Raise? {
          return Raise(item.exn);
        }
        PrependOneMore(items, item.value, others);
        items, i := items + [item.value], i + 1;
      }
      PrependedToNothing(items, input);
      r := Ok(items);
    }

    method ReadBulkBody(n: int) returns (r: Result<Reply>)
      modifies this`input
      ensures match Resp.ReadBytes(n, old(input), ending)
              case Got(data, rest) => r == Ok(Str(DropLastTwo(data))) && input == rest
              case Raised(exn, rest) => r == Raise(exn) && input == rest
    {
      if n < -1 {
        return Raise(BAD_LENGTH);
      }
      if 0 <= n <= |input| {
        var data := input[..n];
        input := input[n..];
        return Ok(Str(DropLastTwo(data)));
      }
      var short := input;
      input := [];
      if ending.Broken? {
        return Raise(Failure(ending.text));
      }
      r := Ok(Str(DropLastTwo(short)));
    }

    /** Sends the command and reads one reply. */
    method Command(args: seq<Bytes>) returns (r: Result<Reply>)
      modifies this
      ensures sent == old(sent) + EncodeCommand(args)
      ensures var step := Issue(old(State()), args);
              State() == step.conn && r == step.AsResult()
    {
      var out := "*" + Decimal(|args|) + CRLF;
      var i := 0;
      assert args[0..] == args;
      while i < |args|
        invariant 0 <= i <= |args|
        invariant out + EncodeArgs(args[i..]) == EncodeCommand(args)
      {
        assert args[i..][1..] == args[i + 1..];
        out := out + ("$" + Decimal(|args[i]|) + CRLF + args[i] + CRLF);
        i := i + 1;
      }
      sent := sent + out;
      r := ReadReply();
      trace := trace + [Exchange(args, r)];
    }

    method ScanMatch(pattern: Bytes, maxPages: nat) returns (r: Result<seq<Reply>>)
      modifies this
      ensures var step := ScanFrom(old(State()), pattern, "0", [], maxPages);
              State() == step.conn && r == step.AsResult()
    {
      var cursor, keys, page := "0", [], 0;
      while page < maxPages
        invariant page <= maxPages
        invariant ScanFrom(old(State()), pattern, "0", [], maxPages)
               == ScanFrom(State(), pattern, cursor, keys, maxPages - page)
      {
        var reply := Command(ScanCommand(cursor, pattern));
        if reply.Raise? {
          return Raise(reply.exn);
        }
        var next, batch := Item(reply.value, 0), Item(reply.value, 1);
        if next.None? || batch.None? {
          return Raise(BAD_TYPE);
        }
        var more := Elements(batch.value);
        if more.None? {
          return Raise(BAD_TYPE);
        }
        keys := keys + more.value;
        if next.value == Str("0") {
          return Ok(keys);
        }
        cursor, page := PyStr(next.value), page + 1;
      }
      r := Ok(keys);
    }
  }

  function Answer<T>(r: Result<T>, rest: Bytes): Read<T>
  {
    match r
    case Ok(value) => Got(value, rest)
    case Raise(exn) => Raised(exn, rest)
  }

  function Prepended<T>(items: seq<T>, r: Read<seq<T>>): Read<seq<T>>
  {
    match r
    case Got(more, rest) => Got(items + more, rest)
    case Raised(exn, rest) => Raised(exn, rest)
  }

  lemma PrependNothing<T>(r: Read<seq<T>>)
    ensures Prepended([], r) == r
  {
    assert r.Got? ==> [] + r.value == r.value;
  }

  lemma PrependedToNothing<T>(items: seq<T>, rest: Bytes)
    ensures Prepended(items, Got([], rest)) == Got(items, rest)
  {
    assert items + [] == items;
  }

  lemma PrependOneMore<T>(items: seq<T>, item: T, others: Read<seq<T>>)
    ensures Prepended(items + [item], others)
         == Prepended(items, if others.Raised? then Raised(others.exn, others.rest)
                             else Got([item] + others.value, others.rest))
  {
    if others.Got? {
      assert items + ([item] + others.value) == items + [item] + others.value;
    }
  }

  // ---- a conversation with a server -----------------------------------------------------------------

  function AnswerTo(w: Wire): Result<Reply>
  {
    match Mean(w)
    case Value(v) => Ok(v)
    case Throws(exn, _) => Raise(exn)
  }

  /** The commands the exporter may send: they read, or choose what to read. */
  predicate ReadOnly(args: seq<Bytes>)
  {
    args != []
    && (args[0] in {"AUTH", "SELECT", "PING", "INFO", "EXISTS", "LLEN", "SCAN", "SMEMBERS"}
        || (args[0] == "ACL" && |args| > 1 && args[1] in {"LOG", "DRYRUN"}))
  }

  /** The n-th command got the n-th reply, nothing was sent after an exception, and only
      reading commands were sent at all. */
  ghost predicate Matched(trace: seq<Exchange>, replies: seq<Wire>)
  {
    && (forall i | 0 <= i < |trace| :: ReadOnly(trace[i].args))
    && (forall i | 0 <= i < |trace| && i < |replies| :: trace[i].answer == AnswerTo(replies[i]))
    && (forall i | 0 <= i < |trace| - 1 :: trace[i].answer.Ok?)
  }

  /** The connection stands exactly between two replies. */
  ghost predicate InStep(c: Conn, replies: seq<Wire>)
  {
    && |c.trace| <= |replies|
    && c.input == EncodeAll(replies[|c.trace|..])
    && Matched(c.trace, replies)
    && (forall x | x in c.trace :: x.answer.Ok?)
  }

  ghost predicate Aligned<T(!new)>(r: Step<T>, replies: seq<Wire>)
  {
    Matched(r.conn.trace, replies) && (r.Done? ==> InStep(r.conn, replies))
  }

  lemma CommandAligned(c: Conn, args: seq<Bytes>, replies: seq<Wire>)
    requires AllWellFormed(replies) && InStep(c, replies) && ReadOnly(args)
    ensures Aligned(Issue(c, args), replies)
  {
    var n := |c.trace|;
    if n < |replies| {
      assert replies[n] in replies;
      EncodeAllSplit(replies[n..], []);
      assert replies[n..][1..] == replies[n + 1..];
      var rest := EncodeAll(replies[n + 1..]);
      assert c.input == Encode(replies[n]) + rest;
      ReadEncoded(replies[n], rest, c.ending);
      AnswerMatched(c.trace, Exchange(args, AnswerTo(replies[n])), replies);
    } else {
      assert c.input == [];
      assert Issue(c, args).Thrown?;
      PastTheEnd(c.trace, Exchange(args, Raise(Issue(c, args).exn)), replies);
    }
  }

  lemma AnswerMatched(trace: seq<Exchange>, x: Exchange, replies: seq<Wire>)
    requires Matched(trace, replies) && (forall y | y in trace :: y.answer.Ok?)
    requires |trace| < |replies| && x.answer == AnswerTo(replies[|trace|]) && ReadOnly(x.args)
    ensures Matched(trace + [x], replies)
    ensures x.answer.Ok? ==> forall y | y in trace + [x] :: y.answer.Ok?
  {
    assert forall i | 0 <= i < |trace| :: trace[i] in trace;
  }

  lemma PastTheEnd(trace: seq<Exchange>, x: Exchange, replies: seq<Wire>)
    requires Matched(trace, replies) && (forall y | y in trace :: y.answer.Ok?)
    requires |trace| == |replies| && ReadOnly(x.args)
    ensures Matched(trace + [x], replies)
  {
    assert forall i | 0 <= i < |trace| :: trace[i] in trace;
  }

  lemma {:induction false} ScanAligned(c: Conn, pattern: Bytes, cursor: Bytes, keys: seq<Reply>, pages: nat,
                                       replies: seq<Wire>)
    requires AllWellFormed(replies) && InStep(c, replies)
    ensures Aligned(ScanFrom(c, pattern, cursor, keys, pages), replies)
    decreases pages
  {
    if pages > 0 {
      CommandAligned(c, ScanCommand(cursor, pattern), replies);
      var step := Issue(c, ScanCommand(cursor, pattern));
      if step.Done? && Item(step.value, 0).Some? && Item(step.value, 1).Some? {
        var next, more := Item(step.value, 0).value, Elements(Item(step.value, 1).value);
        if more.Some? {
          ScanAligned(step.conn, pattern, PyStr(next), keys + more.value, pages - 1, replies);
        }
      }
    }
  }

  // ---- what a scan collects -------------------------------------------------------------------------

  /** The cursor and the batch in the reply to a SCAN. */
  ghost function CursorIn(x: Exchange): Option<Reply>
  {
    if x.answer.Ok? then Item(x.answer.value, 0) else None
  }

  ghost function BatchIn(x: Exchange): seq<Reply>
  {
    if x.answer.Ok? && Item(x.answer.value, 1).Some? && Elements(Item(x.answer.value, 1).value).Some?
    then Elements(Item(x.answer.value, 1).value).value
    else []
  }

  ghost function Batches(trace: seq<Exchange>): seq<Reply>
  {
    if trace == [] then [] else BatchIn(trace[0]) + Batches(trace[1..])
  }

  /** A chain of SCAN commands from `cursor` on: each goes on with the cursor the one
      before returned, and none follows the cursor 0. */
  ghost predicate ScanChain(trace: seq<Exchange>, pattern: Bytes, cursor: Bytes)
  {
    trace == []
    || (&& trace[0].args == ScanCommand(cursor, pattern) && CursorIn(trace[0]).Some?
        && (CursorIn(trace[0]) == Some(Str("0")) ==> |trace| == 1)
        && ScanChain(trace[1..], pattern, PyStr(CursorIn(trace[0]).value)))
  }

  ghost predicate ScanFinished(trace: seq<Exchange>)
  {
    trace != [] && CursorIn(trace[|trace| - 1]) == Some(Str("0"))
  }

  /** One page of a scan that returns. */
  lemma ScanStep(c: Conn, pattern: Bytes, cursor: Bytes, keys: seq<Reply>, pages: nat)
    returns (x: Exchange, after: Conn)
    requires pages > 0 && ScanFrom(c, pattern, cursor, keys, pages).Done?
    ensures x.args == ScanCommand(cursor, pattern) && CursorIn(x).Some? && after.trace == c.trace + [x]
    ensures ScanFrom(c, pattern, cursor, keys, pages)
         == if CursorIn(x) == Some(Str("0")) then Done(keys + BatchIn(x), after)
            else ScanFrom(after, pattern, PyStr(CursorIn(x).value), keys + BatchIn(x), pages - 1)
  {
    var step := Issue(c, ScanCommand(cursor, pattern));
    x, after := Exchange(ScanCommand(cursor, pattern), Ok(step.value)), step.conn;
  }

  /** `r` is what a scan returns that sent the chain `sent`: all its batches in order,
      down to cursor 0 or up to the last page allowed. */
  ghost predicate Collected(r: Step<seq<Reply>>, trace: seq<Exchange>, keys: seq<Reply>, pattern: Bytes, cursor: Bytes,
                            pages: nat, sent: seq<Exchange>)
  {
    && r.Done? && r.conn.trace == trace + sent && r.value == keys + Batches(sent)
    && ScanChain(sent, pattern, cursor) && |sent| <= pages && (ScanFinished(sent) || |sent| == pages)
  }

  lemma CollectedOneMore(r: Step<seq<Reply>>, trace: seq<Exchange>, keys: seq<Reply>, pattern: Bytes, cursor: Bytes,
                         pages: nat, x: Exchange, others: seq<Exchange>)
    requires pages > 0 && x.args == ScanCommand(cursor, pattern) && CursorIn(x).Some? && CursorIn(x) != Some(Str("0"))
    requires Collected(r, trace + [x], keys + BatchIn(x), pattern, PyStr(CursorIn(x).value), pages - 1, others)
    ensures Collected(r, trace, keys, pattern, cursor, pages, [x] + others)
  {
    var sent := [x] + others;
    TraceOneMore(trace, x, others);
    BatchesOneMore(keys, x, others);
    ChainOneMore(x, others, pattern, cursor);
    assert |sent| == 1 + |others| && (ScanFinished(others) ==> ScanFinished(sent));
  }

  lemma TraceOneMore(trace: seq<Exchange>, x: Exchange, others: seq<Exchange>)
    ensures trace + [x] + others == trace + ([x] + others)
  {
  }

  lemma BatchesOneMore(keys: seq<Reply>, x: Exchange, others: seq<Exchange>)
    ensures keys + BatchIn(x) + Batches(others) == keys + Batches([x] + others)
  {
    assert ([x] + others)[1..] == others;
    assert keys + BatchIn(x) + Batches(others) == keys + (BatchIn(x) + Batches(others));
  }

  lemma ChainOneMore(x: Exchange, others: seq<Exchange>, pattern: Bytes, cursor: Bytes)
    requires x.args == ScanCommand(cursor, pattern) && CursorIn(x).Some? && CursorIn(x) != Some(Str("0"))
    requires ScanChain(others, pattern, PyStr(CursorIn(x).value))
    ensures ScanChain([x] + others, pattern, cursor)
    ensures ScanFinished(others) ==> ScanFinished([x] + others)
  {
    assert ([x] + others)[1..] == others;
  }

  lemma CollectedLast(r: Step<seq<Reply>>, trace: seq<Exchange>, keys: seq<Reply>, pattern: Bytes, cursor: Bytes,
                      pages: nat, x: Exchange)
    requires pages > 0 && x.args == ScanCommand(cursor, pattern) && CursorIn(x) == Some(Str("0"))
    requires r.Done? && r.conn.trace == trace + [x] && r.value == keys + BatchIn(x)
    ensures Collected(r, trace, keys, pattern, cursor, pages, [x])
  {
    assert [x][1..] == [];
    assert Batches([x]) == BatchIn(x) + [] == BatchIn(x);
  }

  /** Every scan that returns is of that kind. */
  lemma {:induction false} ScanCollects(c: Conn, pattern: Bytes, cursor: Bytes, keys: seq<Reply>, pages: nat)
    returns (sent: seq<Exchange>)
    requires ScanFrom(c, pattern, cursor, keys, pages).Done?
    ensures Collected(ScanFrom(c, pattern, cursor, keys, pages), c.trace, keys, pattern, cursor, pages, sent)
    decreases pages
  {
    if pages == 0 {
      sent := [];
      assert c.trace + sent == c.trace && keys + Batches(sent) == keys;
    } else {
      var x, after := ScanStep(c, pattern, cursor, keys, pages);
      var r := ScanFrom(c, pattern, cursor, keys, pages);
      if CursorIn(x) == Some(Str("0")) {
        sent := [x];
        CollectedLast(r, c.trace, keys, pattern, cursor, pages, x);
      } else {
        var others := ScanCollects(after, pattern, PyStr(CursorIn(x).value), keys + BatchIn(x), pages - 1);
        sent := [x] + others;
        CollectedOneMore(r, c.trace, keys, pattern, cursor, pages, x, others);
      }
    }
  }

  // ---- when a scan is complete ----------------------------------------------------------------------

  function CursorOf(w: Wire): Option<Reply>
  {
    if Mean(w).Value? then Item(Mean(w).v, 0) else None
  }

  lemma {:induction false} OnlyLastIsZero(sent: seq<Exchange>, pattern: Bytes, cursor: Bytes, i: nat)
    requires ScanChain(sent, pattern, cursor) && i < |sent| - 1
    ensures CursorIn(sent[i]) != Some(Str("0"))
    decreases i
  {
    if i > 0 { OnlyLastIsZero(sent[1..], pattern, PyStr(CursorIn(sent[0]).value), i - 1); }
  }

  lemma SentMatchReplies(c: Conn, r: Step<seq<Reply>>, replies: seq<Wire>, sent: seq<Exchange>, i: nat)
    requires Aligned(r, replies) && r.Done? && r.conn.trace == c.trace + sent && i < |sent|
    ensures |c.trace| + i < |replies| && CursorIn(sent[i]) == CursorOf(replies[|c.trace| + i])
  {
    assert r.conn.trace[|c.trace| + i] == sent[i];
  }

  lemma SentFollow(c: Conn, r: Step<seq<Reply>>, replies: seq<Wire>, sent: seq<Exchange>, pattern: Bytes, cursor: Bytes)
    requires Aligned(r, replies) && r.Done? && r.conn.trace == c.trace + sent && ScanChain(sent, pattern, cursor)
    ensures Follows(sent, replies, |c.trace|)
  {
    forall i: nat | i < |sent|
      ensures |c.trace| + i < |replies| && CursorIn(sent[i]) == CursorOf(replies[|c.trace| + i])
      ensures i < |sent| - 1 ==> CursorIn(sent[i]) != Some(Str("0"))
    {
      SentMatchReplies(c, r, replies, sent, i);
      if i < |sent| - 1 { OnlyLastIsZero(sent, pattern, cursor, i); }
    }
  }

  /** The server ends the scan within the pages allowed. */
  ghost predicate EndsWithin(replies: seq<Wire>, from: nat, pages: nat)
  {
    exists j: nat :: from <= j < from + pages && j < |replies| && CursorOf(replies[j]) == Some(Str("0"))
  }

  /** The chain sent, exchange by exchange, next to the replies it got. */
  ghost predicate Follows(sent: seq<Exchange>, replies: seq<Wire>, from: nat)
  {
    forall i | 0 <= i < |sent| ::
      && from + i < |replies| && CursorIn(sent[i]) == CursorOf(replies[from + i])
      && (i < |sent| - 1 ==> CursorIn(sent[i]) != Some(Str("0")))
  }

  lemma FinishedIff(sent: seq<Exchange>, replies: seq<Wire>, from: nat, pages: nat)
    requires Follows(sent, replies, from) && |sent| <= pages && (ScanFinished(sent) || |sent| == pages)
    ensures ScanFinished(sent) <==> EndsWithin(replies, from, pages)
  {
    var n := |sent|;
    if ScanFinished(sent) {
      assert CursorIn(sent[n - 1]) == CursorOf(replies[from + n - 1]);
    } else {
      forall j: nat | from <= j < from + pages && j < |replies| ensures CursorOf(replies[j]) != Some(Str("0")) {
        assert CursorIn(sent[j - from]) == CursorOf(replies[from + (j - from)]);
      }
    }
  }

  /** A scan that returns is complete if and only if one of the first `pages` replies
      carries cursor 0; otherwise it returns what it has after all of them. */
  lemma ScanCompleteIff(c: Conn, pattern: Bytes, cursor: Bytes, keys: seq<Reply>, pages: nat, replies: seq<Wire>)
    returns (sent: seq<Exchange>)
    requires AllWellFormed(replies) && InStep(c, replies) && ScanFrom(c, pattern, cursor, keys, pages).Done?
    ensures Collected(ScanFrom(c, pattern, cursor, keys, pages), c.trace, keys, pattern, cursor, pages, sent)
    ensures ScanFinished(sent) <==> EndsWithin(replies, |c.trace|, pages)
    ensures !ScanFinished(sent) ==> |sent| == pages
  {
    sent := ScanCollects(c, pattern, cursor, keys, pages);
    ScanAligned(c, pattern, cursor, keys, pages, replies);
    SentFollow(c, ScanFrom(c, pattern, cursor, keys, pages), replies, sent, pattern, cursor);
    FinishedIff(sent, replies, |c.trace|, pages);
  }
}
