/** The multipart body of `upload_workbook`, and how a receiver takes it apart. */
module Multipart {
  import opened Text

  /** The delimiter line in front of a boundary (section 5.1.1 of RFC 2046). */
  function Delimiter(boundary: Bytes): Bytes
  {
    CRLF + "--" + boundary
  }

  const NAME_OPENS: Bytes := "Content-Disposition: " + "form-data; " + "name=\"file\"; " + "filename=\""

  function Disposition(filename: Bytes): Bytes
  {
    NAME_OPENS + filename + "\""
  }

  function Headers(boundary: Bytes, filename: Bytes, mime: Bytes): Bytes
  {
    ("--" + boundary) + CRLF
    + Disposition(filename) + CRLF
    + ("Content-Type: " + mime) + CRLF + CRLF
  }

  function Trailer(boundary: Bytes): Bytes
  {
    Delimiter(boundary) + "--" + CRLF
  }

  function Body(boundary: Bytes, filename: Bytes, mime: Bytes, workbook: Bytes): Bytes
  {
    Headers(boundary, filename, mime) + (workbook + Trailer(boundary))
  }

  /** The body in full: one part named `file`, and the closing delimiter. */
  lemma BodyIs(boundary: Bytes, filename: Bytes, mime: Bytes, workbook: Bytes)
    ensures Body(boundary, filename, mime, workbook)
         == "--" + boundary + "\r\n"
            + ("Content-Disposition: " + "form-data; " + "name=\"file\"; " + "filename=\"" + filename + "\"" + "\r\n")
            + ("Content-Type: " + mime + "\r\n" + "\r\n")
            + workbook
            + ("\r\n" + "--" + boundary + "--" + "\r\n")
  {
  }

  // ---- the receiver ---------------------------------------------------------------------------------

  const BLANK: Bytes := CRLF + CRLF

  /** The content of the part: from the first blank line to the first delimiter behind it. */
  ghost predicate IsContent(body: Bytes, boundary: Bytes, content: Bytes)
  {
    exists blank: nat, end: nat :: IsPart(body, boundary, blank, end) && content == body[blank + 4..end]
  }

  ghost predicate IsPart(body: Bytes, boundary: Bytes, blank: nat, end: nat)
    ensures IsPart(body, boundary, blank, end) ==> blank + 4 <= end <= |body|
  {
    FirstAt(body, BLANK, 0, blank) && FirstAt(body, Delimiter(boundary), blank + 4, end)
  }

  /** No line ends hidden in a header value. */
  predicate OneLine(s: Bytes) { '\r' !in s }

  // ---- the delimiter does not overlap itself --------------------------------------------------------

  lemma DelimiterAt(boundary: Bytes, workbook: Bytes)
    ensures OccursAt(workbook + Trailer(boundary), Delimiter(boundary), |workbook|)
  {
    assert (workbook + Trailer(boundary))[|workbook|..] == Delimiter(boundary) + "--" + CRLF;
  }

  lemma DiffersAt(text: Bytes, needle: Bytes, i: nat, k: nat)
    requires k < |needle| && i + k < |text| && text[i + k] != needle[k]
    ensures !OccursAt(text, needle, i)
  {
    assert i + |needle| <= |text| ==> text[i..i + |needle|][k] == text[i + k];
  }

  lemma OnlyReturnIsFirst(boundary: Bytes, k: nat)
    requires OneLine(boundary) && 0 < k < |Delimiter(boundary)|
    ensures Delimiter(boundary)[k] != '\r'
  {
    var d := Delimiter(boundary);
    assert d == ['\r', '\n', '-', '-'] + boundary;
    assert k >= 4 ==> d[k] in boundary;
  }

  /** An occurrence before the end of the workbook lies inside the workbook: one that
      reached into the trailer would need a carriage return inside the delimiter. */
  lemma NoStraddling(boundary: Bytes, workbook: Bytes, i: nat)
    requires OneLine(boundary) && i < |workbook| < i + |Delimiter(boundary)|
    ensures !OccursAt(workbook + Trailer(boundary), Delimiter(boundary), i)
  {
    var s := workbook + Trailer(boundary);
    OnlyReturnIsFirst(boundary, |workbook| - i);
    assert s[|workbook|] == Trailer(boundary)[0] == '\r';
    DiffersAt(s, Delimiter(boundary), i, |workbook| - i);
  }

  lemma EarlyOccurrences(boundary: Bytes, workbook: Bytes, i: nat)
    requires OneLine(boundary) && i < |workbook|
    ensures OccursAt(workbook + Trailer(boundary), Delimiter(boundary), i)
       <==> OccursAt(workbook, Delimiter(boundary), i)
  {
    var d, s := Delimiter(boundary), workbook + Trailer(boundary);
    if i + |d| > |workbook| {
      NoStraddling(boundary, workbook, i);
    } else {
      assert s[i..i + |d|] == workbook[i..i + |d|];
    }
  }

  /** In the emitted body the first delimiter behind the headers is the one after the
      workbook exactly when the workbook does not contain the delimiter. */
  lemma FirstDelimiterIff(boundary: Bytes, workbook: Bytes)
    requires OneLine(boundary)
    ensures FirstAt(workbook + Trailer(boundary), Delimiter(boundary), 0, |workbook|)
       <==> !Contains(workbook, Delimiter(boundary))
  {
    var d, s := Delimiter(boundary), workbook + Trailer(boundary);
    DelimiterAt(boundary, workbook);
    forall i: nat | i < |workbook| ensures OccursAt(s, d, i) <==> OccursAt(workbook, d, i) {
      EarlyOccurrences(boundary, workbook, i);
    }
    if Contains(workbook, d) {
      var i :| 0 <= i <= |workbook| - |d| && OccursAt(workbook, d, i);
      assert OccursAt(s, d, i) && i < |workbook|;
    } else {
      forall i: nat | i < |workbook| ensures !OccursAt(s, d, i) {
        assert OccursAt(workbook, d, i) ==> i <= |workbook| - |d|;
      }
    }
  }

  // ---- the headers ----------------------------------------------------------------------------------

  /** A line end followed by more text is no blank line. */
  lemma NoBlankIn(line: Bytes, rest: Bytes, i: nat)
    requires OneLine(line) && i < |line| + 2
    requires rest != [] && rest[0] != '\r'
    ensures !OccursAt(line + CRLF + rest, BLANK, i)
  {
    var s := line + CRLF + rest;
    assert BLANK == ['\r', '\n', '\r', '\n'];
    if i < |line| {
      assert s[i] == line[i] && line[i] in line;
      DiffersAt(s, BLANK, i, 0);
    } else if i == |line| {
      assert s[i + 2] == rest[0];
      DiffersAt(s, BLANK, i, 2);
    } else {
      assert s[i] == '\n';
      DiffersAt(s, BLANK, i, 0);
    }
  }

  lemma OccursBehind(prefix: Bytes, s: Bytes, needle: Bytes, i: nat)
    ensures OccursAt(prefix + s, needle, |prefix| + i) <==> OccursAt(s, needle, i)
  {
    assert i + |needle| <= |s| ==>
        (prefix + s)[|prefix| + i..|prefix| + i + |needle|] == s[i..i + |needle|];
  }

  /** Nothing found in the prefix: the first place in the rest is the first place. */
  lemma FirstBehind(prefix: Bytes, s: Bytes, needle: Bytes, from: nat, i: nat)
    requires from <= |prefix|
    requires forall j: nat | from <= j < |prefix| :: !OccursAt(prefix + s, needle, j)
    ensures FirstAt(s, needle, 0, i) <==> FirstAt(prefix + s, needle, from, |prefix| + i)
  {
    OccursBehind(prefix, s, needle, i);
    forall j: nat ensures OccursAt(prefix + s, needle, |prefix| + j) <==> OccursAt(s, needle, j) {
      OccursBehind(prefix, s, needle, j);
    }
    if FirstAt(s, needle, 0, i) {
      forall j: nat | from <= j < |prefix| + i ensures !OccursAt(prefix + s, needle, j) {
        if j >= |prefix| { OccursBehind(prefix, s, needle, j - |prefix|); }
      }
    }
  }

  /** No blank line begins in `line`, or at its end. */
  ghost predicate Blankless(line: Bytes, rest: Bytes)
  {
    forall i: nat | i < |line| + 2 :: !OccursAt(line + CRLF + rest, BLANK, i)
  }

  lemma OneLineBlankless(line: Bytes, rest: Bytes)
    requires OneLine(line) && rest != [] && rest[0] != '\r'
    ensures Blankless(line, rest)
  {
    forall i: nat | i < |line| + 2 ensures !OccursAt(line + CRLF + rest, BLANK, i) { NoBlankIn(line, rest, i); }
  }

  /** The blank line is looked for line by line. */
  lemma SkipLine(line: Bytes, rest: Bytes, k: nat)
    requires Blankless(line, rest) && FirstAt(rest, BLANK, 0, k)
    ensures FirstAt(line + CRLF + rest, BLANK, 0, |line| + 2 + k)
  {
    FirstBehind(line + CRLF, rest, BLANK, 0, k);
  }

  lemma LastLine(line: Bytes, rest: Bytes)
    requires OneLine(line)
    ensures FirstAt(line + CRLF + CRLF + rest, BLANK, 0, |line|)
  {
    var s := line + CRLF + CRLF + rest;
    assert BLANK[0] == '\r';
    forall i: nat | i < |line| ensures !OccursAt(s, BLANK, i) {
      assert s[i] == line[i] && line[i] in line;
      DiffersAt(s, BLANK, i, 0);
    }
    assert s[|line|..|line| + 4] == BLANK;
  }

  lemma OneLineConcat(a: Bytes, b: Bytes)
    ensures OneLine(a + b) <==> OneLine(a) && OneLine(b)
  {
    assert forall c: char :: c in a + b <==> c in a || c in b;
  }

  lemma NameOpensOneLine()
    ensures OneLine(NAME_OPENS) && |NAME_OPENS| > 0 && NAME_OPENS[0] == 'C'
  {
    var a, b, c, d := "Content-Disposition: ", "form-data; ", "name=\"file\"; ", "filename=\"";
    OneLineConcat(a, b);
    OneLineConcat(a + b, c);
    OneLineConcat(a + b + c, d);
  }

  lemma WithinMiddle(a: Bytes, b: Bytes, c: Bytes, needle: Bytes, k: nat)
    requires k + |needle| <= |b|
    ensures OccursAt(a + (b + c), needle, |a| + k) ==> Contains(b, needle)
  {
    OccursBehind(a, b + c, needle, k);
    assert (b + c)[k..k + |needle|] == b[k..k + |needle|];
    assert OccursAt(b, needle, k) ==> Contains(b, needle);
  }

  lemma QuoteWithin(s: Bytes, quote: nat, i: nat)
    requires i <= quote < i + 4 && quote < |s| && s[quote] == '"'
    ensures !OccursAt(s, BLANK, i)
  {
    DiffersAt(s, BLANK, i, quote - i);
  }

  /** A quoted name hides no blank line but one of its own. */
  lemma QuotedBlankless(opens: Bytes, name: Bytes, rest: Bytes)
    requires OneLine(opens) && !Contains(name, BLANK) && rest != [] && rest[0] != '\r'
    ensures Blankless(opens + name + "\"", rest)
  {
    var line := opens + name + "\"";
    var s, quote := line + CRLF + rest, |opens| + |name|;
    assert BLANK == ['\r', '\n', '\r', '\n'] && s[quote] == '"';
    forall i: nat | i < |line| + 2 ensures !OccursAt(s, BLANK, i) {
      if i < |opens| {
        assert s[i] == opens[i] && opens[i] in opens;
        DiffersAt(s, BLANK, i, 0);
      } else if i + 4 <= quote {
        WithinMiddle(opens, name, "\"" + CRLF + rest, BLANK, i - |opens|);
        assert s == opens + (name + ("\"" + CRLF + rest));
      } else if i <= quote {
        QuoteWithin(s, quote, i);
      } else if i == |line| {
        assert s[i + 2] == rest[0];
        DiffersAt(s, BLANK, i, 2);
      } else {
        assert s[i] == '\n';
        DiffersAt(s, BLANK, i, 0);
      }
    }
  }

  lemma TwoLines(l2: Bytes, l3: Bytes, rest: Bytes)
    requires Blankless(l2, l3 + CRLF + CRLF + rest) && OneLine(l3)
    ensures FirstAt(l2 + CRLF + (l3 + CRLF + CRLF + rest), BLANK, 0, |l2| + 2 + |l3|)
  {
    LastLine(l3, rest);
    SkipLine(l2, l3 + CRLF + CRLF + rest, |l3|);
  }

  lemma ThreeLines(l1: Bytes, l2: Bytes, l3: Bytes, rest: Bytes)
    requires Blankless(l1, l2 + CRLF + (l3 + CRLF + CRLF + rest))
    requires Blankless(l2, l3 + CRLF + CRLF + rest) && OneLine(l3)
    ensures FirstAt(l1 + CRLF + (l2 + CRLF + (l3 + CRLF + CRLF + rest)), BLANK, 0, |l1| + 2 + (|l2| + 2 + |l3|))
  {
    TwoLines(l2, l3, rest);
    SkipLine(l1, l2 + CRLF + (l3 + CRLF + CRLF + rest), |l2| + 2 + |l3|);
  }

  /** With no blank line in the file name the first one ends the headers. */
  lemma BlankLineEndsHeaders(boundary: Bytes, filename: Bytes, mime: Bytes, rest: Bytes)
    requires OneLine(boundary) && OneLine(mime) && !Contains(filename, BLANK)
    ensures FirstAt(Headers(boundary, filename, mime) + rest, BLANK, 0, |Headers(boundary, filename, mime)| - 4)
  {
    var l1, l2, l3 := "--" + boundary, Disposition(filename), "Content-Type: " + mime;
    var r3 := l3 + CRLF + CRLF + rest;
    var r2 := l2 + CRLF + r3;
    NameOpensOneLine();
    assert r3[0] == 'C' && r2[0] == 'C';
    QuotedBlankless(NAME_OPENS, filename, r3);
    OneLineBlankless(l1, r2);
    ThreeLines(l1, l2, l3, rest);
    Regroup(l1, l2, l3, rest);
  }

  lemma Regroup(a: Bytes, b: Bytes, c: Bytes, rest: Bytes)
    ensures a + CRLF + b + CRLF + c + CRLF + CRLF + rest == a + CRLF + (b + CRLF + (c + CRLF + CRLF + rest))
  {
  }

  lemma FirstIsOnly(text: Bytes, needle: Bytes, i: nat, j: nat)
    requires FirstAt(text, needle, 0, i) && i < j
    ensures !FirstAt(text, needle, 0, j)
  {
  }

  lemma FirstUnique(text: Bytes, needle: Bytes, from: nat, i: nat, j: nat)
    requires FirstAt(text, needle, from, i) && FirstAt(text, needle, from, j)
    ensures i == j
  {
  }

  /** `text` begins with `content` and goes on with its first delimiter. */
  ghost predicate Opens(text: Bytes, boundary: Bytes, content: Bytes)
  {
    FirstAt(text, Delimiter(boundary), 0, |content|) && text[..|content|] == content
  }

  lemma PartBehind(headers: Bytes, tail: Bytes, boundary: Bytes, n: nat)
    requires |headers| >= 4 && FirstAt(headers + tail, BLANK, 0, |headers| - 4)
    ensures IsPart(headers + tail, boundary, |headers| - 4, |headers| + n) <==> FirstAt(tail, Delimiter(boundary), 0, n)
  {
    FirstBehind(headers, tail, Delimiter(boundary), |headers|, n);
  }

  lemma SliceBehind(headers: Bytes, tail: Bytes, n: nat)
    requires n <= |tail|
    ensures (headers + tail)[|headers|..|headers| + n] == tail[..n]
  {
  }

  /** Behind the first blank line the content is all up to the first delimiter. */
  lemma ContentIff(headers: Bytes, tail: Bytes, boundary: Bytes, content: Bytes)
    requires |headers| >= 4 && FirstAt(headers + tail, BLANK, 0, |headers| - 4)
    ensures IsContent(headers + tail, boundary, content) <==> Opens(tail, boundary, content)
  {
    var body, n := headers + tail, |headers|;
    PartBehind(headers, tail, boundary, |content|);
    if Opens(tail, boundary, content) {
      SliceBehind(headers, tail, |content|);
      assert IsPart(body, boundary, n - 4, n + |content|);
    }
    if IsContent(body, boundary, content) {
      var blank: nat, end: nat :| IsPart(body, boundary, blank, end) && content == body[blank + 4..end];
      FirstUnique(body, BLANK, 0, blank, n - 4);
      assert end == n + |content|;
      SliceBehind(headers, tail, |content|);
    }
  }

  lemma OpensWorkbookIff(boundary: Bytes, workbook: Bytes)
    requires OneLine(boundary)
    ensures Opens(workbook + Trailer(boundary), boundary, workbook) <==> !Contains(workbook, Delimiter(boundary))
  {
    FirstDelimiterIff(boundary, workbook);
  }

  /** For a file name without a blank line the receiver gets back exactly the workbook, if
      and only if the workbook does not contain the delimiter. */
  lemma PlainNameRoundTripIff(boundary: Bytes, filename: Bytes, mime: Bytes, workbook: Bytes)
    requires OneLine(boundary) && OneLine(mime) && !Contains(filename, BLANK)
    ensures IsContent(Body(boundary, filename, mime, workbook), boundary, workbook)
       <==> !Contains(workbook, Delimiter(boundary))
  {
    BlankLineEndsHeaders(boundary, filename, mime, workbook + Trailer(boundary));
    ContentIff(Headers(boundary, filename, mime), workbook + Trailer(boundary), boundary, workbook);
    OpensWorkbookIff(boundary, workbook);
  }

  // ---- a blank line in the file name ----------------------------------------------------------------

  /** What the receiver takes for the start of the content: the headers behind the first
      blank line of the file name. */
  function NameRest(filename: Bytes, mime: Bytes, b: nat): Bytes
    requires b + 4 <= |filename|
  {
    filename[b + 4..] + HeadersRest(mime)
  }

  function HeadersRest(mime: Bytes): Bytes
  {
    "\"" + CRLF + ("Content-Type: " + mime) + CRLF + CRLF
  }

  function NameFront(boundary: Bytes, filename: Bytes, b: nat): Bytes
    requires b + 4 <= |filename|
  {
    ("--" + boundary) + CRLF + NAME_OPENS + filename[..b + 4]
  }

  lemma FirstOfPrefix(s: Bytes, more: Bytes, needle: Bytes, i: nat)
    requires FirstAt(s, needle, 0, i)
    ensures FirstAt(s + more, needle, 0, i)
  {
    assert (s + more)[i..i + |needle|] == s[i..i + |needle|];
    forall j: nat | j < i ensures !OccursAt(s + more, needle, j) {
      assert (s + more)[j..j + |needle|] == s[j..j + |needle|];
      assert !OccursAt(s, needle, j);
    }
  }

  /** The headers end at the first blank line of the file name. */
  lemma BlankInName(boundary: Bytes, filename: Bytes, rest: Bytes, b: nat)
    requires OneLine(boundary) && FirstAt(filename, BLANK, 0, b)
    ensures FirstAt(NameFront(boundary, filename, b) + (filename[b + 4..] + rest), BLANK, 0,
                    |NameFront(boundary, filename, b)| - 4)
  {
    var l1, named := "--" + boundary, filename + rest;
    NameOpensOneLine();
    FirstOfPrefix(filename, rest, BLANK, b);
    forall j: nat | j < |NAME_OPENS| ensures !OccursAt(NAME_OPENS + named, BLANK, j) {
      assert (NAME_OPENS + named)[j] == NAME_OPENS[j] && NAME_OPENS[j] in NAME_OPENS;
      DiffersAt(NAME_OPENS + named, BLANK, j, 0);
    }
    FirstBehind(NAME_OPENS, named, BLANK, 0, b);
    OneLineBlankless(l1, NAME_OPENS + named);
    SkipLine(l1, NAME_OPENS + named, |NAME_OPENS| + b);
    assert filename == filename[..b + 4] + filename[b + 4..];
    assert NameFront(boundary, filename, b) + (filename[b + 4..] + rest) == l1 + CRLF + (NAME_OPENS + named);
  }

  lemma HeadersSplitInName(boundary: Bytes, filename: Bytes, mime: Bytes, rest: Bytes, b: nat)
    requires b + 4 <= |filename|
    ensures Headers(boundary, filename, mime) + rest
         == NameFront(boundary, filename, b) + (filename[b + 4..] + (HeadersRest(mime) + rest))
    ensures |NameFront(boundary, filename, b)| < |Headers(boundary, filename, mime)|
  {
    assert filename == filename[..b + 4] + filename[b + 4..];
    HeadersSplit(boundary, filename, mime);
  }

  lemma HeadersSplit(boundary: Bytes, filename: Bytes, mime: Bytes)
    ensures Headers(boundary, filename, mime) == ("--" + boundary) + CRLF + NAME_OPENS + filename + HeadersRest(mime)
  {
  }

  /** A file name with a blank line in it: the receiver gets the workbook only if that is
      what stands between this blank line and the first delimiter. */
  lemma BlankNameRoundTripIff(boundary: Bytes, filename: Bytes, mime: Bytes, workbook: Bytes, b: nat)
    requires OneLine(boundary) && FirstAt(filename, BLANK, 0, b)
    ensures IsContent(Body(boundary, filename, mime, workbook), boundary, workbook)
       <==> Opens(NameRest(filename, mime, b) + (workbook + Trailer(boundary)), boundary, workbook)
  {
    var rest := HeadersRest(mime) + (workbook + Trailer(boundary));
    BlankInName(boundary, filename, rest, b);
    HeadersSplitInName(boundary, filename, mime, workbook + Trailer(boundary), b);
    ContentIff(NameFront(boundary, filename, b), filename[b + 4..] + rest, boundary, workbook);
    assert filename[b + 4..] + rest == NameRest(filename, mime, b) + (workbook + Trailer(boundary));
  }

  /** What the harness sees to: the boundary is drawn after the file name is given, and
      neither it nor a MIME type of the table holds a quote or a line end. */
  predicate Fresh(boundary: Bytes, filename: Bytes, mime: Bytes)
  {
    OneLine(boundary) && '"' !in boundary && OneLine(mime) && !Contains(filename, "--" + boundary)
  }

  lemma WithinText(text: Bytes, needle: Bytes, i: nat)
    requires OccursAt(text, needle, i)
    ensures Contains(text, needle)
  {
  }

  lemma DelimiterParts(boundary: Bytes)
    ensures var d := Delimiter(boundary);
            && d[0] == '\r' && d[1] == '\n' && d[2] == '-' && d[3] == '-' && |d| == 4 + |boundary|
            && d[2..] == "--" + boundary
            && (forall k | 4 <= k < |d| :: d[k] in boundary)
  {
  }

  /** The delimiter cannot reach over the closing quote of the name. */
  lemma NotInName(boundary: Bytes, filename: Bytes, mime: Bytes, b: nat, rest: Bytes, e: nat)
    requires Fresh(boundary, filename, mime) && b + 4 <= |filename| && e <= |filename| - b - 4
    ensures !OccursAt(NameRest(filename, mime, b) + rest, Delimiter(boundary), e)
  {
    var d, x, n := Delimiter(boundary), NameRest(filename, mime, b) + rest, |filename| - b - 4;
    DelimiterParts(boundary);
    assert x[n] == '"';
    if e + |d| <= n {
      if OccursAt(x, d, e) {
        assert x[e + 2..e + |d|] == x[e..e + |d|][2..] == "--" + boundary;
        assert x[e + 2..e + |d|] == filename[b + 4 + e + 2..b + 4 + e + |d|];
        WithinText(filename, "--" + boundary, b + 4 + e + 2);
      }
    } else {
      DiffersAt(x, d, e, n - e);
    }
  }

  /** Nor begin in the headers behind the name, but at their very end. */
  lemma NotInHeadersRest(boundary: Bytes, mime: Bytes, rest: Bytes, k: nat)
    requires OneLine(mime) && k < |HeadersRest(mime)| && k != |HeadersRest(mime)| - 2
    ensures !OccursAt(HeadersRest(mime) + rest, Delimiter(boundary), k)
  {
    var d, q, t := Delimiter(boundary), HeadersRest(mime), "Content-Type: ";
    var x, m := q + rest, |t| + |mime|;
    DelimiterParts(boundary);
    assert |q| == m + 7 && q == ['"', '\r', '\n'] + (t + mime) + ['\r', '\n', '\r', '\n'];
    assert OneLine(t);
    OneLineConcat(t, mime);
    if k == 1 {
      assert x[3] == 'C';
      DiffersAt(x, d, k, 2);
    } else if 3 <= k < 3 + m {
      assert x[k] == (t + mime)[k - 3] && x[k] in t + mime;
      DiffersAt(x, d, k, 0);
    } else if k == 3 + m {
      assert x[k + 2] == '\r';
      DiffersAt(x, d, k, 2);
    } else {
      assert x[k] == '"' || x[k] == '\n';
      DiffersAt(x, d, k, 0);
    }
  }

  lemma PrefixOccurs(x: Bytes, e: nat, needle: Bytes, i: nat)
    requires e <= |x| && OccursAt(x[..e], needle, i)
    ensures OccursAt(x, needle, i)
  {
    assert x[i..i + |needle|] == x[..e][i..i + |needle|];
  }

  /** A workbook that repeats the rest of the name has the delimiter too early. */
  lemma NotRepeated(boundary: Bytes, front: Bytes, workbook: Bytes)
    requires OneLine(boundary) && 0 < |front| <= |workbook|
    ensures !Opens(front + (workbook + Trailer(boundary)), boundary, workbook)
  {
    var d, tail, e := Delimiter(boundary), workbook + Trailer(boundary), |workbook|;
    var x, i := front + tail, e - |front|;
    if Opens(x, boundary, workbook) {
      OccursBehind(front, tail, d, i);
      EarlyOccurrences(boundary, workbook, i);
      PrefixOccurs(x, e, d, i);
      assert false;
    }
  }

  /** A needle that overlaps the last two bytes of `h` goes on with a copy of `h`. */
  lemma StraddlingCopies(h: Bytes, tail: Bytes, d: Bytes, content: Bytes)
    requires |h| == |content| + 2 && content <= tail && content <= h
    requires OccursAt(h + tail, d, |content|)
    ensures forall k | 0 <= k < |content| && k < |d| - 2 :: d[2 + k] == h[k]
  {
    var x, e := h + tail, |content|;
    forall k | 0 <= k < e && k < |d| - 2 ensures d[2 + k] == h[k] {
      assert d[2 + k] == x[e..e + |d|][2 + k] == x[e + 2 + k] == tail[k] == content[k] == h[k];
    }
  }

  /** A delimiter that begins with the last line end of the headers has its boundary in the
      workbook, so in the name. */
  lemma NotStraddled(boundary: Bytes, filename: Bytes, mime: Bytes, b: nat, workbook: Bytes)
    requires Fresh(boundary, filename, mime) && b + 4 <= |filename|
    requires |workbook| == |NameRest(filename, mime, b)| - 2
    ensures !Opens(NameRest(filename, mime, b) + (workbook + Trailer(boundary)), boundary, workbook)
  {
    var d, h, tail := Delimiter(boundary), NameRest(filename, mime, b), workbook + Trailer(boundary);
    if Opens(h + tail, boundary, workbook) {
      assert workbook == (h + tail)[..|workbook|] == h[..|workbook|];
      StraddlingCopies(h, tail, d, workbook);
      CopyInName(boundary, filename, mime, b);
    }
  }

  lemma CopyInName(boundary: Bytes, filename: Bytes, mime: Bytes, b: nat)
    requires Fresh(boundary, filename, mime) && b + 4 <= |filename|
    ensures var d, h := Delimiter(boundary), NameRest(filename, mime, b);
            exists k :: 0 <= k < |h| - 2 && k < |d| - 2 && d[2 + k] != h[k]
  {
    var d, h, n := Delimiter(boundary), NameRest(filename, mime, b), |filename| - b - 4;
    DelimiterParts(boundary);
    assert h[n] == '"' && n < |h| - 2;
    if n < |d| - 2 {
      assert d[2 + n] != h[n];
    } else if forall k | 0 <= k < |d| - 2 :: d[2 + k] == h[k] {
      var copy := filename[b + 4..b + 4 + (|d| - 2)];
      assert forall k | 0 <= k < |copy| :: copy[k] == h[k] == d[2 + k] == d[2..][k];
      assert copy == d[2..];
      WithinText(filename, "--" + boundary, b + 4);
    }
  }

  lemma NotOpened(boundary: Bytes, filename: Bytes, mime: Bytes, b: nat, workbook: Bytes)
    requires Fresh(boundary, filename, mime) && b + 4 <= |filename|
    ensures !Opens(NameRest(filename, mime, b) + (workbook + Trailer(boundary)), boundary, workbook)
  {
    var tail, n, e := workbook + Trailer(boundary), |filename| - b - 4, |workbook|;
    var q := HeadersRest(mime);
    if |NameRest(filename, mime, b)| <= e {
      NotRepeated(boundary, NameRest(filename, mime, b), workbook);
    } else if e <= n {
      NotInName(boundary, filename, mime, b, tail, e);
    } else if e - n == |q| - 2 {
      NotStraddled(boundary, filename, mime, b, workbook);
    } else {
      NotBehindName(boundary, filename, mime, b, tail, e - n);
    }
  }

  lemma NotBehindName(boundary: Bytes, filename: Bytes, mime: Bytes, b: nat, rest: Bytes, k: nat)
    requires OneLine(mime) && b + 4 <= |filename| && k < |HeadersRest(mime)| && k != |HeadersRest(mime)| - 2
    ensures !OccursAt(NameRest(filename, mime, b) + rest, Delimiter(boundary), |filename| - b - 4 + k)
  {
    var name, q := filename[b + 4..], HeadersRest(mime);
    NotInHeadersRest(boundary, mime, rest, k);
    OccursBehind(name, q + rest, Delimiter(boundary), k);
    assert NameRest(filename, mime, b) + rest == name + (q + rest);
  }

  lemma {:induction false} FirstExists(text: Bytes, needle: Bytes, i: nat) returns (first: nat)
    requires OccursAt(text, needle, i)
    ensures FirstAt(text, needle, 0, first)
    decreases i
  {
    if j: nat :| j < i && OccursAt(text, needle, j) {
      first := FirstExists(text, needle, j);
    } else {
      first := i;
    }
  }

  /** The headers end where they should exactly when the file name has no blank line. */
  lemma HeadersEndIff(boundary: Bytes, filename: Bytes, mime: Bytes, rest: Bytes)
    requires OneLine(boundary) && OneLine(mime)
    ensures var h := Headers(boundary, filename, mime);
            FirstAt(h + rest, BLANK, 0, |h| - 4) <==> !Contains(filename, BLANK)
  {
    var h := Headers(boundary, filename, mime);
    if Contains(filename, BLANK) {
      var i :| 0 <= i <= |filename| - |BLANK| && OccursAt(filename, BLANK, i);
      var b := FirstExists(filename, BLANK, i);
      var front := NameFront(boundary, filename, b);
      BlankInName(boundary, filename, HeadersRest(mime) + rest, b);
      HeadersSplitInName(boundary, filename, mime, rest, b);
      FirstIsOnly(h + rest, BLANK, |front| - 4, |h| - 4);
    } else {
      BlankLineEndsHeaders(boundary, filename, mime, rest);
    }
  }

  /** The whole body: the receiver gets back exactly the workbook, if and only if the
      workbook does not contain the delimiter, nor the file name a blank line. */
  lemma UploadRoundTripIff(boundary: Bytes, filename: Bytes, mime: Bytes, workbook: Bytes)
    requires Fresh(boundary, filename, mime)
    ensures IsContent(Body(boundary, filename, mime, workbook), boundary, workbook)
       <==> !Contains(workbook, Delimiter(boundary)) && !Contains(filename, BLANK)
  {
    if Contains(filename, BLANK) {
      var i :| 0 <= i <= |filename| - |BLANK| && OccursAt(filename, BLANK, i);
      var b := FirstExists(filename, BLANK, i);
      BlankNameRoundTripIff(boundary, filename, mime, workbook, b);
      NotOpened(boundary, filename, mime, b, workbook);
    } else {
      PlainNameRoundTripIff(boundary, filename, mime, workbook);
    }
  }

  /** The receiver finds at most one content. */
  lemma ContentUnique(body: Bytes, boundary: Bytes, content: Bytes, content': Bytes)
    requires IsContent(body, boundary, content) && IsContent(body, boundary, content')
    ensures content == content'
  {
    var blank: nat, end: nat :| IsPart(body, boundary, blank, end) && content == body[blank + 4..end];
    var blank': nat, end': nat :| IsPart(body, boundary, blank', end') && content' == body[blank' + 4..end'];
    FirstUnique(body, BLANK, 0, blank, blank');
    FirstUnique(body, Delimiter(boundary), blank + 4, end, end');
  }
}
