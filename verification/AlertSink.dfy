/** The alert sink: received count, latest summary, and the log that trims itself. */
module AlertSink {
  import opened Text

  datatype Alert = Alert(name: Option<string>, status: Option<string>)

  /** `alertname:status`, with `unknown` for what is missing. */
  function Summary(a: Alert): string
  {
    (match a.name case Some(n) => n case None => "unknown") + ":"
    + (match a.status case Some(s) => s case None => "unknown")
  }

  lemma SummaryIs(name: string, status: string)
    ensures Summary(Alert(Some(name), Some(status))) == name + ":" + status
    ensures Summary(Alert(None, Some(status))) == "unknown:" + status
    ensures Summary(Alert(Some(name), None)) == name + ":unknown"
    ensures Summary(Alert(None, None)) == "unknown:unknown"
  {
  }

  function Summaries(alerts: seq<Alert>): (r: seq<string>)
    ensures |r| == |alerts| && forall i | 0 <= i < |alerts| :: r[i] == Summary(alerts[i])
  {
    seq(|alerts|, i requires 0 <= i < |alerts| => Summary(alerts[i]))
  }

  /** Python's `-maxBytes // 2`, a floor division. */
  function SeekOffset(maxBytes: int): int
  {
    (-maxBytes) / 2
  }

  /** `ceil(maxBytes / 2)`, and nothing for a limit below zero. */
  function Kept(maxBytes: int): nat
  {
    if maxBytes <= 0 then 0 else (maxBytes + 1) / 2
  }

  /** The larger half. */
  lemma KeptIs(maxBytes: nat)
    ensures maxBytes <= 2 * Kept(maxBytes) <= maxBytes + 1
  {
  }

  ghost predicate IsSuffix(suffix: Bytes, s: Bytes)
  {
    |suffix| <= |s| && suffix == s[|s| - |suffix|..]
  }

  function Newest(s: Bytes, n: nat): Bytes
  {
    if n >= |s| then s else s[|s| - n..]
  }

  // ---- specification: any sequence of deliveries ----------------------------------------------------

  /** A file over the limit is cut to its newest half before the line is appended. */
  function Delivered(contents: Bytes, line: Bytes, maxBytes: int): Bytes
  {
    (if |contents| > maxBytes then Newest(contents, Kept(maxBytes)) else contents) + (line + "\n")
  }

  function FileAfter(lines: seq<Bytes>, maxBytes: int): Bytes
  {
    if lines == [] then [] else Delivered(FileAfter(lines[..|lines| - 1], maxBytes), lines[|lines| - 1], maxBytes)
  }

  function HistoryAfter(lines: seq<Bytes>): Bytes
  {
    if lines == [] then [] else HistoryAfter(lines[..|lines| - 1]) + (lines[|lines| - 1] + "\n")
  }

  lemma SuffixAppend(suffix: Bytes, s: Bytes, more: Bytes)
    requires IsSuffix(suffix, s)
    ensures IsSuffix(suffix + more, s + more) && IsSuffix(more, suffix + more)
  {
    assert s == s[..|s| - |suffix|] + suffix;
    assert s + more == s[..|s| - |suffix|] + (suffix + more);
  }

  function Min(a: nat, b: nat): nat { if a < b then a else b }

  lemma CutIsSuffix(f: Bytes, h: Bytes, maxBytes: int)
    requires IsSuffix(f, h) && |f| >= Min(|h|, Kept(maxBytes))
    ensures var kept := if |f| > maxBytes then Newest(f, Kept(maxBytes)) else f;
            && IsSuffix(kept, h) && |kept| >= Min(|h|, Kept(maxBytes))
            && |kept| <= (if maxBytes < 0 then 0 else maxBytes)
  {
    var kept := if |f| > maxBytes then Newest(f, Kept(maxBytes)) else f;
    assert kept == h[|h| - |kept|..];
  }

  /** One delivery on a file that is a suffix of the history. */
  lemma DeliveredIsSuffix(f: Bytes, h: Bytes, line: Bytes, maxBytes: int)
    requires IsSuffix(f, h) && |f| >= Min(|h|, Kept(maxBytes))
    ensures var after, latest := Delivered(f, line, maxBytes), line + "\n";
            && IsSuffix(after, h + latest) && |after| >= Min(|h + latest|, Kept(maxBytes))
            && IsSuffix(latest, after) && |after| <= (if maxBytes < 0 then 0 else maxBytes) + |latest|
  {
    CutIsSuffix(f, h, maxBytes);
    AppendedIsSuffix(if |f| > maxBytes then Newest(f, Kept(maxBytes)) else f, h, line + "\n", Kept(maxBytes));
  }

  lemma AppendedIsSuffix(kept: Bytes, h: Bytes, latest: Bytes, half: nat)
    requires IsSuffix(kept, h) && |kept| >= Min(|h|, half)
    ensures IsSuffix(kept + latest, h + latest) && |kept + latest| >= Min(|h + latest|, half)
    ensures IsSuffix(latest, kept + latest)
  {
    SuffixAppend(kept, h, latest);
  }

  /** The log is always a suffix of everything delivered, ends with the whole latest line,
      and is bounded from both sides. */
  lemma {:induction false} BoundedSuffixLog(lines: seq<Bytes>, maxBytes: int)
    ensures var f, h := FileAfter(lines, maxBytes), HistoryAfter(lines);
            && IsSuffix(f, h)
            && (f == h || 2 * |f| >= maxBytes) && |f| >= Min(|h|, Kept(maxBytes))
            && (lines != [] ==>
                  (var latest := lines[|lines| - 1] + "\n";
                   IsSuffix(latest, f) && |f| <= (if maxBytes < 0 then 0 else maxBytes) + |latest|))
  {
    if lines != [] {
      var front, line := lines[..|lines| - 1], lines[|lines| - 1];
      BoundedSuffixLog(front, maxBytes);
      DeliveredIsSuffix(FileAfter(front, maxBytes), HistoryAfter(front), line, maxBytes);
    }
  }

  // ---- the sink -------------------------------------------------------------------------------------

  class Sink {
    const maxBytes: int
    var count: nat
    var last: seq<string>
    var file: Option<Bytes>

    // All alerts, and all lines, ever delivered.
    ghost var alerts: seq<Alert>
    ghost var lines: seq<Bytes>

    constructor (maxBytes: int)
      ensures Valid() && this.maxBytes == maxBytes && lines == [] && alerts == []
    {
      this.maxBytes := maxBytes;
      count, last, file, lines, alerts := 0, [], None, [], [];
    }

    function Contents(): Bytes
      reads this
    {
      match file
      case None => []
      case Some(bytes) => bytes
    }

    ghost predicate Valid()
      reads this
    {
      count == |alerts| && Contents() == FileAfter(lines, maxBytes)
    }

    /** One delivery: `line` is the JSON text of the payload, without a line end. */
    method Record(payload: seq<Alert>, line: Bytes)
      requires Valid()
      modifies this
      ensures Valid()
      ensures alerts == old(alerts) + payload && lines == old(lines) + [line]
      ensures last == Summaries(payload)
    {
      count := count + |payload|;
      last := Summaries(payload);
      if file.Some? && |file.value| > maxBytes {
        var tail := ReadTail(file.value);
        file := Some(tail);
      }
      file := Some(Contents() + (line + "\n"));
      assert (lines + [line])[..|lines|] == lines;
      lines, alerts := lines + [line], alerts + payload;
    }

    /** `seek(-maxBytes // 2, SEEK_END)` and `read()`: the rounding keeps the larger half,
        and a seek behind the end leaves nothing to read. */
    method ReadTail(bytes: Bytes) returns (tail: Bytes)
      requires |bytes| > maxBytes
      ensures tail == Newest(bytes, Kept(maxBytes))
    {
      var position := |bytes| + SeekOffset(maxBytes);
      tail := if position >= |bytes| then [] else bytes[position..];
    }
  }
}
