/** Byte strings, decimal numbers and the few text operations the programs share.

    A byte is written as the character with its code, so that wire text can be given as
    literals; nothing below depends on characters being smaller than 256. */
module Text {

  type Bytes = string

  datatype Option<+T> = None | Some(value: T)

  const CRLF: Bytes := "\r\n"

  /** `needle in text` of Python. */
  predicate Contains(text: Bytes, needle: Bytes)
  {
    exists i | 0 <= i <= |text| - |needle| :: OccursAt(text, needle, i)
  }

  predicate OccursAt(text: Bytes, needle: Bytes, i: nat)
  {
    i + |needle| <= |text| && text[i..i + |needle|] == needle
  }

  predicate EndsWith(text: Bytes, suffix: Bytes)
  {
    |suffix| <= |text| && text[|text| - |suffix|..] == suffix
  }

  /** `i` is the first place from `from` on at which `needle` occurs. */
  ghost predicate FirstAt(text: Bytes, needle: Bytes, from: nat, i: nat)
  {
    from <= i && OccursAt(text, needle, i) && forall j: nat | from <= j < i :: !OccursAt(text, needle, j)
  }

  /** The position of the first `c`, or the length of the text when there is none. */
  function IndexOf(text: Bytes, c: char): (i: nat)
    ensures i <= |text| && c !in text[..i]
    ensures i < |text| ==> text[i] == c
  {
    if text == [] || text[0] == c then 0 else 1 + IndexOf(text[1..], c)
  }

  lemma {:induction false} IndexOfFirst(text: Bytes, c: char, i: nat)
    requires i < |text| && text[i] == c && c !in text[..i]
    ensures IndexOf(text, c) == i
  {
    if i > 0 {
      assert text[0] == text[..i][0];
      assert text[1..][..i - 1] == text[..i][1..];
      IndexOfFirst(text[1..], c, i - 1);
    }
  }

  lemma {:induction false} IndexOfAtMost(text: Bytes, c: char, k: nat)
    requires k < |text| && text[k] == c
    ensures IndexOf(text, c) <= k
  {
    if text[0] != c {
      IndexOfAtMost(text[1..], c, k - 1);
    }
  }

  /** `w` stands somewhere in `t`. */
  ghost predicate HasWord(t: Bytes, w: Bytes)
  {
    exists p: Bytes, q: Bytes :: t == p + w + q
  }

  lemma ContainsIff(t: Bytes, w: Bytes)
    ensures Contains(t, w) <==> HasWord(t, w)
  {
    if Contains(t, w) {
      var i :| 0 <= i <= |t| - |w| && OccursAt(t, w, i);
      assert t == t[..i] + w + t[i + |w|..];
    }
    if HasWord(t, w) {
      var p: Bytes, q: Bytes :| t == p + w + q;
      assert OccursAt(t, w, |p|);
    }
  }

  lemma EndsWithIff(t: Bytes, w: Bytes)
    ensures EndsWith(t, w) <==> exists p: Bytes :: t == p + w
  {
    if EndsWith(t, w) {
      assert t == t[..|t| - |w|] + w;
    }
  }

  // ---- decimal numbers ------------------------------------------------------------------------------

  predicate IsDigit(c: char) { '0' <= c <= '9' }

  function DigitValue(c: char): nat
    requires IsDigit(c)
  {
    c as int - '0' as int
  }

  function DigitChar(d: nat): (c: char)
    requires d < 10
    ensures IsDigit(c) && DigitValue(c) == d
  {
    ('0' as int + d) as char
  }

  function DecimalNat(n: nat): (s: Bytes)
    ensures s != [] && forall i | 0 <= i < |s| :: IsDigit(s[i])
  {
    if n < 10 then [DigitChar(n)] else DecimalNat(n / 10) + [DigitChar(n % 10)]
  }

  /** `%d` formatting. */
  function Decimal(n: int): (s: Bytes)
    ensures s != [] && forall i | 0 <= i < |s| :: IsDigit(s[i]) || s[i] == '-'
  {
    if n < 0 then "-" + DecimalNat(-n) else DecimalNat(n)
  }

  predicate IsSpace(c: char) { c == ' ' || '\t' <= c <= '\r' }

  function StripLeft(s: Bytes): Bytes
  {
    if s != [] && IsSpace(s[0]) then StripLeft(s[1..]) else s
  }

  function StripRight(s: Bytes): Bytes
  {
    if s != [] && IsSpace(s[|s| - 1]) then StripRight(s[..|s| - 1]) else s
  }

  /** Digits with optional single underscores between them, as `int()` reads them. */
  function ParseDigits(s: Bytes): Option<nat>
  {
    if s == [] || !IsDigit(s[|s| - 1]) then None
    else
      var d := DigitValue(s[|s| - 1]);
      if |s| == 1 then Some(d)
      else
        var front := if s[|s| - 2] == '_' then s[..|s| - 2] else s[..|s| - 1];
        match ParseDigits(front)
        case None => None
        case Some(v) => Some(10 * v + d)
  }

  /** `int(s)` of Python in base ten; None is its ValueError. */
  function PyInt(s: Bytes): Option<int>
  {
    var t := StripRight(StripLeft(s));
    if t == [] then None
    else if t[0] == '-' then
      match ParseDigits(t[1..])
      case None => None
      case Some(v) => Some(-(v as int))
    else
      match ParseDigits(if t[0] == '+' then t[1..] else t)
      case None => None
      case Some(v) => Some(v)
  }

  lemma {:induction false} ParseDecimalNat(n: nat)
    ensures ParseDigits(DecimalNat(n)) == Some(n)
  {
    if n >= 10 {
      ParseDecimalNat(n / 10);
      var front := DecimalNat(n / 10);
      var s := DecimalNat(n);
      assert s == front + [DigitChar(n % 10)] && s[..|s| - 1] == front;
      assert s[|s| - 2] == front[|front| - 1];
    }
  }

  lemma StrippedAlready(s: Bytes)
    requires s != [] && !IsSpace(s[0]) && !IsSpace(s[|s| - 1])
    ensures StripRight(StripLeft(s)) == s
  {
  }

  lemma {:induction false} ParsePrefix(n: nat, j: nat) returns (v: nat)
    requires 0 < j <= |DecimalNat(n)|
    ensures ParseDigits(DecimalNat(n)[..j]) == Some(v)
    ensures v <= n && (v == n <==> j == |DecimalNat(n)|) && (n >= 1 ==> v >= 1)
  {
    var s := DecimalNat(n);
    if j == |s| {
      assert s[..j] == s;
      ParseDecimalNat(n);
      v := n;
    } else {
      assert n >= 10 && s[..j] == DecimalNat(n / 10)[..j];
      v := ParsePrefix(n / 10, j);
    }
  }

  lemma PyIntDigits(n: nat, j: nat) returns (v: nat)
    requires 0 < j <= |DecimalNat(n)|
    ensures PyInt(DecimalNat(n)[..j]) == Some(v)
    ensures v <= n && (v == n <==> j == |DecimalNat(n)|) && (n >= 1 ==> v >= 1)
  {
    var t := DecimalNat(n)[..j];
    assert IsDigit(t[0]) && IsDigit(t[j - 1]);
    StrippedAlready(t);
    v := ParsePrefix(n, j);
  }

  lemma PyIntMinus(n: nat, j: nat)
    requires j <= |DecimalNat(n)|
    ensures PyInt("-" + DecimalNat(n)[..j])
         == if j == 0 then None
            else match ParseDigits(DecimalNat(n)[..j]) case None => None case Some(v) => Some(-(v as int))
  {
    var t := "-" + DecimalNat(n)[..j];
    assert t[1..] == DecimalNat(n)[..j];
    assert IsDigit(t[|t| - 1]) || t == "-";
    StrippedAlready(t);
  }

  lemma PyIntNegative(n: nat, j: nat)
    requires n > 0 && j <= |DecimalNat(n)|
    ensures var t := ("-" + DecimalNat(n))[..j + 1];
            if j == 0 then PyInt(t) == None
            else PyInt(t).Some? && PyInt(t).value < 0 && (PyInt(t).value == -(n as int) <==> j == |DecimalNat(n)|)
  {
    assert ("-" + DecimalNat(n))[..j + 1] == "-" + DecimalNat(n)[..j];
    PyIntMinus(n, j);
    if j > 0 { var v := ParsePrefix(n, j); }
  }

  /** The first digits of a number are a number, the right one only if they are all. */
  lemma PyIntPrefix(n: int, j: nat)
    requires j <= |Decimal(n)|
    ensures var t := Decimal(n)[..j];
            && (PyInt(t).Some? <==> j >= if n < 0 then 2 else 1)
            && (PyInt(t).Some? ==>
                  && (PyInt(t).value == n <==> j == |Decimal(n)|)
                  && (n >= 0 ==> PyInt(t).value >= 0) && (n >= 1 ==> PyInt(t).value >= 1)
                  && (n < 0 ==> PyInt(t).value < 0))
  {
    if j == 0 {
      assert Decimal(n)[..j] == [];
    } else if n >= 0 {
      var v := PyIntDigits(n, j);
    } else {
      var m: nat := -n;
      assert Decimal(n) == "-" + DecimalNat(m) && |Decimal(n)| == 1 + |DecimalNat(m)|;
      PyIntNegative(m, j - 1);
      assert Decimal(n)[..j] == ("-" + DecimalNat(m))[..(j - 1) + 1];
    }
  }

  /** Reading back a printed number gives the number, whatever its sign. */
  lemma PyIntDecimal(n: int)
    ensures PyInt(Decimal(n)) == Some(n)
  {
    PyIntPrefix(n, |Decimal(n)|);
    assert Decimal(n)[..|Decimal(n)|] == Decimal(n);
    if n < 0 { assert Decimal(n) == "-" + DecimalNat(-n); }
  }

  // ---- what is printed and what is read ----------------------------------------------------------------

  /** Base ten: one digit for what is below ten, and one more digit for ten times as much. */
  lemma DecimalIsBaseTen(n: nat, d: nat)
    requires d < 10
    ensures DecimalNat(d) == ["0123456789"[d]]
    ensures n > 0 ==> DecimalNat(10 * n + d) == DecimalNat(n) + ["0123456789"[d]]
  {
    assert (10 * n + d) / 10 == n && (10 * n + d) % 10 == d;
    assert DigitChar(d) == "0123456789"[d];
  }

  lemma {:induction false} DecimalSign(n: int)
    ensures n < 0 ==> Decimal(n) == "-" + Decimal(-n)
    ensures n >= 0 ==> |Decimal(n)| > 0 && Decimal(n)[0] in "0123456789"
    decreases if n < 0 then 0 else n
  {
    if n >= 10 { DecimalSign(n / 10); }
  }

  /** Digits, single underscores between them allowed. */
  predicate Numeral(s: Bytes)
  {
    && s != [] && s[0] in "0123456789" && s[|s| - 1] in "0123456789"
    && (forall i | 0 <= i < |s| :: s[i] in "0123456789_")
    && (forall i | 0 < i < |s| :: s[i] == '_' ==> s[i - 1] != '_')
  }

  lemma DigitIff(c: char)
    ensures IsDigit(c) <==> c in "0123456789"
    ensures IsDigit(c) ==> "0123456789"[DigitValue(c)] == c
  {
    if IsDigit(c) {
      var d := DigitValue(c);
      assert DigitChar(d) == c && "0123456789"[d] == c;
    }
  }

  /** All of a numeral but its last digit, and the underscore in front of that. */
  function NumeralFront(s: Bytes): Bytes
    requires |s| >= 2
  {
    if s[|s| - 2] == '_' then s[..|s| - 2] else s[..|s| - 1]
  }

  lemma NumeralExtends(s: Bytes)
    requires |s| >= 2 && s[|s| - 1] in "0123456789" && Numeral(NumeralFront(s))
    ensures Numeral(s)
  {
    var front, n := NumeralFront(s), |s|;
    var k := |front|;
    assert forall i | 0 <= i < k :: s[i] == front[i];
    forall i | 0 <= i < n ensures s[i] in "0123456789_" && (i > 0 && s[i] == '_' ==> s[i - 1] != '_') {
      assert i == k ==> s[i - 1] == front[k - 1];
    }
  }

  lemma NumeralShrinks(s: Bytes)
    requires |s| >= 2 && Numeral(s)
    ensures Numeral(NumeralFront(s))
  {
    var front, n := NumeralFront(s), |s|;
    var k := |front|;
    assert s[0] != '_';
    assert s[k - 1] != '_' && s[k - 1] in "0123456789_";
    assert forall i | 0 <= i < k :: front[i] == s[i];
  }

  /** The numerals and nothing else can be read. */
  lemma {:induction false} ParseDigitsIff(s: Bytes)
    ensures ParseDigits(s).Some? <==> Numeral(s)
    decreases |s|
  {
    if s != [] {
      DigitIff(s[|s| - 1]);
      if |s| >= 2 && IsDigit(s[|s| - 1]) {
        ParseDigitsIff(NumeralFront(s));
        if Numeral(s) { NumeralShrinks(s); }
        if Numeral(NumeralFront(s)) { NumeralExtends(s); }
      }
    }
  }

  lemma DigitOf(d: nat)
    requires d < 10
    ensures var c := "0123456789"[d]; IsDigit(c) && DigitValue(c) == d
  {
    assert DigitChar(d) == "0123456789"[d];
  }

  lemma NotUnderscore(s: Bytes)
    requires Numeral(s)
    ensures s[|s| - 1] != '_'
  {
  }

  /** A further digit counts once, and what stands before it ten times. */
  lemma ParseNextDigit(s: Bytes, d: nat)
    requires Numeral(s) && d < 10
    ensures ParseDigits(["0123456789"[d]]) == Some(d)
    ensures ParseDigits(s).Some?
    ensures ParseDigits(s + ["0123456789"[d]]) == Some(10 * ParseDigits(s).value + d)
  {
    ParseDigitsIff(s);
    DigitOf(d);
    NotUnderscore(s);
    NextDigit(s, "0123456789"[d], d);
  }

  lemma NextDigit(s: Bytes, c: char, d: nat)
    requires s != [] && s[|s| - 1] != '_' && ParseDigits(s).Some? && IsDigit(c) && DigitValue(c) == d
    ensures ParseDigits([c]) == Some(d) && ParseDigits(s + [c]) == Some(10 * ParseDigits(s).value + d)
  {
    var t := s + [c];
    assert t[..|t| - 1] == s && t[|t| - 1] == c && t[|t| - 2] == s[|s| - 1];
  }

  /** An underscore between them counts nothing. */
  lemma ParseUnderscore(s: Bytes, d: nat)
    requires Numeral(s) && d < 10
    ensures ParseDigits(s + "_" + ["0123456789"[d]]) == ParseDigits(s + ["0123456789"[d]])
  {
    ParseNextDigit(s, d);
    DigitOf(d);
    var c := "0123456789"[d];
    var u := s + "_" + [c];
    assert u[..|u| - 2] == s && u[|u| - 2] == '_' && u[|u| - 1] == c;
  }

  /** Blanks, and the other characters that Python strips. */
  predicate Blank(s: Bytes)
  {
    forall i | 0 <= i < |s| :: s[i] as int in {9, 10, 11, 12, 13, 32}
  }

  lemma SpaceIff(c: char)
    ensures IsSpace(c) <==> c as int in {9, 10, 11, 12, 13, 32}
  {
  }

  lemma {:induction false} StripLeftOf(a: Bytes, s: Bytes)
    requires Blank(a) && s != [] && !IsSpace(s[0])
    ensures StripLeft(a + s) == s
  {
    if a == [] {
      assert a + s == s;
    } else {
      SpaceIff(a[0]);
      assert (a + s)[1..] == a[1..] + s;
      StripLeftOf(a[1..], s);
    }
  }

  lemma {:induction false} StripRightOf(s: Bytes, b: Bytes)
    requires Blank(b) && s != [] && !IsSpace(s[|s| - 1])
    ensures StripRight(s + b) == s
    decreases |b|
  {
    if b == [] {
      assert s + b == s;
    } else {
      SpaceIff(b[|b| - 1]);
      assert (s + b)[..|s + b| - 1] == s + b[..|b| - 1];
      StripRightOf(s, b[..|b| - 1]);
    }
  }

  lemma Stripped(a: Bytes, s: Bytes, b: Bytes)
    requires Blank(a) && Blank(b) && s != [] && !IsSpace(s[0]) && !IsSpace(s[|s| - 1])
    ensures StripRight(StripLeft(a + s + b)) == s
  {
    assert a + s + b == a + (s + b) && (s + b)[0] == s[0];
    StripLeftOf(a, s + b);
    StripRightOf(s, b);
  }

  /** `int()` reads a numeral with a sign or none, and blanks around it. */
  lemma PyIntReads(a: Bytes, sign: Bytes, numeral: Bytes, b: Bytes)
    requires Blank(a) && Blank(b) && sign in {"", "+", "-"} && Numeral(numeral)
    ensures ParseDigits(numeral).Some?
    ensures PyInt(a + (sign + numeral) + b)
         == Some(if sign == "-" then -(ParseDigits(numeral).value as int) else ParseDigits(numeral).value)
  {
    ParseDigitsIff(numeral);
    SignedEnds(sign, numeral);
    Stripped(a, sign + numeral, b);
    DigitIff(numeral[0]);
    ReadSigned(a + (sign + numeral) + b, sign, numeral);
  }

  lemma SignedEnds(sign: Bytes, numeral: Bytes)
    requires sign in {"", "+", "-"} && Numeral(numeral)
    ensures var t := sign + numeral; t != [] && !IsSpace(t[0]) && !IsSpace(t[|t| - 1])
  {
    var t := sign + numeral;
    DigitIff(numeral[0]);
    DigitIff(numeral[|numeral| - 1]);
    assert t[|t| - 1] == numeral[|numeral| - 1];
    assert t[0] == if sign == "" then numeral[0] else sign[0];
  }

  lemma ReadSigned(s: Bytes, sign: Bytes, numeral: Bytes)
    requires StripRight(StripLeft(s)) == sign + numeral && sign in {"", "+", "-"}
    requires numeral != [] && IsDigit(numeral[0]) && ParseDigits(numeral).Some?
    ensures PyInt(s)
         == Some(if sign == "-" then -(ParseDigits(numeral).value as int) else ParseDigits(numeral).value)
  {
    var t := sign + numeral;
    SignedParts(sign, numeral);
  }

  lemma SignedParts(sign: Bytes, numeral: Bytes)
    requires sign in {"", "+", "-"} && numeral != []
    ensures var t := sign + numeral;
            && t != [] && (sign == "" ==> t == numeral)
            && (sign != "" ==> t[1..] == numeral && t[0] == sign[0])
  {
  }

  lemma BlankMore(c: char, a: Bytes)
    requires IsSpace(c) && Blank(a)
    ensures Blank([c] + a)
  {
    SpaceIff(c);
  }

  lemma FrontMore(s: Bytes, a: Bytes, b: Bytes)
    requires s != [] && s[1..] == a + b
    ensures s == [s[0]] + a + b
  {
    assert s == [s[0]] + (a + b);
  }

  lemma {:induction false} StripLeftSplits(s: Bytes) returns (a: Bytes)
    ensures Blank(a) && s == a + StripLeft(s)
  {
    if s != [] && IsSpace(s[0]) {
      var others := StripLeftSplits(s[1..]);
      BlankMore(s[0], others);
      a := [s[0]] + others;
      FrontMore(s, others, StripLeft(s[1..]));
    } else {
      a := [];
    }
  }

  lemma {:induction false} StripRightSplits(s: Bytes) returns (b: Bytes)
    ensures Blank(b) && s == StripRight(s) + b
    decreases |s|
  {
    if s != [] && IsSpace(s[|s| - 1]) {
      SpaceIff(s[|s| - 1]);
      b := StripRightSplits(s[..|s| - 1]);
      assert s == s[..|s| - 1] + [s[|s| - 1]];
      b := b + [s[|s| - 1]];
    } else {
      b := [];
    }
  }

  /** And nothing else. */
  lemma PyIntOnlyReads(s: Bytes) returns (a: Bytes, sign: Bytes, numeral: Bytes, b: Bytes)
    requires PyInt(s).Some?
    ensures s == a + (sign + numeral) + b && Blank(a) && Blank(b) && sign in {"", "+", "-"} && Numeral(numeral)
  {
    a := StripLeftSplits(s);
    b := StripRightSplits(StripLeft(s));
    sign, numeral := SignSplits(StripRight(StripLeft(s)));
    ParseDigitsIff(numeral);
  }

  lemma SignSplits(t: Bytes) returns (sign: Bytes, numeral: Bytes)
    requires t != [] && ParseDigits(if t[0] == '-' || t[0] == '+' then t[1..] else t).Some?
    ensures t == sign + numeral && sign in {"", "+", "-"} && ParseDigits(numeral).Some?
  {
    sign := if t[0] == '-' then "-" else if t[0] == '+' then "+" else "";
    numeral := if sign == "" then t else t[1..];
  }
}
