/**
 The few Python string built-ins the link parser relies on: `str.strip()`,
 `str.splitlines()`, `int()` on a run of decimal digits and the decimal
 rendering of a non-negative integer in an f-string. Only the ASCII part of
 Python's character classes is modelled.
 */
module PyText {

  /** `str.isspace()` on ASCII: space, \t \n \v \f \r and the separators \x1c..\x1f. */
  predicate IsSpace(c: char) {
    c == ' ' || ('\t' <= c <= '\r') || ('\U{1C}' <= c <= '\U{1F}')
  }

  /** The regular-expression class `\d`, ASCII only. */
  predicate IsDigit(c: char) {
    '0' <= c <= '9'
  }

  /** Line boundaries of `str.splitlines()` on ASCII: \n \r \v \f \x1c \x1d \x1e
      (a \r immediately followed by \n is one boundary). */
  predicate IsLineBreak(c: char) {
    c == '\n' || c == '\r' || c == '\U{B}' || c == '\U{C}' || ('\U{1C}' <= c <= '\U{1E}')
  }

  predicate IsBlank(s: string) {
    forall i | 0 <= i < |s| :: IsSpace(s[i])
  }

  predicate AllDigits(s: string) {
    forall i | 0 <= i < |s| :: IsDigit(s[i])
  }

  predicate NoLineBreak(s: string) {
    forall i | 0 <= i < |s| :: !IsLineBreak(s[i])
  }

  // ---------------------------------------------------------------------------
  // str.strip()

  /** The index of the first non-whitespace character at or after `i`, or `|s|`. */
  function SkipSpace(s: string, i: nat): (j: nat)
    requires i <= |s|
    ensures i <= j <= |s|
    ensures forall k | i <= k < j :: IsSpace(s[k])
    ensures j < |s| ==> !IsSpace(s[j])
    decreases |s| - i
  {
    if i < |s| && IsSpace(s[i]) then SkipSpace(s, i + 1) else i
  }

  /** The end of `s[i..j]` once its trailing whitespace is dropped. */
  function TrimEnd(s: string, i: nat, j: nat): (k: nat)
    requires i <= j <= |s|
    ensures i <= k <= j
    ensures forall m | k <= m < j :: IsSpace(s[m])
    ensures i < k ==> !IsSpace(s[k - 1])
    decreases j - i
  {
    if i < j && IsSpace(s[j - 1]) then TrimEnd(s, i, j - 1) else j
  }

  /** `s.strip()`: the text without its leading and trailing whitespace. */
  function Strip(s: string): (r: string)
    ensures r != [] ==> !IsSpace(r[0]) && !IsSpace(r[|r| - 1])
    ensures r == [] <==> IsBlank(s)
    ensures s == [] || (!IsSpace(s[0]) && !IsSpace(s[|s| - 1])) ==> r == s
  {
    var i := SkipSpace(s, 0);
    var j := TrimEnd(s, i, |s|);
    assert j == i ==> IsBlank(s);
    assert s != [] && !IsSpace(s[0]) && !IsSpace(s[|s| - 1]) ==> i == 0 && j == |s|;
    s[i..j]
  }

  /** `r` is the part of `s` from `i` on, with only whitespace before and after it. */
  predicate TrimmedAt(s: string, r: string, i: nat) {
    i + |r| <= |s| && r == s[i..i + |r|] &&
    (forall k | 0 <= k < i :: IsSpace(s[k])) &&
    (forall k | i + |r| <= k < |s| :: IsSpace(s[k]))
  }

  /** Together with the ends `Strip` promises, this fixes its value: the
      stripped text is the part of `s` between a whitespace-only prefix and a
      whitespace-only suffix. */
  lemma StripTrims(s: string)
    ensures exists i :: TrimmedAt(s, Strip(s), i)
  {
    var i := SkipSpace(s, 0);
    var j := TrimEnd(s, i, |s|);
    assert TrimmedAt(s, Strip(s), i);
  }

  /** Stripping keeps a contiguous part of the text, so it adds no character,
      and stripping twice changes nothing. */
  lemma StrippedPart(s: string)
    ensures forall k | 0 <= k < |Strip(s)| :: Strip(s)[k] in s
    ensures Strip(Strip(s)) == Strip(s)
  {
    var r := Strip(s);
    StripTrims(s);
    var i: nat :| TrimmedAt(s, r, i);
    forall k | 0 <= k < |r|
      ensures r[k] in s
    {
      assert r[k] == s[i + k];
    }
    assert r == [] || (!IsSpace(r[0]) && !IsSpace(r[|r| - 1]));
  }

  /** Whitespace around a text that starts and ends with non-whitespace is
      exactly what stripping removes. */
  lemma StripAround(lead: string, x: string, trail: string)
    requires IsBlank(lead) && IsBlank(trail)
    requires x != [] && !IsSpace(x[0]) && !IsSpace(x[|x| - 1])
    ensures Strip(lead + x + trail) == x
  {
    var s := lead + x + trail;
    var r := Strip(s);
    assert s[|lead|] == x[0];
    assert s[|lead| + |x| - 1] == x[|x| - 1];
    StripTrims(s);
    var i: nat :| TrimmedAt(s, r, i);
    assert r != [];
    assert s[i] == r[0];
    assert s[i + |r| - 1] == r[|r| - 1];
    assert i == |lead|;
    assert i + |r| == |lead| + |x|;
    assert s[|lead|..|lead| + |x|] == x;
  }

  // ---------------------------------------------------------------------------
  // str.splitlines()

  /** The index of the first line boundary at or after `i`, or `|s|`. */
  function LineEnd(s: string, i: nat): (j: nat)
    requires i <= |s|
    ensures i <= j <= |s|
    ensures forall k | i <= k < j :: !IsLineBreak(s[k])
    ensures j < |s| ==> IsLineBreak(s[j])
    decreases |s| - i
  {
    if i == |s| || IsLineBreak(s[i]) then i else LineEnd(s, i + 1)
  }

  /** `s.splitlines()`: the lines of `s` without their boundaries; a final
      boundary does not open an empty last line, and "" has no lines. */
  function SplitLines(s: string): (lines: seq<string>)
    ensures forall k | 0 <= k < |lines| :: NoLineBreak(lines[k])
    decreases |s|
  {
    if s == [] then []
    else
      var j := LineEnd(s, 0);
      if j == |s| then [s]
      else
        var next := if s[j] == '\r' && j + 1 < |s| && s[j + 1] == '\n' then j + 2 else j + 1;
        [s[..j]] + SplitLines(s[next..])
  }

  /** `"\n".join(lines)`. */
  function JoinLines(lines: seq<string>): string {
    if lines == [] then ""
    else if |lines| == 1 then lines[0]
    else lines[0] + "\n" + JoinLines(lines[1..])
  }

  /** Splitting undoes joining with "\n", as long as no line holds a boundary
      of its own and the last line is not empty. */
  lemma {:induction false} SplitLinesJoinLines(lines: seq<string>)
    requires lines != [] && lines[|lines| - 1] != []
    requires forall k | 0 <= k < |lines| :: NoLineBreak(lines[k])
    ensures SplitLines(JoinLines(lines)) == lines
  {
    var a := lines[0];
    if |lines| == 1 {
      LineEndAt(a, 0, |a|);
    } else {
      var rest := JoinLines(lines[1..]);
      var s := a + "\n" + rest;
      LineEndAt(s, 0, |a|);
      assert s[..|a|] == a;
      assert s[|a| + 1..] == rest;
      SplitLinesJoinLines(lines[1..]);
    }
  }

  /** What `str.splitlines()` accepts between two lines: "\r\n", or one
      boundary character. */
  predicate IsSeparator(sep: string) {
    sep == "\r\n" || (|sep| == 1 && IsLineBreak(sep[0]))
  }

  /** The lines joined, the k-th separator standing between line k and line k + 1. */
  function JoinWith(lines: seq<string>, seps: seq<string>): (s: string)
    requires lines != [] && |seps| == |lines| - 1
    ensures lines[0] != [] ==> s != [] && s[0] == lines[0][0]
  {
    if |lines| == 1 then lines[0] else lines[0] + seps[0] + JoinWith(lines[1..], seps[1..])
  }

  /** Splitting undoes joining with any mix of separators, as long as no line
      holds a boundary of its own, the last line is not empty, and a lone "\r"
      is not followed by an empty line (the "\r" would then pair with the
      next separator's "\n"). */
  lemma {:induction false} SplitLinesJoinWith(lines: seq<string>, seps: seq<string>)
    requires lines != [] && |seps| == |lines| - 1 && lines[|lines| - 1] != []
    requires forall k | 0 <= k < |lines| :: NoLineBreak(lines[k])
    requires forall k | 0 <= k < |seps| :: IsSeparator(seps[k])
    requires forall k | 0 <= k < |seps| :: seps[k] == "\r" ==> lines[k + 1] != []
    ensures SplitLines(JoinWith(lines, seps)) == lines
  {
    var a := lines[0];
    if |lines| == 1 {
      LineEndAt(a, 0, |a|);
    } else {
      var sep := seps[0];
      var rest := JoinWith(lines[1..], seps[1..]);
      var s := a + sep + rest;
      assert s == JoinWith(lines, seps);
      assert s[|a|] == sep[0];
      LineEndAt(s, 0, |a|);
      assert s[..|a|] == a;
      if sep == "\r\n" {
        assert s[|a| + 1] == '\n';
      } else if sep == "\r" {
        assert lines[1] != [] && !IsLineBreak(lines[1][0]);
        assert s[|a| + 1] == rest[0] == lines[1][0];
      }
      assert s[|a| + |sep|..] == rest;
      SplitLinesJoinWith(lines[1..], seps[1..]);
    }
  }

  /** LineEnd stops at the first boundary after a break-free stretch. */
  lemma {:induction false} LineEndAt(s: string, i: nat, j: nat)
    requires i <= j <= |s|
    requires forall k | i <= k < j :: !IsLineBreak(s[k])
    requires j == |s| || IsLineBreak(s[j])
    ensures LineEnd(s, i) == j
    decreases j - i
  {
    if i < j {
      LineEndAt(s, i + 1, j);
    }
  }

  // ---------------------------------------------------------------------------
  // int() and str() on non-negative integers

  function DigitValue(c: char): (d: nat)
    requires IsDigit(c)
    ensures d < 10
  {
    (c as int) - ('0' as int)
  }

  function DigitChar(d: nat): (c: char)
    requires d < 10
    ensures IsDigit(c) && DigitValue(c) == d
  {
    ((d + '0' as int) as char)
  }

  function Pow10(k: nat): (p: nat)
    ensures p >= 1
  {
    if k == 0 then 1 else 10 * Pow10(k - 1)
  }

  /** `int(s)` for a string of decimal digits: below 10 to the number of digits. */
  function Value(s: string): (n: nat)
    requires AllDigits(s)
    ensures n < Pow10(|s|)
  {
    if s == [] then 0 else 10 * Value(s[..|s| - 1]) + DigitValue(s[|s| - 1])
  }

  /** `str(n)` (and `f"{n}"`) for a non-negative integer: decimal, no leading zeros. */
  function Decimal(n: nat): (s: string)
    ensures s != [] && AllDigits(s)
    ensures |s| > 1 ==> s[0] != '0'
  {
    if n < 10 then [DigitChar(n)] else Decimal(n / 10) + [DigitChar(n % 10)]
  }

  /** Reading back a rendered integer gives the integer. */
  lemma {:induction false} ValueDecimal(n: nat)
    ensures Value(Decimal(n)) == n
  {
    if n >= 10 {
      var s := Decimal(n);
      assert s[..|s| - 1] == Decimal(n / 10);
      ValueDecimal(n / 10);
    }
  }

  /** Rendering is one-to-one. */
  lemma DecimalInjective(m: nat, n: nat)
    requires Decimal(m) == Decimal(n)
    ensures m == n
  {
    ValueDecimal(m);
    ValueDecimal(n);
  }

  /** `int()` ignores leading zeros. */
  lemma {:induction false} ValueLeadingZeros(zeros: string, s: string)
    requires forall i | 0 <= i < |zeros| :: zeros[i] == '0'
    requires AllDigits(s)
    ensures AllDigits(zeros + s) && Value(zeros + s) == Value(s)
  {
    if s == [] {
      assert zeros + s == zeros;
      ZerosValue(zeros);
    } else {
      var t := zeros + s;
      assert t[..|t| - 1] == zeros + s[..|s| - 1];
      ValueLeadingZeros(zeros, s[..|s| - 1]);
    }
  }

  lemma {:induction false} ZerosValue(zeros: string)
    requires forall i | 0 <= i < |zeros| :: zeros[i] == '0'
    ensures AllDigits(zeros) && Value(zeros) == 0
  {
    if zeros != [] {
      ZerosValue(zeros[..|zeros| - 1]);
    }
  }
}
