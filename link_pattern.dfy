/**
 A hand-written recogniser for the range pattern of main.py:52 and main.py:54,

     (HEAD[^\s/]+/)(\d+)-(\d+)

 where HEAD is the literal `https://t.me/` (public channels) or
 `https://t.me/c/` (private channels), together with `re.search`, which
 reports the leftmost position at which the pattern matches.
 */
module LinkPattern {
  import opened PyText

  datatype Option<T> = None | Some(value: T)

  /** The literal head of the pattern on main.py:52. */
  const PublicHead: string := "https://t.me/"
  /** The literal head of the pattern on main.py:54. */
  const PrivateHead: string := "https://t.me/c/"

  /** The class `[^\s\/]` of channel-name characters. */
  predicate IsNameChar(c: char) {
    !IsSpace(c) && c != '/'
  }

  predicate AllNameChars(s: string) {
    forall i | 0 <= i < |s| :: IsNameChar(s[i])
  }

  datatype CharClass = NameClass | DigitClass

  predicate InClass(cls: CharClass, c: char) {
    match cls
    case NameClass => IsNameChar(c)
    case DigitClass => IsDigit(c)
  }

  /** What a successful search returns: where the match starts, the channel
      name read by `[^\s/]+`, group(1) (the base URL: head, name and "/"), and
      the text of group(2) and group(3). */
  datatype RangeMatch = RangeMatch(pos: nat, name: string, base: string, first: string, last: string)

  /** The end of the longest run of `cls` characters starting at `i`: a greedy `+`
      of that class, before its at-least-one check. */
  function SpanEnd(cls: CharClass, s: string, i: nat): (j: nat)
    requires i <= |s|
    ensures i <= j <= |s|
    decreases |s| - i
  {
    if i < |s| && InClass(cls, s[i]) then SpanEnd(cls, s, i + 1) else i
  }

  /** The greedy run is a run of the class, and stops in front of a character
      outside it. */
  lemma {:induction false} SpanEndRun(cls: CharClass, s: string, i: nat)
    requires i <= |s|
    ensures forall k | i <= k < SpanEnd(cls, s, i) :: InClass(cls, s[k])
    ensures SpanEnd(cls, s, i) < |s| ==> !InClass(cls, s[SpanEnd(cls, s, i)])
    decreases |s| - i
  {
    if i < |s| && InClass(cls, s[i]) {
      SpanEndRun(cls, s, i + 1);
    }
  }

  /** `s` holds, from position `p` on, the text `head + name + "/" + first + "-" + last`
      that the pattern reads with these groups (with no condition on what follows). */
  predicate Occurs(head: string, s: string, p: nat, name: string, first: string, last: string) {
    var i := p + |head|;
    var n := i + |name|;
    var a := n + 1 + |first|;
    var e := a + 1 + |last|;
    |name| > 0 && |first| > 0 && |last| > 0 &&
    AllNameChars(name) && AllDigits(first) && AllDigits(last) && e <= |s| &&
    s[p..i] == head && s[i..n] == name && s[n] == '/' &&
    s[n + 1..a] == first && s[a] == '-' && s[a + 1..e] == last
  }

  /** The last `\d+` is greedy: the match does not stop in front of a digit. */
  predicate EndsGreedily(s: string, end: nat) {
    end >= |s| || !IsDigit(s[end])
  }

  /** The pattern with head `head`, tried at position `p` of `s`. Because the
      name class excludes "/" and the digit class excludes "-", backtracking can
      never shorten a run, so each greedy run is the only candidate. */
  function MatchAt(head: string, s: string, p: nat): (r: Option<RangeMatch>)
    ensures r.Some? ==> r.value.pos == p && r.value.name != [] && r.value.first != [] && r.value.last != []
    ensures r.Some? ==> p + |head| + |r.value.name| + 1 + |r.value.first| + 1 + |r.value.last| <= |s|
  {
    if p + |head| <= |s| && s[p..p + |head|] == head then
      var n := SpanEnd(NameClass, s, p + |head|);
      if n == p + |head| || n == |s| || s[n] != '/' then None
      else
        var a := SpanEnd(DigitClass, s, n + 1);
        if a == n + 1 || a == |s| || s[a] != '-' then None
        else
          var b := SpanEnd(DigitClass, s, a + 1);
          if b == a + 1 then None
          else
            Some(RangeMatch(p, s[p + |head|..n], s[p..n + 1], s[n + 1..a], s[a + 1..b]))
    else None
  }

  /** No match where the first digit run after the name is not followed by "-". */
  lemma NoDashAfterFirstId(head: string, s: string, p: nat, n: nat, a: nat)
    requires p + |head| <= |s| && n == SpanEnd(NameClass, s, p + |head|)
    requires n < |s| && s[n] == '/'
    requires a == SpanEnd(DigitClass, s, n + 1) && a < |s| && s[a] != '-'
    ensures MatchAt(head, s, p) == None
  {
  }

  /** Soundness: a match reads the pattern's text at `p`, with group(1) made of
      the head, the name and "/", and the last id not followed by a digit. */
  lemma MatchAtSound(head: string, s: string, p: nat)
    ensures MatchAt(head, s, p).Some? ==>
      var m := MatchAt(head, s, p).value;
      m.pos == p && m.base == head + m.name + "/" &&
      Occurs(head, s, p, m.name, m.first, m.last) &&
      EndsGreedily(s, p + |head| + |m.name| + 1 + |m.first| + 1 + |m.last|)
  {
    if MatchAt(head, s, p).Some? {
      var n := SpanEnd(NameClass, s, p + |head|);
      var a := SpanEnd(DigitClass, s, n + 1);
      var b := SpanEnd(DigitClass, s, a + 1);
      var m := MatchAt(head, s, p).value;
      assert m == RangeMatch(p, s[p + |head|..n], s[p..n + 1], s[n + 1..a], s[a + 1..b]);
      SpansSound(head, s, p, n, a, b);
    }
  }

  /** The three greedy runs MatchAt reads spell the pattern's text. */
  lemma SpansSound(head: string, s: string, p: nat, n: nat, a: nat, b: nat)
    requires p + |head| <= |s| && s[p..p + |head|] == head
    requires n == SpanEnd(NameClass, s, p + |head|) && p + |head| < n < |s| && s[n] == '/'
    requires a == SpanEnd(DigitClass, s, n + 1) && n + 1 < a < |s| && s[a] == '-'
    requires b == SpanEnd(DigitClass, s, a + 1) && a + 1 < b
    ensures s[p..n + 1] == head + s[p + |head|..n] + "/"
    ensures Occurs(head, s, p, s[p + |head|..n], s[n + 1..a], s[a + 1..b])
    ensures EndsGreedily(s, b)
  {
    SpanEndRun(NameClass, s, p + |head|);
    SpanEndRun(DigitClass, s, n + 1);
    SpanEndRun(DigitClass, s, a + 1);
    MatchAtFacts(head, s, p, n, a, b);
  }

  lemma MatchAtFacts(head: string, s: string, p: nat, n: nat, a: nat, b: nat)
    requires p + |head| < n && n + 1 < a && a + 1 < b <= |s|
    requires s[p..p + |head|] == head && s[n] == '/' && s[a] == '-'
    requires forall k | p + |head| <= k < n :: IsNameChar(s[k])
    requires forall k | n + 1 <= k < a :: IsDigit(s[k])
    requires forall k | a + 1 <= k < b :: IsDigit(s[k])
    ensures s[p..n + 1] == head + s[p + |head|..n] + "/"
    ensures Occurs(head, s, p, s[p + |head|..n], s[n + 1..a], s[a + 1..b])
  {
    BaseSlice(head, s, p, s[p + |head|..n], n);
  }

  /** A run of class characters ending before a non-class character is exactly
      the greedy run. */
  lemma {:induction false} SpanEndAt(cls: CharClass, s: string, i: nat, j: nat)
    requires i <= j <= |s|
    requires forall k | i <= k < j :: InClass(cls, s[k])
    requires j == |s| || !InClass(cls, s[j])
    ensures SpanEnd(cls, s, i) == j
    decreases j - i
  {
    if i < j {
      SpanEndAt(cls, s, i + 1, j);
    }
  }

  /** A run of class characters is never longer than the greedy run. */
  lemma {:induction false} SpanEndPast(cls: CharClass, s: string, i: nat, j: nat)
    requires i <= j <= |s|
    requires forall k | i <= k < j :: InClass(cls, s[k])
    ensures SpanEnd(cls, s, i) >= j
    decreases j - i
  {
    if i < j {
      SpanEndPast(cls, s, i + 1, j);
    }
  }

  /** MatchAt, read off from the ends of its three runs. */
  lemma MatchAtFromSpans(head: string, s: string, p: nat, n: nat, a: nat, b: nat)
    requires p + |head| <= |s| && s[p..p + |head|] == head
    requires SpanEnd(NameClass, s, p + |head|) == n && p + |head| < n < |s| && s[n] == '/'
    requires SpanEnd(DigitClass, s, n + 1) == a && n + 1 < a < |s| && s[a] == '-'
    requires SpanEnd(DigitClass, s, a + 1) == b && a + 1 < b
    ensures MatchAt(head, s, p) == Some(RangeMatch(p, s[p + |head|..n], s[p..n + 1], s[n + 1..a], s[a + 1..b]))
  {
  }

  /** Where the three runs of an occurrence end. */
  lemma OccurrenceSpans(head: string, s: string, p: nat, name: string, first: string, last: string)
    requires Occurs(head, s, p, name, first, last)
    ensures var n := p + |head| + |name|;
      var a := n + 1 + |first|;
      var e := a + 1 + |last|;
      SpanEnd(NameClass, s, p + |head|) == n &&
      SpanEnd(DigitClass, s, n + 1) == a &&
      SpanEnd(DigitClass, s, a + 1) >= e &&
      (EndsGreedily(s, e) ==> SpanEnd(DigitClass, s, a + 1) == e)
  {
    var i := p + |head|;
    var n := i + |name|;
    var a := n + 1 + |first|;
    var e := a + 1 + |last|;
    RunFromSlice(NameClass, s, i, name);
    RunFromSlice(DigitClass, s, n + 1, first);
    RunFromSlice(DigitClass, s, a + 1, last);
    SpanEndAt(NameClass, s, i, n);
    SpanEndAt(DigitClass, s, n + 1, a);
    SpanEndPast(DigitClass, s, a + 1, e);
    if EndsGreedily(s, e) {
      SpanEndAt(DigitClass, s, a + 1, e);
    }
  }

  /** The characters of `s` where `t` sits are those of `t`. */
  lemma RunFromSlice(cls: CharClass, s: string, i: nat, t: string)
    requires i + |t| <= |s| && s[i..i + |t|] == t
    requires forall k | 0 <= k < |t| :: InClass(cls, t[k])
    ensures forall k | i <= k < i + |t| :: InClass(cls, s[k])
  {
    forall k | i <= k < i + |t|
      ensures InClass(cls, s[k])
    {
      assert s[k] == t[k - i];
    }
  }

  /** group(1) spelled out. */
  lemma BaseSlice(head: string, s: string, p: nat, name: string, n: nat)
    requires p + |head| + |name| == n < |s|
    requires s[p..p + |head|] == head && s[p + |head|..n] == name && s[n] == '/'
    ensures s[p..n + 1] == head + name + "/"
  {
    assert s[p..n + 1] == s[p..p + |head|] + s[p + |head|..n] + [s[n]];
  }

  /** Completeness: wherever the pattern's text occurs, MatchAt finds it with the
      same base URL and first id; the last id is the greedy extension of the one
      given, and equal to it when no digit follows. */
  lemma MatchAtComplete(head: string, s: string, p: nat, name: string, first: string, last: string)
    requires Occurs(head, s, p, name, first, last)
    ensures MatchAt(head, s, p).Some?
    ensures var m := MatchAt(head, s, p).value;
      m.name == name && m.base == head + name + "/" && m.first == first &&
      |last| <= |m.last| && m.last[..|last|] == last
    ensures EndsGreedily(s, p + |head| + |name| + 1 + |first| + 1 + |last|) ==>
      MatchAt(head, s, p).value.last == last
  {
    var i := p + |head|;
    var n := i + |name|;
    var a := n + 1 + |first|;
    var e := a + 1 + |last|;
    OccurrenceSpans(head, s, p, name, first, last);
    var b := SpanEnd(DigitClass, s, a + 1);
    MatchAtFromSpans(head, s, p, n, a, b);
    BaseSlice(head, s, p, name, n);
    SliceOfSlice(s, a + 1, e, b);
  }

  lemma SliceOfSlice(s: string, x: nat, y: nat, z: nat)
    requires x <= y <= z <= |s|
    ensures s[x..z][..y - x] == s[x..y]
  {
  }

  /** Whether the pattern with head `head` matches at a position of `s`. */
  function Matches(head: string, s: string): nat -> bool {
    (q: nat) => MatchAt(head, s, q).Some?
  }

  /** The first position from `p` up to `limit` at which `found` holds. */
  function FirstFrom(found: nat -> bool, limit: nat, p: nat): Option<nat>
    requires p <= limit + 1
    decreases limit + 1 - p
  {
    if p > limit then None
    else if found(p) then Some(p)
    else FirstFrom(found, limit, p + 1)
  }

  /** `re.search(pattern, s)`: the match at the leftmost position where the
      pattern matches; Python tries every position up to and including `|s|`. */
  function Search(head: string, s: string): (r: Option<RangeMatch>)
    ensures r.Some? ==> r.value.name != [] && r.value.first != [] && r.value.last != []
    ensures r.Some? ==> r.value.pos + |head| + |r.value.name| + 1 + |r.value.first| + 1 + |r.value.last| <= |s|
  {
    match FirstFrom(Matches(head, s), |s|, 0)
    case None => None
    case Some(q) => MatchAt(head, s, q)
  }

  /** FirstFrom finds the least position at which `found` holds, and None
      exactly when it holds nowhere in range. */
  lemma {:induction false} FirstFromLeast(found: nat -> bool, limit: nat, p: nat)
    requires p <= limit + 1
    ensures var r := FirstFrom(found, limit, p);
      r.Some? ==> p <= r.value <= limit && found(r.value) && forall k | p <= k < r.value :: !found(k)
    ensures FirstFrom(found, limit, p) == None ==> forall k | p <= k <= limit :: !found(k)
    decreases limit + 1 - p
  {
    if p <= limit && !found(p) {
      FirstFromLeast(found, limit, p + 1);
    }
  }

  /** `re.search` finds the leftmost match, and None exactly when the pattern
      matches at no position. */
  lemma SearchLeftmost(head: string, s: string)
    ensures var r := Search(head, s);
      r.Some? ==>
        r.value.pos <= |s| && MatchAt(head, s, r.value.pos) == r &&
        forall q | 0 <= q < r.value.pos :: MatchAt(head, s, q) == None
    ensures Search(head, s) == None <==> forall q | 0 <= q <= |s| :: MatchAt(head, s, q) == None
  {
    var found := Matches(head, s);
    FirstFromLeast(found, |s|, 0);
    match FirstFrom(found, |s|, 0)
    case None =>
      forall q | 0 <= q <= |s|
        ensures MatchAt(head, s, q) == None
      {
        assert !found(q);
      }
    case Some(q) =>
      assert found(q);
      MatchAtSound(head, s, q);
      forall k | 0 <= k < q
        ensures MatchAt(head, s, k) == None
      {
        assert !found(k);
      }
  }

  /** What a successful search returns is a sound match: its groups have the
      pattern's shape, so `int()` can read both ids. */
  lemma SearchSound(head: string, s: string)
    ensures var r := Search(head, s);
      r.Some? ==>
        r.value.base == head + r.value.name + "/" &&
        Occurs(head, s, r.value.pos, r.value.name, r.value.first, r.value.last) &&
        AllDigits(r.value.first) && AllDigits(r.value.last)
  {
    SearchLeftmost(head, s);
    if Search(head, s).Some? {
      MatchAtSound(head, s, Search(head, s).value.pos);
    }
  }

  /** Every match spells a "-" into the text. */
  lemma MatchHasDash(head: string, s: string, p: nat)
    ensures MatchAt(head, s, p).Some? ==> '-' in s
  {
    MatchAtSound(head, s, p);
    if MatchAt(head, s, p).Some? {
      var m := MatchAt(head, s, p).value;
      var a := p + |head| + |m.name| + 1 + |m.first|;
      assert s[a] == '-';
    }
  }

  /** A text without a "-" has no match. */
  lemma NoDashNoMatch(head: string, s: string)
    requires '-' !in s
    ensures Search(head, s) == None
  {
    forall q | 0 <= q <= |s|
      ensures MatchAt(head, s, q) == None
    {
      MatchHasDash(head, s, q);
    }
    SearchLeftmost(head, s);
  }

  /** Every match starts with the first character of the head. */
  lemma MatchStartsWithHead(head: string, s: string, q: nat)
    requires head != []
    ensures MatchAt(head, s, q).Some? ==> q < |s| && s[q] == head[0]
  {
    MatchAtSound(head, s, q);
    if MatchAt(head, s, q).Some? {
      assert s[q..q + |head|][0] == s[q];
    }
  }

  /** When the pattern matches at `p` and at no position before it, the
      search returns the match at `p`. */
  lemma FirstMatch(head: string, s: string, p: nat)
    requires p <= |s|
    requires forall q | 0 <= q < p :: MatchAt(head, s, q) == None
    requires MatchAt(head, s, p).Some?
    ensures Search(head, s) == MatchAt(head, s, p)
  {
    var found := Matches(head, s);
    forall k | 0 <= k < p
      ensures !found(k)
    {
    }
    FirstFromAt(found, |s|, 0, p);
  }

  /** When no character before `p` can start the head, the search result is
      decided at `p` if the pattern matches there. */
  lemma FirstCandidate(head: string, s: string, p: nat)
    requires head != [] && p <= |s|
    requires forall q | 0 <= q < p :: s[q] != head[0]
    requires MatchAt(head, s, p).Some?
    ensures Search(head, s) == MatchAt(head, s, p)
  {
    forall q | 0 <= q < p
      ensures MatchAt(head, s, q) == None
    {
      MatchStartsWithHead(head, s, q);
    }
    FirstMatch(head, s, p);
  }

  /** When only position 0 can start the head, the search is decided at 0. */
  lemma OnlyCandidateAtStart(head: string, s: string)
    requires head != []
    requires forall q | 0 < q < |s| :: s[q] != head[0]
    ensures Search(head, s) == MatchAt(head, s, 0)
  {
    forall q | 0 < q <= |s|
      ensures MatchAt(head, s, q) == None
    {
      MatchStartsWithHead(head, s, q);
    }
    SearchLeftmost(head, s);
  }

  /** FirstFrom returns `q` when `found` holds there and nowhere before it. */
  lemma {:induction false} FirstFromAt(found: nat -> bool, limit: nat, p: nat, q: nat)
    requires p <= q <= limit && found(q)
    requires forall k | p <= k < q :: !found(k)
    ensures FirstFrom(found, limit, p) == Some(q)
    decreases q - p
  {
    if p < q {
      FirstFromAt(found, limit, p + 1, q);
    }
  }
}
