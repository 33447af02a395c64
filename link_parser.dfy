/**
 `parse_link_or_range` (main.py:38-66): split the input into lines, strip each
 one, skip blank ones, and expand a range link `https://t.me/<name>/<a>-<b>`
 into one link per id from a to b.

 As written, main.py:54 calls `re.search` with the pattern only, so any
 non-blank line without a public range link raises `TypeError` and the
 single-link branch of main.py:62-64 is never reached. `AsWritten` models
 that code; `Corrected` models the evident intent: search the line for the
 private-channel form, and otherwise keep the line as a single link.
 */
module LinkParser {
  import opened PyText
  import opened LinkPattern

  /** Which reading of main.py:53-54 is modelled. */
  datatype Variant =
    | AsWritten   // the second search is missing its string argument: TypeError
    | Corrected   // the second search is applied to the line

  /** What parse_link_or_range produces: its list of links, or the TypeError
      that escapes it. */
  datatype Parsed = Links(links: seq<string>) | Fail

  /** The links appended by `for i in range(first, last + 1)` with base `base`,
      each rendered as `f"{base}{i}"`. */
  function RangeLinks(base: string, first: nat, last: int): (r: seq<string>)
    ensures |r| == if first <= last then last - first + 1 else 0
    ensures forall k | 0 <= k < |r| :: r[k] == base + Decimal(first + k)
    decreases last - first
  {
    if last < first then [] else RangeLinks(base, first, last - 1) + [base + Decimal(last)]
  }

  /** The links of one successful range match: base URL and the two ids read by `int()`. */
  function Expand(m: RangeMatch): seq<string>
    requires AllDigits(m.first) && AllDigits(m.last)
  {
    RangeLinks(m.base, Value(m.first), Value(m.last))
  }

  /** One pass of the loop body on main.py:47-64 over the raw line `raw`. */
  function ParseLine(raw: string, v: Variant): (r: Parsed)
    ensures IsBlank(raw) ==> r == Links([])
    ensures r == Fail <==> v == AsWritten && Raises(raw)
  {
    var line := Strip(raw);
    if line == [] then Links([])
    else
      match Search(PublicHead, line)
      case Some(m) => SearchSound(PublicHead, line); Links(Expand(m))
      case None =>
        if v == AsWritten then Fail
        else
          match Search(PrivateHead, line)
          case Some(m) => SearchSound(PrivateHead, line); Links(Expand(m))
          case None => Links([line])
  }

  /** Appending the links of a later step; an exception ends everything. */
  function Then(before: Parsed, step: Parsed): Parsed {
    match before
    case Fail => Fail
    case Links(xs) =>
      match step
      case Fail => Fail
      case Links(ys) => Links(xs + ys)
  }

  /** The outcomes of a sequence of steps, combined in order. */
  function Concat(steps: seq<Parsed>): Parsed
    decreases |steps|
  {
    if steps == [] then Links([]) else Then(Concat(steps[..|steps| - 1]), steps[|steps| - 1])
  }

  /** The outcome of the loop body on each line, in order. */
  function LineOutcomes(lines: seq<string>, v: Variant): (r: seq<Parsed>)
    ensures |r| == |lines|
  {
    Outcomes(lines, raw => ParseLine(raw, v))
  }

  function Outcomes(lines: seq<string>, step: string -> Parsed): (r: seq<Parsed>)
    ensures |r| == |lines|
  {
    seq(|lines|, k requires 0 <= k < |lines| => step(lines[k]))
  }

  /** The loop of main.py:46-64 over the given lines. */
  function ParseLines(lines: seq<string>, v: Variant): (r: Parsed)
    ensures lines == [] ==> r == Links([])
    ensures |lines| == 1 ==> r == ParseLine(lines[0], v)
  {
    var outcomes := LineOutcomes(lines, v);
    if |lines| == 1 then
      assert outcomes == [ParseLine(lines[0], v)];
      ConcatOne(outcomes[0]);
      Concat(outcomes)
    else
      Concat(outcomes)
  }

  /** A single step is its own outcome. */
  lemma ConcatOne(x: Parsed)
    ensures Concat([x]) == x
  {
    assert [x][..0] == [];
    match x
    case Fail =>
    case Links(ys) => assert [] + ys == ys;
  }

  /** What `parse_link_or_range(text)` returns. */
  function Parse(text: string, v: Variant): (r: Parsed)
    ensures IsBlank(text) ==> r == Links([])
    ensures v == Corrected ==> r.Links?
  {
    CorrectedNeverFails(SplitLines(Strip(text)));
    ParseLines(SplitLines(Strip(text)), v)
  }

  /** parse_link_or_range, statement by statement. */
  method ParseLinkOrRange(text: string, v: Variant) returns (r: Parsed)
    ensures r == Parse(text, v)
  {
    var links: seq<string> := [];
    var lines := SplitLines(Strip(text));
    for n := 0 to |lines|
      invariant ParseLines(lines[..n], v) == Links(links)
    {
      NextLine(lines, n, v);
      var line := Strip(lines[n]);
      if line == [] {
        assert links + [] == links;
        continue;
      }
      var rangeMatch := Search(PublicHead, line);
      if rangeMatch.None? {
        if v == AsWritten {
          // re.search called without the string to search: TypeError
          ParseLinesFailPrefix(lines, n + 1, v);
          return Fail;
        }
        rangeMatch := Search(PrivateHead, line);
      }
      if rangeMatch.Some? {
        SearchSound(PublicHead, line);
        SearchSound(PrivateHead, line);
        var baseUrl := rangeMatch.value.base;
        var startId := Value(rangeMatch.value.first);
        var endId := Value(rangeMatch.value.last);
        links := AppendRange(links, baseUrl, startId, endId);
        assert ParseLine(lines[n], v) == Links(RangeLinks(baseUrl, startId, endId));
      } else {
        links := links + [line];
      }
    }
    assert lines[..|lines|] == lines;
    return Links(links);
  }

  /** The loop of main.py:60-61: append `f"{base}{i}"` for i from first to last. */
  method AppendRange(links: seq<string>, base: string, first: nat, last: nat) returns (extended: seq<string>)
    ensures extended == links + RangeLinks(base, first, last)
  {
    extended := links;
    var i := first;
    while i < last + 1
      invariant first <= i <= if first <= last then last + 1 else first
      invariant extended == links + RangeLinks(base, first, i - 1)
    {
      extended := extended + [base + Decimal(i)];
      i := i + 1;
    }
  }

  /** The loop's step: one more line. */
  lemma NextLine(lines: seq<string>, n: nat, v: Variant)
    requires n < |lines|
    ensures ParseLines(lines[..n + 1], v) == Then(ParseLines(lines[..n], v), ParseLine(lines[n], v))
  {
    ConcatStep(lines, n, raw => ParseLine(raw, v));
  }

  /** One more item folded into a concatenation of step outcomes. */
  lemma ConcatStep(items: seq<string>, n: nat, step: string -> Parsed)
    requires n < |items|
    ensures Concat(Outcomes(items[..n + 1], step)) == Then(Concat(Outcomes(items[..n], step)), step(items[n]))
  {
    var steps := Outcomes(items[..n + 1], step);
    assert steps[..n] == Outcomes(items[..n], step);
    assert steps[n] == step(items[n]);
  }

  // ---------------------------------------------------------------------------
  // Properties

  /** Combining is associative over concatenation of the step list. */
  lemma {:induction false} ConcatAppend(xs: seq<Parsed>, ys: seq<Parsed>)
    ensures Concat(xs + ys) == Then(Concat(xs), Concat(ys))
    decreases |ys|
  {
    if ys == [] {
      assert xs + ys == xs;
      match Concat(xs)
      case Fail =>
      case Links(a) => assert a + [] == a;
    } else {
      var zs := xs + ys;
      assert zs[..|zs| - 1] == xs + ys[..|ys| - 1];
      ConcatAppend(xs, ys[..|ys| - 1]);
      match Concat(xs)
      case Fail =>
      case Links(a) =>
        match Concat(ys[..|ys| - 1])
        case Fail =>
        case Links(b) =>
          match ys[|ys| - 1]
          case Fail =>
          case Links(c) => assert a + b + c == a + (b + c);
    }
  }

  /** Lines are handled independently and their links come out in line order. */
  lemma ParseLinesAppend(xs: seq<string>, ys: seq<string>, v: Variant)
    ensures ParseLines(xs + ys, v) == Then(ParseLines(xs, v), ParseLines(ys, v))
  {
    ConcatOutcomesAppend(xs, ys, raw => ParseLine(raw, v));
  }

  lemma ConcatOutcomesAppend(xs: seq<string>, ys: seq<string>, step: string -> Parsed)
    ensures Concat(Outcomes(xs + ys, step)) == Then(Concat(Outcomes(xs, step)), Concat(Outcomes(ys, step)))
  {
    OutcomesAppend(xs, ys, step);
    ConcatAppend(Outcomes(xs, step), Outcomes(ys, step));
  }

  lemma OutcomesAppend(xs: seq<string>, ys: seq<string>, step: string -> Parsed)
    ensures Outcomes(xs + ys, step) == Outcomes(xs, step) + Outcomes(ys, step)
  {
  }

  /** Once a line has raised, the whole call raises. */
  lemma ParseLinesFailPrefix(lines: seq<string>, n: nat, v: Variant)
    requires n <= |lines| && ParseLines(lines[..n], v) == Fail
    ensures ParseLines(lines, v) == Fail
  {
    ConcatFailPrefix(lines, n, raw => ParseLine(raw, v));
  }

  /** Once a step has failed, the concatenation of all steps fails. */
  lemma ConcatFailPrefix(items: seq<string>, n: nat, step: string -> Parsed)
    requires n <= |items| && Concat(Outcomes(items[..n], step)) == Fail
    ensures Concat(Outcomes(items, step)) == Fail
  {
    assert items == items[..n] + items[n..];
    ConcatOutcomesAppend(items[..n], items[n..], step);
  }

  /** Concat of one step. */
  lemma ConcatSingle(step: Parsed)
    ensures Concat([step]) == Then(Links([]), step)
  {
    assert [step][..0] == [];
  }

  /** `Links([])` is neutral on the right. */
  lemma ThenEmpty(p: Parsed)
    ensures Then(p, Links([])) == p
  {
    if p.Links? {
      assert p.links + [] == p.links;
    }
  }

  /** A blank or whitespace-only line contributes nothing, wherever it stands. */
  lemma BlankLineIgnored(xs: seq<string>, blank: string, ys: seq<string>, v: Variant)
    requires IsBlank(blank)
    ensures ParseLines(xs + [blank] + ys, v) == ParseLines(xs + ys, v)
  {
    ParseLinesAppend(xs + [blank], ys, v);
    ParseLinesAppend(xs, [blank], v);
    ParseLinesAppend(xs, ys, v);
    assert LineOutcomes([blank], v) == [ParseLine(blank, v)];
    ConcatSingle(ParseLine(blank, v));
    ThenEmpty(ParseLines(xs, v));
  }

  /** A sequence of steps fails exactly when one of its steps fails. */
  lemma {:induction false} ConcatFailIff(steps: seq<Parsed>)
    ensures Concat(steps) == Fail <==> exists k | 0 <= k < |steps| :: steps[k] == Fail
    decreases |steps|
  {
    if steps != [] {
      var init := steps[..|steps| - 1];
      ConcatFailIff(init);
      if Concat(init) == Fail {
        var k :| 0 <= k < |init| && init[k] == Fail;
        assert steps[k] == Fail;
      } else {
        forall k | 0 <= k < |steps| - 1
          ensures steps[k] != Fail
        {
          assert steps[k] == init[k];
        }
      }
    }
  }

  /** The line on which the code as written raises: not blank, and without a
      public range link, so the one-argument `re.search` of main.py:54 runs. */
  predicate Raises(raw: string) {
    !IsBlank(raw) && Search(PublicHead, Strip(raw)) == None
  }

  /** As written, parse_link_or_range raises exactly when one of the lines
      reaches main.py:54; otherwise every non-blank line held a range link. */
  lemma AsWrittenFailsIff(lines: seq<string>)
    ensures ParseLines(lines, AsWritten) == Fail <==> exists k | 0 <= k < |lines| :: Raises(lines[k])
  {
    var steps := LineOutcomes(lines, AsWritten);
    ConcatFailIff(steps);
    assert forall k | 0 <= k < |lines| :: steps[k] == ParseLine(lines[k], AsWritten);
  }

  /** The corrected reading never raises. */
  lemma CorrectedNeverFails(lines: seq<string>)
    ensures ParseLines(lines, Corrected).Links?
  {
    var steps := LineOutcomes(lines, Corrected);
    ConcatFailIff(steps);
    forall k | 0 <= k < |lines|
      ensures steps[k] != Fail
    {
      CorrectedLineNeverFails(lines[k]);
    }
  }

  lemma CorrectedLineNeverFails(raw: string)
    ensures ParseLine(raw, Corrected).Links?
  {
  }

  /** Whenever the code as written returns, the corrected reading returns the same links. */
  lemma CorrectedAgreesWhenNoFailure(lines: seq<string>)
    ensures ParseLines(lines, AsWritten) == Fail ||
            ParseLines(lines, AsWritten) == ParseLines(lines, Corrected)
  {
    var written := LineOutcomes(lines, AsWritten);
    var fixed := LineOutcomes(lines, Corrected);
    ConcatFailIff(written);
    if ParseLines(lines, AsWritten) != Fail {
      forall k | 0 <= k < |lines|
        ensures written[k] == fixed[k]
      {
        assert written[k] != Fail;
      }
      assert written == fixed;
    }
  }

  /** The text of a range link spelled out between `pre` and `post`. */
  function RangeLine(pre: string, head: string, name: string, first: string, last: string, post: string): string {
    pre + head + name + "/" + first + "-" + last + post
  }

  lemma OccursInRangeLine(pre: string, head: string, name: string, first: string, last: string, post: string)
    requires |name| > 0 && |first| > 0 && |last| > 0
    requires AllNameChars(name) && AllDigits(first) && AllDigits(last)
    ensures Occurs(head, RangeLine(pre, head, name, first, last, post), |pre|, name, first, last)
    ensures post == [] || !IsDigit(post[0]) ==>
      EndsGreedily(RangeLine(pre, head, name, first, last, post), |pre| + |head| + |name| + 1 + |first| + 1 + |last|)
  {
    var s := RangeLine(pre, head, name, first, last, post);
    var p := |pre|;
    var i := p + |head|;
    var n := i + |name|;
    var a := n + 1 + |first|;
    var e := a + 1 + |last|;
    assert s == pre + head + name + ['/'] + first + ['-'] + last + post;
    assert s[p..i] == head;
    assert s[i..n] == name;
    assert s[n] == '/';
    assert s[n + 1..a] == first;
    assert s[a] == '-';
    assert s[a + 1..e] == last;
    assert post != [] ==> s[e] == post[0];
  }

  /** A line holding a public range link yields exactly the links with ids from
      the first to the last, each appended to the base URL `https://t.me/<name>/`
      (none when first > last). Text before the link in which no match starts,
      and text after it that does not continue the last id, is dropped; ids are
      read by `int()`, so leading zeros disappear. */
  lemma RangeLineExpands(pre: string, name: string, first: string, last: string, post: string, v: Variant)
    requires |name| > 0 && |first| > 0 && |last| > 0
    requires AllNameChars(name) && AllDigits(first) && AllDigits(last)
    requires forall q | 0 <= q < |pre| :: MatchAt(PublicHead, RangeLine(pre, PublicHead, name, first, last, post), q) == None
    requires pre == [] || !IsSpace(pre[0])
    requires post == [] || (!IsDigit(post[0]) && !IsSpace(post[|post| - 1]))
    ensures ParseLine(RangeLine(pre, PublicHead, name, first, last, post), v)
         == Links(RangeLinks(PublicHead + name + "/", Value(first), Value(last)))
  {
    var s := RangeLine(pre, PublicHead, name, first, last, post);
    var m := RangeMatch(|pre|, name, PublicHead + name + "/", first, last);
    assert PublicHead[0] == 'h';
    RangeLineStripped(pre, PublicHead, name, first, last, post);
    RangeLineSearch(pre, PublicHead, name, first, last, post);
    PublicMatchLine(s, m, v);
    assert Expand(m) == RangeLinks(PublicHead + name + "/", Value(first), Value(last));
  }

  /** The loop body looks at a raw line only through its strip. */
  lemma ParseLineStrip(raw: string, v: Variant)
    ensures ParseLine(raw, v) == ParseLine(Strip(raw), v)
  {
    StrippedPart(raw);
  }

  /** The same line with any whitespace around it, as it stands inside a
      multi-line argument, yields the same links: main.py:47 strips it first. */
  lemma RangeLineExpandsPadded(lead: string, pre: string, name: string, first: string, last: string,
                               post: string, trail: string, v: Variant)
    requires IsBlank(lead) && IsBlank(trail)
    requires |name| > 0 && |first| > 0 && |last| > 0
    requires AllNameChars(name) && AllDigits(first) && AllDigits(last)
    requires forall q | 0 <= q < |pre| :: MatchAt(PublicHead, RangeLine(pre, PublicHead, name, first, last, post), q) == None
    requires pre == [] || !IsSpace(pre[0])
    requires post == [] || (!IsDigit(post[0]) && !IsSpace(post[|post| - 1]))
    ensures ParseLine(lead + RangeLine(pre, PublicHead, name, first, last, post) + trail, v)
         == Links(RangeLinks(PublicHead + name + "/", Value(first), Value(last)))
  {
    var line := RangeLine(pre, PublicHead, name, first, last, post);
    assert PublicHead[0] == 'h';
    RangeLineStripped(pre, PublicHead, name, first, last, post);
    assert line != [];
    StripAround(lead, line, trail);
    ParseLineStrip(lead + line + trail, v);
    RangeLineExpands(pre, name, first, last, post, v);
  }

  /** No match can start in text without an "h", so such text before a range
      link is always dropped, whatever whitespace surrounds the line. */
  lemma RangeLineExpandsAfterPlainText(lead: string, pre: string, name: string, first: string, last: string,
                                       post: string, trail: string, v: Variant)
    requires IsBlank(lead) && IsBlank(trail)
    requires |name| > 0 && |first| > 0 && |last| > 0
    requires AllNameChars(name) && AllDigits(first) && AllDigits(last)
    requires forall q | 0 <= q < |pre| :: pre[q] != 'h'
    requires pre == [] || !IsSpace(pre[0])
    requires post == [] || (!IsDigit(post[0]) && !IsSpace(post[|post| - 1]))
    ensures ParseLine(lead + RangeLine(pre, PublicHead, name, first, last, post) + trail, v)
         == Links(RangeLinks(PublicHead + name + "/", Value(first), Value(last)))
  {
    var s := RangeLine(pre, PublicHead, name, first, last, post);
    RangeLinePrefix(pre, PublicHead, name, first, last, post);
    forall q | 0 <= q < |pre|
      ensures MatchAt(PublicHead, s, q) == None
    {
      MatchStartsWithHead(PublicHead, s, q);
    }
    RangeLineExpandsPadded(lead, pre, name, first, last, post, trail, v);
  }

  /** A line that is a private-channel range link `https://t.me/c/<id>/<a>-<b>`
      never matches the public pattern: that pattern reads "c" as the channel
      name and then stops at the "/" after the id. As written the line raises;
      corrected, it expands to the ids from a to b under `https://t.me/c/<id>/`. */
  lemma PrivateRangeLineExpands(id: string, first: string, last: string, post: string)
    requires |id| > 0 && |first| > 0 && |last| > 0
    requires AllDigits(id) && AllDigits(first) && AllDigits(last)
    requires forall q | 0 <= q < |post| :: post[q] != 'h'
    requires post == [] || (!IsDigit(post[0]) && !IsSpace(post[|post| - 1]))
    ensures ParseLine(RangeLine([], PrivateHead, id, first, last, post), AsWritten) == Fail
    ensures ParseLine(RangeLine([], PrivateHead, id, first, last, post), Corrected)
         == Links(RangeLinks(PrivateHead + id + "/", Value(first), Value(last)))
  {
    var s := RangeLine([], PrivateHead, id, first, last, post);
    RangeLineStripped([], PrivateHead, id, first, last, post);
    PublicMissesPrivate(id, first, last, post);
    RangeLineSearch([], PrivateHead, id, first, last, post);
  }

  /** The public search finds nothing in a private-channel range line. */
  lemma PublicMissesPrivate(id: string, first: string, last: string, post: string)
    requires |id| > 0 && AllDigits(id) && AllDigits(first) && AllDigits(last)
    requires forall q | 0 <= q < |post| :: post[q] != 'h'
    ensures Search(PublicHead, RangeLine([], PrivateHead, id, first, last, post)) == None
  {
    var s := RangeLine([], PrivateHead, id, first, last, post);
    PrivateLineStartsOnce(id, first, last, post);
    OnlyCandidateAtStart(PublicHead, s);
    PublicMissesPrivateAtStart(id, first, last, post);
  }

  /** Only the first character of a private-channel range line is an "h". */
  lemma PrivateLineStartsOnce(id: string, first: string, last: string, post: string)
    requires AllDigits(id) && AllDigits(first) && AllDigits(last)
    requires forall q | 0 <= q < |post| :: post[q] != 'h'
    ensures var s := RangeLine([], PrivateHead, id, first, last, post);
      forall q | 0 < q < |s| :: s[q] != PublicHead[0]
  {
    var s := RangeLine([], PrivateHead, id, first, last, post);
    var tail := id + "/" + first + "-" + last + post;
    assert s == PrivateHead + tail;
    forall q | 0 < q < |s|
      ensures s[q] != 'h'
    {
      if q < |PrivateHead| {
        assert s[q] == PrivateHead[q];
      } else {
        assert s[q] == tail[q - |PrivateHead|];
      }
    }
  }

  /** At position 0 the public pattern reads the name "c", then the digits of
      the id, and finds "/" where it needs "-". */
  lemma PublicMissesPrivateAtStart(id: string, first: string, last: string, post: string)
    requires |id| > 0 && AllDigits(id)
    ensures MatchAt(PublicHead, RangeLine([], PrivateHead, id, first, last, post), 0) == None
  {
    var s := RangeLine([], PrivateHead, id, first, last, post);
    var tail := id + "/" + first + "-" + last + post;
    assert s == PrivateHead + tail;
    var i := |PublicHead|;
    assert s[..i] == PublicHead && s[i] == 'c' && s[i + 1] == '/';
    SpanEndAt(NameClass, s, i, i + 1);
    var a := i + 2 + |id|;
    forall k | i + 2 <= k < a
      ensures InClass(DigitClass, s[k])
    {
      assert s[k] == id[k - i - 2];
    }
    assert s[a] == '/';
    SpanEndAt(DigitClass, s, i + 2, a);
    NoDashAfterFirstId(PublicHead, s, 0, i + 1, a);
  }

  /** A range line is its own strip when it starts and ends without whitespace. */
  lemma RangeLineStripped(pre: string, head: string, name: string, first: string, last: string, post: string)
    requires head != [] && !IsSpace(head[0]) && |last| > 0 && AllDigits(last)
    requires pre == [] || !IsSpace(pre[0])
    requires post == [] || !IsSpace(post[|post| - 1])
    ensures Strip(RangeLine(pre, head, name, first, last, post)) == RangeLine(pre, head, name, first, last, post)
  {
    var s := RangeLine(pre, head, name, first, last, post);
    assert s == pre + head + name + "/" + first + "-" + last + post;
    assert !IsSpace(s[0]) by {
      if pre == [] {
        assert s[0] == head[0];
      }
    }
    assert !IsSpace(s[|s| - 1]) by {
      if post == [] {
        assert s[|s| - 1] == last[|last| - 1];
      }
    }
  }

  /** Where the search with head `head` finds the range link of such a line. */
  lemma RangeLineSearch(pre: string, head: string, name: string, first: string, last: string, post: string)
    requires |name| > 0 && |first| > 0 && |last| > 0
    requires AllNameChars(name) && AllDigits(first) && AllDigits(last)
    requires forall q | 0 <= q < |pre| :: MatchAt(head, RangeLine(pre, head, name, first, last, post), q) == None
    requires post == [] || !IsDigit(post[0])
    ensures Search(head, RangeLine(pre, head, name, first, last, post))
         == Some(RangeMatch(|pre|, name, head + name + "/", first, last))
  {
    var s := RangeLine(pre, head, name, first, last, post);
    RangeLineMatch(pre, head, name, first, last, post);
    RangeLinePrefix(pre, head, name, first, last, post);
    FirstMatch(head, s, |pre|);
  }

  lemma RangeLineMatch(pre: string, head: string, name: string, first: string, last: string, post: string)
    requires |name| > 0 && |first| > 0 && |last| > 0
    requires AllNameChars(name) && AllDigits(first) && AllDigits(last)
    requires post == [] || !IsDigit(post[0])
    ensures MatchAt(head, RangeLine(pre, head, name, first, last, post), |pre|)
         == Some(RangeMatch(|pre|, name, head + name + "/", first, last))
  {
    var s := RangeLine(pre, head, name, first, last, post);
    OccursInRangeLine(pre, head, name, first, last, post);
    MatchAtComplete(head, s, |pre|, name, first, last);
    var m := MatchAt(head, s, |pre|).value;
    assert m.pos == |pre| && m.name == name && m.first == first && m.last == last;
  }

  /** The characters before the link are those of `pre`. */
  lemma RangeLinePrefix(pre: string, head: string, name: string, first: string, last: string, post: string)
    ensures |pre| <= |RangeLine(pre, head, name, first, last, post)|
    ensures forall q | 0 <= q < |pre| :: RangeLine(pre, head, name, first, last, post)[q] == pre[q]
  {
    var s := RangeLine(pre, head, name, first, last, post);
    assert s == pre + (head + name + "/" + first + "-" + last + post);
  }

  /** A stripped line whose public search succeeds yields that match's links. */
  lemma PublicMatchLine(line: string, m: RangeMatch, v: Variant)
    requires Strip(line) == line != []
    requires Search(PublicHead, line) == Some(m)
    requires AllDigits(m.first) && AllDigits(m.last)
    ensures ParseLine(line, v) == Links(Expand(m))
  {
    assert Strip(line) == line;
  }

  /** Corrected, a non-blank line in which neither pattern matches is kept,
      stripped, as a single link (main.py:62-64). */
  lemma CorrectedNoMatchKeepsLine(raw: string)
    requires !IsBlank(raw)
    requires Search(PublicHead, Strip(raw)) == None && Search(PrivateHead, Strip(raw)) == None
    ensures ParseLine(raw, Corrected) == Links([Strip(raw)])
  {
  }

  /** A non-blank line without any "-" holds no range link: as written it
      raises, corrected it is kept, stripped, as a single link. */
  lemma SingleLinkLine(raw: string)
    requires !IsBlank(raw) && '-' !in Strip(raw)
    ensures ParseLine(raw, AsWritten) == Fail
    ensures ParseLine(raw, Corrected) == Links([Strip(raw)])
  {
    NoDashNoMatch(PublicHead, Strip(raw));
    NoDashNoMatch(PrivateHead, Strip(raw));
    CorrectedNoMatchKeepsLine(raw);
  }

  // ---------------------------------------------------------------------------
  // Worked inputs

  /** The parse of a text that is exactly one line. */
  lemma OneLine(text: string, v: Variant)
    requires text != [] && Strip(text) == text && NoLineBreak(text)
    ensures Parse(text, v) == ParseLine(text, v)
  {
    SplitLinesJoinLines([text]);
    assert SplitLines(text) == [text];
    ParseLinesSingle(text, v);
  }

  /** The loop over a single line is that line's step. */
  lemma ParseLinesSingle(line: string, v: Variant)
    ensures ParseLines([line], v) == ParseLine(line, v)
  {
    assert LineOutcomes([line], v) == [ParseLine(line, v)];
    ConcatSingle(ParseLine(line, v));
    match ParseLine(line, v)
    case Fail =>
    case Links(xs) => assert [] + xs == xs;
  }
}
