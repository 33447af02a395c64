/**
 The inputs that illustrate parse_link_or_range, worked through the model.
 Channel names are parameters fixed by `requires` rather than literals: with a
 literal input the verifier unfolds the parser character by character and runs
 past its resource limit, while a parameter lets it reason through the lemmas.
 */
module ParseExamples {
  import opened PyText
  import opened LinkPattern
  import opened LinkParser

  lemma RangeLinksTwo(base: string, n: nat)
    ensures RangeLinks(base, n, n + 1) == [base + Decimal(n), base + Decimal(n + 1)]
  {
  }

  lemma RangeLinksThree(base: string, n: nat)
    ensures RangeLinks(base, n, n + 2) == [base + Decimal(n), base + Decimal(n + 1), base + Decimal(n + 2)]
  {
  }

  lemma Numerals()
    ensures Value("10") == 10 && Value("12") == 12 && Value("20") == 20 && Value("21") == 21
    ensures Decimal(10) == "10" && Decimal(11) == "11" && Decimal(12) == "12"
    ensures Decimal(20) == "20" && Decimal(21) == "21"
  {
  }

  lemma PaddedNumerals()
    ensures Value("007") == 7 && Value("008") == 8 && Decimal(7) == "7" && Decimal(8) == "8"
  {
    ValueLeadingZeros("00", "7");
    ValueLeadingZeros("00", "8");
    assert "00" + "7" == "007" && "00" + "8" == "008";
  }

  /** `https://t.me/foo/10-12` gives the links of posts 10, 11 and 12. */
  lemma RangeExample(name: string, v: Variant)
    requires name == "foo"
    ensures Parse(RangeLine([], PublicHead, name, "10", "12", []), v)
         == Links([PublicHead + name + "/" + "10", PublicHead + name + "/" + "11", PublicHead + name + "/" + "12"])
  {
    var text := RangeLine([], PublicHead, name, "10", "12", []);
    Numerals();
    RangeLineExpands([], name, "10", "12", [], v);
    RangeLineStripped([], PublicHead, name, "10", "12", []);
    HeadHasNoBreak();
    LineOfRange([], PublicHead, name, "10", "12", []);
    OneLine(text, v);
    RangeLinksThree(PublicHead + name + "/", 10);
  }

  /** `https://t.me/foo/007-008` gives the links of posts 7 and 8: `int()` drops
      the leading zeros. */
  lemma LeadingZerosExample(name: string, v: Variant)
    requires name == "foo"
    ensures Parse(RangeLine([], PublicHead, name, "007", "008", []), v)
         == Links([PublicHead + name + "/" + "7", PublicHead + name + "/" + "8"])
  {
    var text := RangeLine([], PublicHead, name, "007", "008", []);
    PaddedNumerals();
    RangeLineExpands([], name, "007", "008", [], v);
    RangeLineStripped([], PublicHead, name, "007", "008", []);
    HeadHasNoBreak();
    LineOfRange([], PublicHead, name, "007", "008", []);
    OneLine(text, v);
    RangeLinksTwo(PublicHead + name + "/", 7);
  }

  lemma HeadHasNoBreak()
    ensures NoLineBreak(PublicHead)
  {
    forall i | 0 <= i < |PublicHead|
      ensures !IsLineBreak(PublicHead[i])
    {
    }
  }

  /** A range line has no line boundary when its parts have none. */
  lemma LineOfRange(pre: string, head: string, name: string, first: string, last: string, post: string)
    requires NoLineBreak(pre) && NoLineBreak(head) && NoLineBreak(post)
    requires AllNameChars(name) && AllDigits(first) && AllDigits(last)
    ensures NoLineBreak(RangeLine(pre, head, name, first, last, post))
  {
    var s := RangeLine(pre, head, name, first, last, post);
    assert s == pre + head + name + "/" + first + "-" + last + post;
  }

  /** A single post link above a range: as written the call raises on the
      single link (the one-argument search of main.py:54). */
  lemma MixedExampleAsWritten(a: string, b: string)
    requires a == "foo" && b == "bar"
    ensures Parse(PublicHead + a + "/5" + "\n" + RangeLine([], PublicHead, b, "20", "21", []), AsWritten) == Fail
  {
    var single := PublicHead + a + "/5";
    var range := RangeLine([], PublicHead, b, "20", "21", []);
    MixedLines(a, b);
    TwoLines(single, range, AsWritten);
    SingleLinkLine(single);
  }

  /** Corrected, the same input keeps the single link, followed by the
      expanded range. */
  lemma MixedExampleCorrected(a: string, b: string)
    requires a == "foo" && b == "bar"
    ensures Parse(PublicHead + a + "/5" + "\n" + RangeLine([], PublicHead, b, "20", "21", []), Corrected)
         == Links([PublicHead + a + "/5", PublicHead + b + "/" + "20", PublicHead + b + "/" + "21"])
  {
    var single := PublicHead + a + "/5";
    var range := RangeLine([], PublicHead, b, "20", "21", []);
    MixedLines(a, b);
    TwoLines(single, range, Corrected);
    SingleLinkLine(single);
    var base := PublicHead + b + "/";
    var tail := [base + "20", base + "21"];
    RangeLineTwenty(b);
    assert ParseLine(range, Corrected) == Links(tail);
    assert [single] + tail == [single, base + "20", base + "21"];
  }

  lemma RangeLineTwenty(b: string)
    requires b == "bar"
    ensures ParseLine(RangeLine([], PublicHead, b, "20", "21", []), Corrected)
         == Links([PublicHead + b + "/" + "20", PublicHead + b + "/" + "21"])
  {
    Numerals();
    RangeLineExpands([], b, "20", "21", [], Corrected);
    RangeLinksTwo(PublicHead + b + "/", 20);
  }

  /** Both lines of the mixed input are stripped, single lines. */
  lemma MixedLines(a: string, b: string)
    requires a == "foo" && b == "bar"
    ensures var single := PublicHead + a + "/5";
      single != [] && Strip(single) == single && NoLineBreak(single) && '-' !in single
    ensures var range := RangeLine([], PublicHead, b, "20", "21", []);
      range != [] && Strip(range) == range && NoLineBreak(range)
  {
    HeadHasNoBreak();
    SingleLinkPlain(a, PublicHead + a + "/5");
    RangeLineStripped([], PublicHead, b, "20", "21", []);
    LineOfRange([], PublicHead, b, "20", "21", []);
  }

  /** `https://t.me/<a>/5` is one stripped line without a "-". */
  lemma SingleLinkPlain(a: string, single: string)
    requires a == "foo" && single == PublicHead + a + "/5"
    requires NoLineBreak(PublicHead)
    ensures single != [] && Strip(single) == single && NoLineBreak(single) && '-' !in single
  {
    assert single == "https://t.me/foo/5";
  }

  /** The parse of two stripped lines joined by "\n". */
  lemma TwoLines(first: string, second: string, v: Variant)
    requires first != [] && Strip(first) == first && NoLineBreak(first)
    requires second != [] && Strip(second) == second && NoLineBreak(second)
    ensures Parse(first + "\n" + second, v) == Then(ParseLine(first, v), ParseLine(second, v))
  {
    var text := first + "\n" + second;
    assert JoinLines([first, second]) == text;
    assert text[0] == first[0] && text[|text| - 1] == second[|second| - 1];
    assert Strip(text) == text;
    SplitLinesJoinLines([first, second]);
    assert SplitLines(text) == [first, second];
    ParseLinesAppend([first], [second], v);
    assert [first] + [second] == [first, second];
    ParseLinesSingle(first, v);
    ParseLinesSingle(second, v);
  }
}
