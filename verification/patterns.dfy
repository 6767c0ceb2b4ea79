/**
  The text predicates of the heading classifier: numbered-section levels,
  standard academic headings, abbreviation endings, the Japanese detector,
  the body-text filter and the heading-content heuristic. Each is a
  first-return-wins check over the block's text.
*/
module Patterns {
  import opened Common
  import opened Text
  import opened Matching
  import opened Blocks

  predicate IsUpperOrSpace(c: char) { IsAsciiUpper(c) || IsSpace(c) }

  predicate IsUpperOrDigit(c: char) { IsAsciiUpper(c) || IsDigit(c) }

  predicate IsRoman(c: char) { c == 'I' || c == 'V' || c == 'X' }

  // ------------------------------------------------------ numbered sections

  /** `^\d+\.\s+[A-Z][A-Z\s]*$`, as in "1. INTRODUCTION". */
  function MainSection(t: string): Option<nat> {
    var a :- Plus(t, 0, IsDigit);
    var b :- Lit(t, a, ".");
    var c :- Plus(t, b, IsSpace);
    var d :- One(t, c, IsAsciiUpper);
    End(t, RunEnd(t, d, IsUpperOrSpace))
  }

  /** `^\d+\.\d+\.?\s+[A-Z]`, as in "3.2 Analysis" or "1.1. Something". */
  function TwoLevelSection(t: string): Option<nat> {
    var a :- Plus(t, 0, IsDigit);
    var b :- Lit(t, a, ".");
    var c :- Plus(t, b, IsDigit);
    var d :- Plus(t, Opt(t, c, '.'), IsSpace);
    One(t, d, IsAsciiUpper)
  }

  /** `^\d+\.\d+\.\d+\.?\s+[A-Z]`, as in "1.1.1 Details". */
  function ThreeLevelSection(t: string): Option<nat> {
    var a :- Plus(t, 0, IsDigit);
    var b :- Lit(t, a, ".");
    var c :- Plus(t, b, IsDigit);
    var d :- Lit(t, c, ".");
    var e :- Plus(t, d, IsDigit);
    var f :- Plus(t, Opt(t, e, '.'), IsSpace);
    One(t, f, IsAsciiUpper)
  }

  /** `^<P>+\.\s*$`: a number or numeral standing alone. */
  function Alone(t: string, P: char -> bool): Option<nat> {
    var a :- Plus(t, 0, P);
    var b :- Lit(t, a, ".");
    End(t, RunEnd(t, b, IsSpace))
  }

  /** `^[IVX]+\.\s*$`, as in "II.". */
  function RomanAlone(t: string): Option<nat> {
    Alone(t, IsRoman)
  }

  /** `^[IVX]+\.\s+[A-Z]`, as in "IV. Methodology". */
  function RomanTitled(t: string): Option<nat> {
    var a :- Plus(t, 0, IsRoman);
    var b :- Lit(t, a, ".");
    var c :- Plus(t, b, IsSpace);
    One(t, c, IsAsciiUpper)
  }

  /** `^\d+\.\s*$`, as in "7.". */
  function NumberAlone(t: string): Option<nat> {
    Alone(t, IsDigit)
  }

  /** `^\d+\.\d+:\s+[A-Z]`, as in "3.2: Analysis". */
  function ColonSection(t: string): Option<nat> {
    var a :- Plus(t, 0, IsDigit);
    var b :- Lit(t, a, ".");
    var c :- Plus(t, b, IsDigit);
    var d :- Lit(t, c, ":");
    var e :- Plus(t, d, IsSpace);
    One(t, e, IsAsciiUpper)
  }

  /** `_get_numbered_section_level`: the seven numbering forms, tried in order;
      the two standalone forms are matched against the stripped text. */
  function NumberedSectionLevel(t: string): Option<Level> {
    if MainSection(t).Some? then Some(H1)
    else if TwoLevelSection(t).Some? then Some(H2)
    else if ThreeLevelSection(t).Some? then Some(H3)
    else if RomanAlone(Strip(t)).Some? then Some(H3)
    else if RomanTitled(t).Some? then Some(H1)
    else if NumberAlone(Strip(t)).Some? then Some(H2)
    else if ColonSection(t).Some? then Some(H2)
    else None
  }

  /** Only text whose first non-blank character is a digit or one of I, V, X
      can carry a section number. */
  lemma NumberedNeedsDigitOrRoman(t: string)
    requires NumberedSectionLevel(t).Some?
    ensures Strip(t) != [] && (IsDigit(Strip(t)[0]) || IsRoman(Strip(t)[0]))
  {
    if RomanAlone(Strip(t)).None? && NumberAlone(Strip(t)).None? {
      StripKeepsFirst(t);
    }
  }

  /** After a standalone number or numeral and its '.', only whitespace follows. */
  lemma AloneShape(s: string, P: char -> bool)
    requires Alone(s, P).Some?
    ensures s != [] && P(s[0]) && RunEnd(s, 0, P) < |s| && s[RunEnd(s, 0, P)] == '.'
    ensures forall k :: RunEnd(s, 0, P) < k < |s| ==> IsSpace(s[k])
  {
  }

  /** The same holds of a text that extends it with whitespace only, such as
      the text a standalone form was stripped from. */
  lemma AloneInPadded(s: string, t: string, P: char -> bool)
    requires Alone(s, P).Some? && !P('.')
    requires |s| <= |t| && s == t[..|s|] && forall k :: |s| <= k < |t| ==> IsSpace(t[k])
    ensures P(t[0]) && RunEnd(t, 0, P) < |t| && t[RunEnd(t, 0, P)] == '.'
    ensures forall k :: RunEnd(t, 0, P) < k < |t| ==> IsSpace(t[k])
  {
    AloneShape(s, P);
    assert forall k :: 0 <= k < |s| ==> s[k] == t[k];
    RunEndIs(t, 0, P, RunEnd(s, 0, P));
  }

  /** Two-level numbering is never taken for a main section, so it gets H2. */
  lemma TwoLevelIsH2(t: string)
    requires TwoLevelSection(t).Some?
    ensures NumberedSectionLevel(t) == Some(H2)
  {
    var a := RunEnd(t, 0, IsDigit);
    assert IsDigit(t[a + 1]);
  }

  /** Three-level numbering never satisfies the two-level pattern, so it gets H3. */
  lemma ThreeLevelIsH3(t: string)
    requires ThreeLevelSection(t).Some?
    ensures NumberedSectionLevel(t) == Some(H3)
  {
    ThreeLevelIsNotTwoLevel(t);
  }

  lemma ThreeLevelIsNotTwoLevel(t: string)
    requires ThreeLevelSection(t).Some?
    ensures MainSection(t).None? && TwoLevelSection(t).None?
  {
    ThreeLevelShape(t);
    DigitAfterNumberIsNotMain(t);
    DigitAfterSecondDotIsNotTwoLevel(t);
  }

  /** "n.m.k" has a digit right after the first '.', and a '.' and a digit after "n.m". */
  lemma ThreeLevelShape(t: string)
    requires ThreeLevelSection(t).Some?
    ensures RunEnd(t, 0, IsDigit) + 1 < |t| && IsDigit(t[RunEnd(t, 0, IsDigit) + 1])
    ensures RunEnd(t, RunEnd(t, 0, IsDigit) + 1, IsDigit) + 1 < |t|
    ensures t[RunEnd(t, RunEnd(t, 0, IsDigit) + 1, IsDigit)] == '.'
    ensures IsDigit(t[RunEnd(t, RunEnd(t, 0, IsDigit) + 1, IsDigit) + 1])
  {
    var a := RunEnd(t, 0, IsDigit);
    assert t[a] == t[a..a + 1][0];
    var c := RunEnd(t, a + 1, IsDigit);
    assert t[c] == t[c..c + 1][0];
  }

  /** A digit right after "n." rules out the main-section form. */
  lemma DigitAfterNumberIsNotMain(t: string)
    requires RunEnd(t, 0, IsDigit) + 1 < |t| && IsDigit(t[RunEnd(t, 0, IsDigit) + 1])
    ensures MainSection(t).None?
  {
  }

  /** A '.' and a digit right after "n.m" rule out the two-level form. */
  lemma DigitAfterSecondDotIsNotTwoLevel(t: string)
    requires RunEnd(t, 0, IsDigit) + 1 <= |t|
    requires RunEnd(t, RunEnd(t, 0, IsDigit) + 1, IsDigit) + 1 < |t|
    requires t[RunEnd(t, RunEnd(t, 0, IsDigit) + 1, IsDigit)] == '.'
    requires IsDigit(t[RunEnd(t, RunEnd(t, 0, IsDigit) + 1, IsDigit) + 1])
    ensures TwoLevelSection(t).None?
  {
  }

  /** A standalone numeral such as "II." gets H3. */
  lemma RomanAloneIsH3(t: string)
    requires RomanAlone(Strip(t)).Some?
    ensures NumberedSectionLevel(t) == Some(H3)
  {
    AloneShape(Strip(t), IsRoman);
    if t != [] && !IsSpace(t[0]) {
      StripKeepsFirst(t);
    }
  }

  /** A numeral followed by a capitalised title, as in "IV. Methodology", gets H1. */
  lemma RomanTitledIsH1(t: string)
    requires RomanTitled(t).Some?
    ensures NumberedSectionLevel(t) == Some(H1)
  {
    RomanTitledIsNotAlone(t);
  }

  lemma RomanTitledIsNotAlone(t: string)
    requires RomanTitled(t).Some?
    ensures RomanAlone(Strip(t)).None?
  {
    var a := RunEnd(t, 0, IsRoman);
    var c := RunEnd(t, a + 1, IsSpace);
    if RomanAlone(Strip(t)).Some? {
      StripKeepsFirst(t);
      AloneInPadded(Strip(t), t, IsRoman);
      assert false;
    }
  }

  /** A standalone number such as "7." gets H2. */
  lemma NumberAloneIsH2(t: string)
    requires NumberAlone(Strip(t)).Some?
    ensures NumberedSectionLevel(t) == Some(H2)
  {
    AloneShape(Strip(t), IsDigit);
    if t != [] && !IsSpace(t[0]) {
      StripKeepsFirst(t);
      NumberAloneIsNotTitled(t);
    }
  }

  lemma NumberAloneIsNotTitled(t: string)
    requires NumberAlone(Strip(t)).Some? && t != [] && !IsSpace(t[0])
    ensures MainSection(t).None? && TwoLevelSection(t).None? && ThreeLevelSection(t).None?
  {
    StripKeepsFirst(t);
    AloneInPadded(Strip(t), t, IsDigit);
    var a := RunEnd(t, 0, IsDigit);
    if a + 1 < |t| {
      RunEndIs(t, a + 1, IsSpace, |t|);
    }
  }

  /** "3.2: Analysis" is not taken for any earlier form, so it gets H2. */
  lemma ColonSectionIsH2(t: string)
    requires ColonSection(t).Some?
    ensures NumberedSectionLevel(t) == Some(H2)
  {
    ColonSectionIsNotDotted(t);
    ColonSectionIsNotAlone(t);
  }

  lemma ColonSectionIsNotDotted(t: string)
    requires ColonSection(t).Some?
    ensures MainSection(t).None? && TwoLevelSection(t).None? && ThreeLevelSection(t).None?
  {
    var a := RunEnd(t, 0, IsDigit);
    var c := RunEnd(t, a + 1, IsDigit);
    assert t[c] == ':';
  }

  lemma ColonSectionIsNotAlone(t: string)
    requires ColonSection(t).Some?
    ensures RomanAlone(Strip(t)).None? && NumberAlone(Strip(t)).None?
  {
    StripKeepsFirst(t);
    DigitFirstIsNotRoman(Strip(t));
    ColonSectionIsNotNumberAlone(t);
  }

  lemma DigitFirstIsNotRoman(s: string)
    requires s != [] && IsDigit(s[0])
    ensures RomanAlone(s).None?
  {
  }

  lemma ColonSectionIsNotNumberAlone(t: string)
    requires ColonSection(t).Some?
    ensures NumberAlone(Strip(t)).None?
  {
    var a := RunEnd(t, 0, IsDigit);
    assert a + 1 < |t| && IsDigit(t[a + 1]);
    StripKeepsFirst(t);
    if NumberAlone(Strip(t)).Some? {
      AloneInPadded(Strip(t), t, IsDigit);
      assert false;
    }
  }

  // ------------------------------------------------------ standard headings

  const StandardHeadings: seq<string> := [
    "ABSTRACT", "INTRODUCTION", "BACKGROUND", "RELATED WORK",
    "METHODOLOGY", "METHODS", "NUMERICAL SETUP", "EXPERIMENTAL SETUP",
    "RESULTS", "ANALYSIS", "DISCUSSION", "CONCLUSION", "CONCLUSIONS",
    "REFERENCES", "BIBLIOGRAPHY", "ACKNOWLEDGMENTS", "ACKNOWLEDGEMENTS",
    "APPENDIX", "SUMMARY", "OVERVIEW",
    "GENERAL INSTRUCTIONS", "SECTION A", "SECTION B", "SECTION C",
    "OBJECTIVE TYPE", "SUBJECTIVE TYPE", "JAPANESE", "ENGLISH",
    "INSTRUCTIONS", "MARKING SCHEME"
  ]

  /** `^\d+\.\s+<heading>$`. */
  function NumberedHeading(u: string, heading: string): Option<nat> {
    var a :- Plus(u, 0, IsDigit);
    var b :- Lit(u, a, ".");
    var c :- Plus(u, b, IsSpace);
    var d :- Lit(u, c, heading);
    End(u, d)
  }

  predicate NumberedStandard(u: string, headings: seq<string>)
    decreases |headings|
  {
    |headings| > 0 && (NumberedHeading(u, headings[0]).Some? || NumberedStandard(u, headings[1..]))
  }

  /** `^<word>\s+[A-Z0-9]+$`. */
  function LabelledPart(u: string, word: string): Option<nat> {
    var a :- Lit(u, 0, word);
    var b :- Plus(u, a, IsSpace);
    var c :- Plus(u, b, IsUpperOrDigit);
    End(u, c)
  }

  /** `^(SECTION|PART|CHAPTER)\s+[A-Z0-9]+$`. */
  predicate IsPartLabel(u: string) {
    LabelledPart(u, "SECTION").Some? || LabelledPart(u, "PART").Some? || LabelledPart(u, "CHAPTER").Some?
  }

  /** `_is_standard_heading`, on the upper-cased, stripped text. */
  predicate IsStandardHeading(t: string) {
    var u := Strip(Upper(t));
    u in StandardHeadings || NumberedStandard(u, StandardHeadings) || IsPartLabel(u)
  }

  /** The test ignores letter case. */
  lemma StandardHeadingIgnoresCase(t: string)
    ensures IsStandardHeading(Lower(t)) <==> IsStandardHeading(t)
  {
    UpperOfLower(t);
  }

  /** The numbered form: some list entry under a section number. */
  lemma {:induction false} NumberedStandardIff(u: string, headings: seq<string>)
    ensures NumberedStandard(u, headings) <==> exists k :: 0 <= k < |headings| && NumberedHeading(u, headings[k]).Some?
    decreases |headings|
  {
    if |headings| > 0 {
      NumberedStandardIff(u, headings[1..]);
      assert forall k :: 1 <= k < |headings| ==> headings[k] == headings[1..][k - 1];
    }
  }

  /** "abstract" is a standard heading, so whatever its font it is classified H1. */
  lemma AbstractIsStandard(t: string)
    requires t == "abstract"
    ensures IsStandardHeading(t)
  {
    assert Upper(t) == "ABSTRACT";
    StripOfStripped("ABSTRACT");
  }

  // -------------------------------------------------- abbreviation endings

  const Abbreviations: seq<string> := ["et al.", "Fig.", "fig.", "Table", "Eq.", "eq.", "vs.", "cf.", "i.e.", "e.g."]

  /** `_is_abbreviation_ending`. */
  predicate IsAbbreviationEnding(t: string) {
    EndsWithAny(t, Abbreviations)
  }

  // ---------------------------------------------------- Japanese detector

  /** Hiragana, Katakana or a CJK Unified Ideograph up to U+9FAF. */
  predicate IsJapaneseChar(c: char) {
    || ('\U{3040}' <= c <= '\U{309F}')
    || ('\U{30A0}' <= c <= '\U{30FF}')
    || ('\U{4E00}' <= c <= '\U{9FAF}')
  }

  predicate HasJapanese(t: string) {
    exists i :: 0 <= i < |t| && IsJapaneseChar(t[i])
  }

  /** The four `main_heading_patterns` alternations, flattened. */
  const JapaneseMainWords: seq<string> := [
    "問題", "質問", "説明", "指示", "注意",
    "セクション", "部分", "章",
    "一般的な指示", "全般的指示",
    "客観", "主観"
  ]

  /** `<word>\s*[ABC]` found at `i`. */
  predicate LetteredAt(t: string, i: nat, word: string) {
    LiteralAt(t, i, word) && var j := RunEnd(t, i + |word|, IsSpace); j < |t| && t[j] in "ABC"
  }

  predicate IsKanjiNumeral(c: char) { c in "一二三四五六七八九十" }

  /** `第\s*[一二三四五六七八九十]+\s*部` found at `i`. */
  predicate PartNumberAt(t: string, i: nat) {
    LiteralAt(t, i, "第") &&
    var a := RunEnd(t, i + 1, IsSpace);
    var b := RunEnd(t, a, IsKanjiNumeral);
    a < b && LiteralAt(t, RunEnd(t, b, IsSpace), "部")
  }

  /** The `section_patterns`: lettered sections and parts, or a numbered part. */
  predicate HasSectionMarker(t: string) {
    exists i :: 0 <= i <= |t| && (LetteredAt(t, i, "セクション") || LetteredAt(t, i, "部分") || PartNumberAt(t, i))
  }

  /** `<a>.*<b>` with `<a>` at `i` and `<b>` at `j`: `.` does not cross a line break. */
  predicate SpannedAt(t: string, i: nat, j: nat, a: string, b: string) {
    LiteralAt(t, i, a) && i + |a| <= j && LiteralAt(t, j, b) && forall k :: i + |a| <= k < j ==> t[k] != '\n'
  }

  /** The `instruction_patterns`. */
  predicate HasInstructionMarker(t: string) {
    || (exists i, j :: 0 <= i <= j <= |t| && SpannedAt(t, i, j, "本問題集は", "分けられている"))
    || (exists i, j :: 0 <= i <= j <= |t| && SpannedAt(t, i, j, "合計", "質問がある"))
    || Contains(t, "説明どおりに答えること")
    || Contains(t, "質問の番号を書くこと")
  }

  /** `_is_japanese_heading`. */
  function JapaneseHeadingLevel(t: string): Option<Level> {
    if !HasJapanese(t) then None
    else if ContainsAny(t, JapaneseMainWords) then Some(H1)
    else if HasSectionMarker(t) then Some(H1)
    else if HasInstructionMarker(t) then Some(H2)
    else if |t| <= 15 then Some(H3)
    else None
  }

  /** Every instruction pattern contains one of the main words, so the detector
      never answers H2: its H2 branch is unreachable. */
  lemma JapaneseNeverH2(t: string)
    ensures JapaneseHeadingLevel(t) != Some(H2)
  {
    if HasJapanese(t) && HasInstructionMarker(t) {
      var k, i := InstructionMainWord(t);
      ContainsAt(t, JapaneseMainWords[k], i);
      ContainsAnyIff(t, JapaneseMainWords);
    }
  }

  /** Where a main word sits inside each instruction pattern. */
  lemma InstructionMainWord(t: string) returns (k: nat, i: nat)
    requires HasInstructionMarker(t)
    ensures k < |JapaneseMainWords| && LiteralAt(t, i, JapaneseMainWords[k])
  {
    if exists i, j :: 0 <= i <= j <= |t| && SpannedAt(t, i, j, "本問題集は", "分けられている") {
      var i0, j :| 0 <= i0 <= j <= |t| && SpannedAt(t, i0, j, "本問題集は", "分けられている");
      LiteralInside(t, i0, "本問題集は", 1, "問題");
      k, i := 0, i0 + 1;
    } else if exists i, j :: 0 <= i <= j <= |t| && SpannedAt(t, i, j, "合計", "質問がある") {
      var i0, j :| 0 <= i0 <= j <= |t| && SpannedAt(t, i0, j, "合計", "質問がある");
      LiteralInside(t, j, "質問がある", 0, "質問");
      k, i := 1, j;
    } else if Contains(t, "説明どおりに答えること") {
      var w := ContainsWitness(t, "説明どおりに答えること");
      LiteralInside(t, w, "説明どおりに答えること", 0, "説明");
      k, i := 2, w;
    } else {
      var w := ContainsWitness(t, "質問の番号を書くこと");
      LiteralInside(t, w, "質問の番号を書くこと", 0, "質問");
      k, i := 1, w;
    }
  }

  // ------------------------------------------------------- body-text filter

  const BodyIndicators: seq<string> := [
    "however", "therefore", "although", "nevertheless", "furthermore",
    "moreover", "consequently", "in addition", "for example", "such as",
    "this is", "it is", "there are", "we find", "we show", "we present",
    "as shown", "as discussed", "in order to", "due to", "based on",
    "according to", "in contrast", "on the other hand", "in particular",
    "note that", "it should be", "one can", "this suggests", "these results",
    "the results", "our results", "has been", "have been", "will be",
    "can be", "may be", "should be", "would be", "could be"
  ]

  const QuestionWords: seq<string> := ["what", "when", "where", "why", "how", "which", "who"]

  const Conjunctions: seq<string> := [" and ", " or ", " but ", " yet ", " so ", " for ", " nor "]

  /** The class `[=<>±∼∈∀∃∇∂∫∑∏]`. */
  const MathSymbols: string := "=<>\U{B1}\U{223C}\U{2208}\U{2200}\U{2203}\U{2207}\U{2202}\U{222B}\U{2211}\U{220F}"

  const BodyStarters: seq<string> := [
    "however,", "therefore,", "furthermore,", "moreover,", "additionally,",
    "it is", "there is", "there are", "as shown in", "as discussed in",
    "we present", "we show", "we find", "we observe", "we demonstrate",
    "this paper", "this study", "this work", "this approach",
    "the", "these", "those", "many", "some", "all", "most"
  ]

  const MetadataMarkers: seq<string> := [
    "arxiv:", "doi:", "http:", "www.", ".com", ".org", ".edu",
    "typeset", "latex", "corresponding author", "email", "@",
    "preprint", "submitted", "accepted", "published", "draft version"
  ]

  /** `^<word>\s+\d`, case-insensitive, on the lower-cased text. */
  function CaptionAt(lt: string, word: string): Option<nat> {
    var a :- Lit(lt, 0, word);
    var b :- Plus(lt, a, IsSpace);
    One(lt, b, IsDigit)
  }

  /** `^(Table|Figure|Eq\.|Section)\s+\d+` with IGNORECASE. */
  predicate IsCaptionReference(t: string) {
    var lt := Lower(t);
    CaptionAt(lt, "table").Some? || CaptionAt(lt, "figure").Some? || CaptionAt(lt, "eq.").Some? || CaptionAt(lt, "section").Some?
  }

  /** `\b(19|20)\d{2}[;,\)]` found at `i`. */
  predicate CitationAt(t: string, i: nat) {
    && i + 5 <= |t|
    && (i == 0 || !IsWordChar(t[i - 1]))
    && (t[i..i + 2] == "19" || t[i..i + 2] == "20")
    && IsDigit(t[i + 2]) && IsDigit(t[i + 3])
    && t[i + 4] in ";,)"
  }

  predicate HasCitationYear(t: string) {
    exists i :: 0 <= i <= |t| && CitationAt(t, i)
  }

  predicate HasMathSymbol(t: string) {
    exists i :: 0 <= i < |t| && t[i] in MathSymbols
  }

  /** `^<word> \w+`, where `word` already ends in its space. */
  predicate WordAfter(lt: string, word: string) {
    StartsWith(lt, word) && |word| < |lt| && IsWordChar(lt[|word|])
  }

  /** `^\w+ and \w+`. */
  predicate PairedWords(lt: string) {
    var a := RunEnd(lt, 0, IsWordChar);
    0 < a && LiteralAt(lt, a, " and ") && a + 5 < |lt| && IsWordChar(lt[a + 5])
  }

  /** The `body_patterns`, matched on the lower-cased text. */
  predicate HasBodyPattern(lt: string) {
    || WordAfter(lt, "in ") || WordAfter(lt, "at ") || WordAfter(lt, "for ")
    || WordAfter(lt, "with ") || WordAfter(lt, "from ")
    || PairedWords(lt)
  }

  /**
    `_is_definitely_body_text`. Every check after the Japanese branch returns
    True on success, so the sequence of early returns is their disjunction.
  */
  function IsDefinitelyBodyText(t: string): (r: bool)
    ensures |t| > 80 ==> r
    ensures EndsWith(t, "-") || EndsWith(t, ",") || EndsWith(t, ";") ==> r
    ensures HasJapanese(t) && |t| <= 80 && !(EndsWith(t, "-") || EndsWith(t, ",") || EndsWith(t, ";")) ==>
              (r <==> |t| > 50 || (EndsWith(t, "。") && |t| > 25))
    ensures !HasJapanese(t) && |t| > 0 && IsLowerChar(t[0]) ==> r
  {
    if |t| > 80 then true
    else if EndsWith(t, "-") || EndsWith(t, ",") || EndsWith(t, ";") then true
    else if HasJapanese(t) then
      |t| > 50 || (EndsWith(t, "。") && |t| > 25)
    else
      var lt := Lower(t);
      || ContainsAny(lt, BodyIndicators)
      || (|t| > 0 && IsLowerChar(t[0]))
      || (HasChar(t, '(') && HasChar(t, ')') && !IsCaptionReference(t))
      || ContainsAny(lt, QuestionWords)
      || (EndsWith(t, ".") && !IsAbbreviationEnding(t))
      || Contains(t, ". ")
      || ContainsAny(lt, Conjunctions)
      || (HasCitationYear(t) && (Contains(t, "et al.") || |t| > 30))
      || (HasMathSymbol(t) && |t| > 15)
      || StartsWithAny(lt, BodyStarters)
      || HasBodyPattern(lt)
      || ContainsAny(lt, MetadataMarkers)
  }

  /**
    Question words are substring tests: text without Japanese characters
    whose lower-cased form contains one anywhere, even inside a longer word,
    is body text.
  */
  lemma QuestionWordInsideWord(t: string, k: nat)
    requires !HasJapanese(t) && k < |QuestionWords| && Contains(Lower(t), QuestionWords[k])
    ensures IsDefinitelyBodyText(t)
  {
    ContainsAnyIff(Lower(t), QuestionWords);
  }

  /** "Show Results" is body text, since "show" contains "how". */
  lemma ShowResultsIsBody(t: string)
    requires t == "Show Results"
    ensures IsDefinitelyBodyText(t)
  {
    assert !HasJapanese(t);
    LowerAt(t);
    assert Lower(t)[1..4] == "how" == QuestionWords[4];
    ContainsAt(Lower(t), "how", 1);
    QuestionWordInsideWord(t, 4);
  }

  /**
    Sentence starters are prefix tests: text without Japanese characters
    whose lower-cased form begins with one, even as part of a longer word,
    is body text.
  */
  lemma StarterPrefixIsBody(t: string, k: nat)
    requires !HasJapanese(t) && k < |BodyStarters| && StartsWith(Lower(t), BodyStarters[k])
    ensures IsDefinitelyBodyText(t)
  {
    StartsWithAnyIff(Lower(t), BodyStarters);
  }

  /** The starter "the" is a prefix test, so "Theory" counts as body text. */
  lemma TheStarterMatchesTheory(t: string)
    requires t == "Theory"
    ensures IsDefinitelyBodyText(t)
  {
    assert !HasJapanese(t);
    LowerAt(t);
    assert Lower(t)[..3] == "the" == BodyStarters[19];
    StarterPrefixIsBody(t, 19);
  }

  // ------------------------------------------------- heading-content check

  /** The four `japanese_heading_patterns` alternations, flattened. */
  const JapaneseContentWords: seq<string> := [
    "問題", "質問", "説明", "指示", "注意",
    "セクション", "部分", "章",
    "合計", "全部", "すべて",
    "答え", "回答", "解答"
  ]

  const BodyPhrases: seq<string> := [
    "this is", "it is", "there are", "we find", "we show", "we present",
    "as shown", "however", "therefore", "although", "furthermore",
    "in order to", "due to", "based on", "according to"
  ]

  /** `_looks_like_heading_content`. */
  function LooksLikeHeadingContent(t: string): (r: bool)
    ensures IsUpperStr(t) && |t| > 3 ==> r
    ensures HasJapanese(t) && |t| < 30 ==> r
    ensures r && !HasJapanese(t) && !(IsUpperStr(t) && |t| > 3) ==>
              |t| > 0 && IsUpperChar(t[0]) && !ContainsAny(Lower(t), BodyPhrases)
  {
    if IsUpperStr(t) && |t| > 3 then true
    else if HasJapanese(t) && (|t| < 30 || ContainsAny(t, JapaneseContentWords)) then true
    else
      && |t| > 0 && IsUpperChar(t[0])
      && (!EndsWith(t, ".") || IsAbbreviationEnding(t))
      && !ContainsAny(Lower(t), BodyPhrases)
  }
}
