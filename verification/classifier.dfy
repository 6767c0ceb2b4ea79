/**
  `classify_heading_level`: a first-match-wins cascade over the stripped text
  of one block. Text rules come first (numbering, standard names, the Japanese
  detector, the body filter, length and word-count gates); only then are the
  block's font size relative to the median, its boldness and the language
  table consulted.
*/
module Classifier {
  import opened Common
  import opened Text
  import opened Blocks
  import opened Patterns
  import opened Languages

  /** The verdict the text alone decides, before any font size is looked at. */
  function TextVerdict(t: string): (r: Option<Class>)
    ensures NumberedSectionLevel(t).Some? ==> r == Some(Heading(NumberedSectionLevel(t).value))
    ensures NumberedSectionLevel(t).None? && IsStandardHeading(t) ==> r == Some(Heading(H1))
    ensures NumberedSectionLevel(t).None? && !IsStandardHeading(t) && JapaneseHeadingLevel(t).Some? ==>
              r == Some(Heading(JapaneseHeadingLevel(t).value))
    ensures NumberedSectionLevel(t).None? && !IsStandardHeading(t) && JapaneseHeadingLevel(t).None? ==>
              (r.Some? <==> IsDefinitelyBodyText(t) || |t| > 60 || WordCount(t) > 10)
              && (r.Some? ==> r == Some(Body))
  {
    var numbered := NumberedSectionLevel(t);
    if numbered.Some? then Some(Heading(numbered.value))
    else if IsStandardHeading(t) then Some(Heading(H1))
    else
      var japanese := JapaneseHeadingLevel(t);
      if japanese.Some? then Some(Heading(japanese.value))
      else if IsDefinitelyBodyText(t) then Some(Body)
      else if |t| > 60 then Some(Body)
      else if WordCount(t) > 10 then Some(Body)
      else None
  }

  /**
    The font gate: a block at least 1.4 times the median size, bold, whose
    content looks like a heading. Its last branch (H3) cannot be reached, since
    the gate is only entered with a ratio of at least 1.4.
  */
  function FontGate(t: string, ratio: real, isBold: bool): (r: Option<Level>)
    ensures r.Some? <==> ratio >= 1.4 && isBold && LooksLikeHeadingContent(t)
    ensures r.Some? ==> (r == Some(H1) <==> ratio >= 1.6)
    ensures r != Some(H3)
  {
    if ratio >= 1.4 && isBold && LooksLikeHeadingContent(t) then
      if ratio >= 1.6 then Some(H1)
      else if ratio >= 1.4 then Some(H2)
      else Some(H3)
    else None
  }

  /** The level the language table gives the text, if any. */
  function LanguageVerdict(t: string): Option<Level> {
    DetectFrom(LanguageTable, t, 0).level
  }

  /**
    The ratio to the median size is computed only once the text rules have let
    the block through; only then must the median be non-zero.
  */
  predicate CanClassify(b: TextBlock, stats: FontStats) {
    stats.median != 0.0 || TextVerdict(Strip(b.text)).Some?
  }

  /** The class of one block. */
  function ClassifyHeading(b: TextBlock, stats: FontStats): (r: Class)
    requires CanClassify(b, stats)
    ensures TextVerdict(Strip(b.text)).Some? ==> r == TextVerdict(Strip(b.text)).value
    ensures TextVerdict(Strip(b.text)).None? && FontGate(Strip(b.text), b.fontSize / stats.median, b.isBold).Some? ==>
              r == Heading(FontGate(Strip(b.text), b.fontSize / stats.median, b.isBold).value)
    ensures TextVerdict(Strip(b.text)).None? && FontGate(Strip(b.text), b.fontSize / stats.median, b.isBold).None? ==>
              r == if LanguageVerdict(Strip(b.text)).Some? then Heading(LanguageVerdict(Strip(b.text)).value)
                   else if b.fontSize / stats.median >= 1.8 && LooksLikeHeadingContent(Strip(b.text)) then Heading(H1)
                   else Body
  {
    var t := Strip(b.text);
    var early := TextVerdict(t);
    if early.Some? then early.value
    else
      var ratio := b.fontSize / stats.median;
      var gate := FontGate(t, ratio, b.isBold);
      if gate.Some? then Heading(gate.value)
      else
        var language := LanguageVerdict(t);
        if language.Some? then Heading(language.value)
        else if ratio >= 1.8 && LooksLikeHeadingContent(t) then Heading(H1)
        else Body
  }

  /**
    A heading that no text rule decided is short: at most 60 characters and
    10 words, and not body text.
  */
  lemma LateHeadingIsShort(b: TextBlock, stats: FontStats)
    requires CanClassify(b, stats)
    requires ClassifyHeading(b, stats).Heading?
    requires NumberedSectionLevel(Strip(b.text)).None? && !IsStandardHeading(Strip(b.text))
    requires JapaneseHeadingLevel(Strip(b.text)).None?
    ensures |Strip(b.text)| <= 60 && WordCount(Strip(b.text)) <= 10 && !IsDefinitelyBodyText(Strip(b.text))
  {
    LateVerdict(Strip(b.text), ClassifyHeading(b, stats));
  }

  lemma LateVerdict(t: string, c: Class)
    requires NumberedSectionLevel(t).None? && !IsStandardHeading(t) && JapaneseHeadingLevel(t).None?
    requires c.Heading? && (TextVerdict(t).Some? ==> c == TextVerdict(t).value)
    ensures |t| <= 60 && WordCount(t) <= 10 && !IsDefinitelyBodyText(t)
  {
  }

  /**
    Text starting with a lower-case letter, without Japanese characters, that
    is not a standard heading name is body text whatever its font: it carries
    no section number and the body filter catches it.
  */
  lemma LowercaseStartIsBody(b: TextBlock, stats: FontStats)
    requires CanClassify(b, stats)
    requires Strip(b.text) != [] && IsLowerChar(Strip(b.text)[0])
    requires !HasJapanese(Strip(b.text)) && !IsStandardHeading(Strip(b.text))
    ensures ClassifyHeading(b, stats) == Body
  {
    StripIdempotent(b.text);
    LowercaseTextIsBody(Strip(b.text));
  }

  lemma LowercaseTextIsBody(t: string)
    requires Strip(t) == t && t != [] && IsLowerChar(t[0])
    requires !HasJapanese(t) && !IsStandardHeading(t)
    ensures TextVerdict(t) == Some(Body)
  {
    LowercaseIsNotNumbered(t);
    assert JapaneseHeadingLevel(t).None?;
    assert IsDefinitelyBodyText(t);
  }

  lemma LowercaseIsNotNumbered(t: string)
    requires Strip(t) == t && t != [] && IsLowerChar(t[0])
    ensures NumberedSectionLevel(t).None?
  {
    if NumberedSectionLevel(t).Some? {
      NumberedNeedsDigitOrRoman(t);
      assert false;
    }
  }

  /** "abstract", in any font, is classified H1. */
  lemma AbstractIsH1(b: TextBlock, stats: FontStats)
    requires CanClassify(b, stats)
    requires b.text == "abstract"
    ensures ClassifyHeading(b, stats) == Heading(H1)
  {
    StripOfStripped("abstract");
    AbstractIsStandard(b.text);
    if NumberedSectionLevel("abstract").Some? {
      NumberedNeedsDigitOrRoman("abstract");
      assert false;
    }
  }
}
