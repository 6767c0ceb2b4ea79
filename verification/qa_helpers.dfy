/**
  The small pure helpers of the question-answering model: persona lookup,
  answer prefixing, sentence splitting, the section-heading test and the pick
  of the best sentences of a section.
*/
module QaHelpers {
  import opened Common
  import opened Text
  import opened Matching
  import opened Sorting

  // ------------------------------------------------------------- persona

  datatype Persona = Persona(name: string, keywords: seq<string>)

  /**
    `persona_keywords`, in declaration order, with the first five keywords of
    each entry: the lookup reads no others.
  */
  const PersonaTable: seq<Persona> := [
    Persona("researcher", ["methodology", "analysis", "results", "findings", "experiment"]),
    Persona("student", ["definition", "example", "concept", "principle", "theory"]),
    Persona("analyst", ["trend", "growth", "revenue", "profit", "investment"]),
    Persona("business", ["strategy", "market", "competitive", "revenue", "growth"]),
    Persona("journalist", ["who", "what", "when", "where", "why"]),
    Persona("developer", ["code", "programming", "software", "application", "framework"]),
    Persona("designer", ["visual", "aesthetic", "layout", "typography", "color"]),
    Persona("manager", ["team", "project", "planning", "execution", "leadership"]),
    Persona("marketer", ["campaign", "audience", "brand", "promotion", "advertising"]),
    Persona("sales", ["customer", "client", "prospect", "lead", "conversion"]),
    Persona("consultant", ["advisory", "recommendation", "solution", "strategy", "implementation"]),
    Persona("teacher", ["education", "learning", "instruction", "curriculum", "lesson"]),
    Persona("doctor", ["patient", "diagnosis", "treatment", "medical", "clinical"]),
    Persona("lawyer", ["legal", "law", "regulation", "compliance", "contract"]),
    Persona("engineer", ["technical", "system", "design", "specification", "requirement"]),
    Persona("travel_planner", ["destination", "itinerary", "accommodation", "hotel", "flight"]),
    Persona("chef", ["recipe", "ingredient", "cooking", "preparation", "technique"]),
    Persona("fitness_trainer", ["exercise", "workout", "training", "fitness", "strength"])
  ]

  /** How many of `ws` occur in `s` (`sum(1 for w in ws if w in s)`). */
  function KeywordHits(s: string, ws: seq<string>): (n: nat)
    ensures n <= |ws|
    ensures n == 0 <==> forall k :: 0 <= k < |ws| ==> !Contains(s, ws[k])
    decreases |ws|
  {
    if ws == [] then 0
    else
      var rest := KeywordHits(s, ws[1..]);
      assert forall k :: 1 <= k < |ws| ==> ws[k] == ws[1..][k - 1];
      (if Contains(s, ws[0]) then 1 else 0) + rest
  }

  /** A persona entry fits the lower-cased description: its name occurs in it, or two of its keywords do. */
  predicate Fits(pl: string, p: Persona) {
    Contains(pl, p.name) || KeywordHits(pl, p.keywords) >= 2
  }

  /** The first entry from `i` on that fits, or "general". */
  function PersonaFrom(table: seq<Persona>, pl: string, i: nat): string
    decreases |table| - i
  {
    if i >= |table| then "general"
    else if Fits(pl, table[i]) then table[i].name
    else PersonaFrom(table, pl, i + 1)
  }

  /** `identify_persona_type`. */
  method IdentifyPersonaType(persona: string) returns (r: string)
    ensures r == PersonaFrom(PersonaTable, Lower(persona), 0)
  {
    var pl := Lower(persona);
    var i := 0;
    while i < |PersonaTable|
      invariant 0 <= i <= |PersonaTable|
      invariant PersonaFrom(PersonaTable, pl, i) == PersonaFrom(PersonaTable, pl, 0)
    {
      var p := PersonaTable[i];
      if Contains(pl, p.name) {
        return p.name;
      }
      var hits := KeywordHits(pl, p.keywords);
      if hits >= 2 {
        return p.name;
      }
      i := i + 1;
    }
    return "general";
  }

  /** When no entry fits, the persona is "general". */
  lemma {:induction false} NoFitIsGeneral(table: seq<Persona>, pl: string, i: nat)
    requires forall k :: i <= k < |table| ==> !Fits(pl, table[k])
    ensures PersonaFrom(table, pl, i) == "general"
    decreases |table| - i
  {
    if i < |table| {
      NoFitIsGeneral(table, pl, i + 1);
    }
  }

  /** When some entry fits, the persona is the name of the first entry that fits. */
  lemma {:induction false} FirstFitWins(table: seq<Persona>, pl: string, i: nat, j: nat) returns (k: nat)
    requires i <= j < |table| && Fits(pl, table[j])
    ensures i <= k <= j && Fits(pl, table[k]) && PersonaFrom(table, pl, i) == table[k].name
    ensures forall m :: i <= m < k ==> !Fits(pl, table[m])
    decreases |table| - i
  {
    if Fits(pl, table[i]) {
      k := i;
    } else {
      k := FirstFitWins(table, pl, i + 1, j);
    }
  }

  /** A description naming the first entry, "researcher", is always that persona. */
  lemma ResearcherFirst(persona: string)
    requires Contains(Lower(persona), "researcher")
    ensures PersonaFrom(PersonaTable, Lower(persona), 0) == "researcher"
  {
    assert PersonaTable[0].name == "researcher";
  }

  // -------------------------------------------------------------- answer

  /** The label each of the four prefixed persona types puts before its answer. */
  function PersonaPrefix(personaType: string): Option<string> {
    if personaType == "student" then Some("Key Information: ")
    else if personaType == "researcher" then Some("Research Findings: ")
    else if personaType == "analyst" then Some("Analysis: ")
    else if personaType == "business" then Some("Business Insights: ")
    else None
  }

  /** `_format_answer_for_persona`: the parts joined by spaces, after the persona's label if it has one. */
  function FormatAnswerForPersona(parts: seq<string>, personaType: string): (r: string)
    ensures EndsWith(r, Join(parts, " "))
    ensures PersonaPrefix(personaType).Some? ==> StartsWith(r, PersonaPrefix(personaType).value)
    ensures r == Join(parts, " ") <==> PersonaPrefix(personaType).None?
    ensures |r| == |Join(parts, " ")| + if PersonaPrefix(personaType).Some? then |PersonaPrefix(personaType).value| else 0
  {
    var answer := Join(parts, " ");
    match PersonaPrefix(personaType)
    case Some(tag) =>
      assert (tag + answer)[|tag + answer| - |answer|..] == answer;
      assert (tag + answer)[..|tag|] == tag;
      tag + answer
    case None => answer
  }

  // ---------------------------------------------------------- sentences

  /** The class `[.!?]`. */
  predicate IsTerminator(c: char) {
    c == '.' || c == '!' || c == '?'
  }

  predicate NotTerminator(c: char) {
    !IsTerminator(c)
  }

  predicate TerminatorFree(s: string) {
    forall k :: 0 <= k < |s| ==> !IsTerminator(s[k])
  }

  /** `re.split(r'[.!?]+', s)`: the pieces between maximal runs of terminators. */
  function Pieces(s: string): (ps: seq<string>)
    ensures |ps| > 0 && forall i :: 0 <= i < |ps| ==> TerminatorFree(ps[i])
    decreases |s|
  {
    var j := RunEnd(s, 0, NotTerminator);
    if j == |s| then [s]
    else
      var k := RunEnd(s, j, IsTerminator);
      assert RunEnd(s, j + 1, IsTerminator) == k;
      [s[..j]] + Pieces(s[k..])
  }

  /**
    A terminator-free text, a run of terminators and a text that does not
    start with one split into that text followed by the pieces of the rest:
    the whole run is one separator.
  */
  lemma PiecesSplit(a: string, d: string, b: string)
    requires TerminatorFree(a)
    requires d != [] && forall m :: 0 <= m < |d| ==> IsTerminator(d[m])
    requires b == [] || !IsTerminator(b[0])
    ensures Pieces(a + d + b) == [a] + Pieces(b)
  {
    var s := a + d + b;
    RunEndIs(s, 0, NotTerminator, |a|);
    RunEndIs(s, |a|, IsTerminator, |a| + |d|);
    assert s[..|a|] == a && s[|a| + |d|..] == b;
  }

  function Concat(ps: seq<string>): string
    decreases |ps|
  {
    if ps == [] then [] else ps[0] + Concat(ps[1..])
  }

  function DropTerminators(s: string): string
    decreases |s|
  {
    if s == [] then [] else (if IsTerminator(s[0]) then [] else [s[0]]) + DropTerminators(s[1..])
  }

  /** Dropping terminators keeps a terminator-free prefix as it is. */
  lemma {:induction false} DropFreePrefix(s: string, j: nat)
    requires j <= |s| && forall m :: 0 <= m < j ==> NotTerminator(s[m])
    ensures DropTerminators(s) == s[..j] + DropTerminators(s[j..])
    decreases j
  {
    if j > 0 {
      DropFreePrefix(s[1..], j - 1);
      assert s[1..][j - 1..] == s[j..];
      assert [s[0]] + s[1..][..j - 1] == s[..j];
    }
  }

  /** Dropping terminators removes a run of them entirely. */
  lemma {:induction false} DropRunPrefix(s: string, k: nat)
    requires k <= |s| && forall m :: 0 <= m < k ==> IsTerminator(s[m])
    ensures DropTerminators(s) == DropTerminators(s[k..])
    decreases k
  {
    if k > 0 {
      DropRunPrefix(s[1..], k - 1);
      assert s[1..][k - 1..] == s[k..];
    }
  }

  /** The pieces, put back together, are the text without its terminators. */
  lemma {:induction false} PiecesCover(s: string)
    ensures Concat(Pieces(s)) == DropTerminators(s)
    decreases |s|
  {
    var j := RunEnd(s, 0, NotTerminator);
    DropFreePrefix(s, j);
    if j == |s| {
      assert Concat([s]) == s + Concat([]);
    } else {
      var k := PiecesStep(s, j);
      PiecesCover(s[k..]);
      DropRunPrefix(s[j..], k - j);
      assert s[j..][k - j..] == s[k..];
    }
  }

  /** Past the first terminator-free piece and the run of terminators after it, splitting goes on at `k`. */
  lemma PiecesStep(s: string, j: nat) returns (k: nat)
    requires j == RunEnd(s, 0, NotTerminator) < |s|
    ensures j < k <= |s| && forall m :: j <= m < k ==> IsTerminator(s[m])
    ensures Concat(Pieces(s)) == s[..j] + Concat(Pieces(s[k..]))
  {
    k := RunEnd(s, j, IsTerminator);
    assert RunEnd(s, j + 1, IsTerminator) == k;
    var ps := Pieces(s);
    assert ps == [s[..j]] + Pieces(s[k..]);
    assert ps[1..] == Pieces(s[k..]);
  }

  /** What the split keeps: stripped, longer than ten characters, without terminators. */
  predicate IsSentence(t: string) {
    |t| > 10 && Strip(t) == t && TerminatorFree(t)
  }

  lemma StrippedPiece(p: string)
    requires TerminatorFree(p) && |Strip(p)| > 10
    ensures IsSentence(Strip(p))
  {
    var t := Strip(p);
    StripIdempotent(p);
    forall k | 0 <= k < |t| ensures !IsTerminator(t[k]) {
      assert t[k] == p[LeadingSpace(p) + k];
    }
  }

  /** The stripped pieces longer than ten characters, in order. */
  function KeepLong(ps: seq<string>): (r: seq<string>)
    requires forall i :: 0 <= i < |ps| ==> TerminatorFree(ps[i])
    ensures forall i :: 0 <= i < |r| ==> IsSentence(r[i])
    decreases |ps|
  {
    if ps == [] then []
    else if |Strip(ps[0])| > 10 then
      StrippedPiece(ps[0]);
      [Strip(ps[0])] + KeepLong(ps[1..])
    else KeepLong(ps[1..])
  }

  /** The pieces are kept or dropped one by one: the filter distributes over concatenation. */
  lemma {:induction false} KeepLongAppend(p: seq<string>, q: seq<string>)
    requires forall i :: 0 <= i < |p| ==> TerminatorFree(p[i])
    requires forall i :: 0 <= i < |q| ==> TerminatorFree(q[i])
    ensures KeepLong(p + q) == KeepLong(p) + KeepLong(q)
    decreases |p|
  {
    if p == [] {
      assert p + q == q;
    } else {
      assert (p + q)[0] == p[0] && (p + q)[1..] == p[1..] + q;
      KeepLongAppend(p[1..], q);
    }
  }

  /** One piece is kept, stripped, exactly when it is longer than ten characters after stripping. */
  lemma KeepLongOne(p: string)
    requires TerminatorFree(p)
    ensures KeepLong([p]) == if |Strip(p)| > 10 then [Strip(p)] else []
  {
    assert [p][1..] == [];
  }

  /**
    `_simple_sentence_split`: every sentence returned is stripped, longer
    than ten characters and free of '.', '!' and '?'.
  */
  function SimpleSentenceSplit(text: string): (r: seq<string>)
    ensures forall i :: 0 <= i < |r| ==> |r[i]| > 10 && Strip(r[i]) == r[i] && TerminatorFree(r[i])
  {
    KeepLong(Pieces(text))
  }

  /**
    Splitting goes sentence by sentence: the text before the first run of
    terminators is the first sentence, kept stripped when it is longer than
    ten characters, and the rest of the text is split on its own.
  */
  lemma SplitAtTerminators(a: string, d: string, b: string)
    requires TerminatorFree(a)
    requires d != [] && forall m :: 0 <= m < |d| ==> IsTerminator(d[m])
    requires b == [] || !IsTerminator(b[0])
    ensures SimpleSentenceSplit(a + d + b) == (if |Strip(a)| > 10 then [Strip(a)] else []) + SimpleSentenceSplit(b)
  {
    PiecesSplit(a, d, b);
    KeepLongAppend([a], Pieces(b));
    KeepLongOne(a);
  }

  /** A text without terminators is one sentence, kept when it is long enough. */
  lemma SingleSentence(text: string)
    requires TerminatorFree(text)
    ensures SimpleSentenceSplit(text) == if |Strip(text)| > 10 then [Strip(text)] else []
  {
    assert RunEnd(text, 0, NotTerminator) == |text| by {
      RunEndIs(text, 0, NotTerminator, |text|);
    }
    assert Pieces(text) == [text];
    assert KeepLong([text]) == (if |Strip(text)| > 10 then [Strip(text)] + KeepLong([]) else KeepLong([]));
  }

  // ------------------------------------------------------ section heading

  predicate IsLowerOrSpace(c: char) {
    IsAsciiLower(c) || IsSpace(c)
  }

  predicate IsRomanLower(c: char) {
    c == 'i' || c == 'v' || c == 'x'
  }

  /**
    The anchored heading patterns other than the all-letters one, matched
    case-insensitively, that is on the lower-cased text:
    `\d+\.\s+[A-Z]`, `[IVX]+\.\s+[A-Z]`, `\d+\.\d+\s+[A-Z]` and the four names.
  */
  const HeadingPatterns: seq<seq<Piece>> := [
    [OneOrMore(IsDigit), Word("."), OneOrMore(IsSpace), OneOrMore(IsAsciiLower)],
    [OneOrMore(IsRomanLower), Word("."), OneOrMore(IsSpace), OneOrMore(IsAsciiLower)],
    [OneOrMore(IsDigit), Word("."), OneOrMore(IsDigit), OneOrMore(IsSpace), OneOrMore(IsAsciiLower)],
    [Word("abstract"), EndAnchor],
    [Word("introduction"), EndAnchor],
    [Word("conclusion"), EndAnchor],
    [Word("references"), EndAnchor]
  ]

  /** `[A-Z][A-Z\s]+$`, case-insensitively: a letter, then letters and whitespace to the end. */
  predicate IsLetterLine(lt: string) {
    |lt| > 0 && IsAsciiLower(lt[0]) && Match(lt, 1, [OneOrMore(IsLowerOrSpace), EndAnchor]).Some?
  }

  function Sum(xs: seq<real>): real
    decreases |xs|
  {
    if xs == [] then 0.0 else xs[0] + Sum(xs[1..])
  }

  /** `_is_section_heading`: 5 to 100 characters, and a heading pattern or a large, bold, short line. */
  function IsSectionHeading(text: string, fontSizes: seq<real>, isBold: bool): (r: bool)
    ensures r ==> 5 <= |text| <= 100
  {
    if |text| < 5 || |text| > 100 then false
    else
      var lt := Lower(text);
      if MatchesAny(lt, HeadingPatterns) || IsLetterLine(lt) then true
      else fontSizes != [] && isBold && Sum(fontSizes) / (|fontSizes| as real) > 13.0 && WordCount(text) <= 8
  }

  /**
    Since matching ignores case, any text of 5 to 100 characters that starts
    with a letter and holds only letters and whitespace is a heading, whatever
    its font.
  */
  lemma LettersOnlyIsHeading(text: string, fontSizes: seq<real>, isBold: bool)
    requires 5 <= |text| <= 100 && IsAsciiLetter(text[0])
    requires forall i :: 0 <= i < |text| ==> IsAsciiLetter(text[i]) || IsSpace(text[i])
    ensures IsSectionHeading(text, fontSizes, isBold)
  {
    var lt := Lower(text);
    LowerAt(text);
    forall i | 0 <= i < |lt| ensures IsLowerOrSpace(lt[i]) {
      LowerCharAscii(text[i]);
    }
    RunEndIs(lt, 1, IsLowerOrSpace, |lt|);
    var rest := [OneOrMore(IsLowerOrSpace), EndAnchor];
    assert Step(lt, 1, rest[0]) == Some(|lt|);
    assert rest[1..] == [EndAnchor] && rest[1..][1..] == [];
    assert Match(lt, |lt|, rest[1..]) == Some(|lt|);
  }

  /** A numbered title such as "3. Results" is a heading, whatever its font. */
  lemma NumberedIsHeading(text: string, fontSizes: seq<real>, isBold: bool)
    requires 5 <= |text| <= 100 && IsDigit(text[0]) && text[1] == '.' && IsSpace(text[2]) && IsAsciiLetter(text[3])
    ensures IsSectionHeading(text, fontSizes, isBold)
  {
    var lt := Lower(text);
    LowerAt(text);
    LowerCharAscii(text[0]);
    LowerCharAscii(text[1]);
    LowerCharAscii(text[2]);
    LowerCharAscii(text[3]);
    NumberedLineMatches(lt);
  }

  lemma NumberedLineMatches(lt: string)
    requires |lt| >= 4 && IsDigit(lt[0]) && lt[1] == '.' && IsSpace(lt[2]) && IsAsciiLower(lt[3])
    ensures MatchesAny(lt, HeadingPatterns)
  {
    var pat := HeadingPatterns[0];
    RunEndIs(lt, 0, IsDigit, 1);
    RunEndIs(lt, 2, IsSpace, 3);
    var e := RunEnd(lt, 3, IsAsciiLower);
    assert Step(lt, 0, pat[0]) == Some(1);
    assert Step(lt, 1, pat[1]) == Some(2);
    assert Step(lt, 2, pat[2]) == Some(3);
    assert Step(lt, 3, pat[3]) == Some(e);
    var p1, p2, p3 := pat[1..], pat[2..], pat[3..];
    assert p1[1..] == p2 && p2[1..] == p3 && p3[1..] == [];
    assert Match(lt, 3, p3) == Some(e);
    assert Match(lt, 2, p2) == Some(e);
    assert Match(lt, 1, p1) == Some(e);
    assert Match(lt, 0, pat) == Some(e);
    MatchesAnyIff(lt, HeadingPatterns);
  }

  // ------------------------------------------------------ best sentences

  /** `set(s.lower().split())`. */
  function WordSet(s: string): set<string> {
    set w | w in Words(Lower(s))
  }

  /**
    The question-word share of a sentence, weighted 0.7, plus the number of
    persona keywords it contains, weighted 0.3.
  */
  function SentenceScore(sentence: string, questionWords: set<string>, keywords: seq<string>): real
    requires questionWords != {}
  {
    var overlap := (|questionWords * WordSet(sentence)| as real) / (|questionWords| as real);
    overlap * 0.7 + (KeywordHits(Lower(sentence), keywords) as real) * 0.3
  }

  /** Sentences shorter than 20 characters after stripping are skipped. */
  predicate LongEnough(sentence: string) {
    |Strip(sentence)| >= 20
  }

  /** The elements among the first `n` of `s` that satisfy `P`, in order. */
  function KeepPrefix<T>(s: seq<T>, n: nat, P: T -> bool): (r: seq<T>)
    requires n <= |s|
    ensures |r| <= n
  {
    if n == 0 then [] else KeepPrefix(s, n - 1, P) + if P(s[n - 1]) then [s[n - 1]] else []
  }

  /** What is kept is exactly the elements that satisfy `P`: none is skipped. */
  lemma {:induction false} KeepPrefixMembers<T>(s: seq<T>, n: nat, P: T -> bool)
    requires n <= |s|
    ensures forall k :: 0 <= k < |KeepPrefix(s, n, P)| ==> KeepPrefix(s, n, P)[k] in s[..n] && P(KeepPrefix(s, n, P)[k])
    ensures forall k :: 0 <= k < n && P(s[k]) ==> s[k] in KeepPrefix(s, n, P)
  {
    if n > 0 {
      KeepPrefixMembers(s, n - 1, P);
      var prev, r := KeepPrefix(s, n - 1, P), KeepPrefix(s, n, P);
      assert s[..n] == s[..n - 1] + [s[n - 1]];
      assert forall k :: 0 <= k < |prev| ==> r[k] == prev[k];
    }
  }

  /** Only the first `n` elements matter. */
  lemma {:induction false} KeepPrefixSame<T>(s: seq<T>, t: seq<T>, n: nat, P: T -> bool)
    requires n <= |s| && n <= |t| && s[..n] == t[..n]
    ensures KeepPrefix(s, n, P) == KeepPrefix(t, n, P)
  {
    if n > 0 {
      assert s[n - 1] == s[..n][n - 1] == t[..n][n - 1] == t[n - 1];
      assert s[..n - 1] == s[..n][..n - 1] && t[..n - 1] == t[..n][..n - 1];
      KeepPrefixSame(s, t, n - 1, P);
    }
  }

  /** The filter goes element by element: it distributes over concatenation. */
  lemma {:induction false} KeepPrefixAppend<T>(a: seq<T>, b: seq<T>, P: T -> bool)
    ensures KeepPrefix(a + b, |a + b|, P) == KeepPrefix(a, |a|, P) + KeepPrefix(b, |b|, P)
    decreases |b|
  {
    if b == [] {
      assert a + b == a;
    } else {
      var ab, b', x := a + b, b[..|b| - 1], b[|b| - 1];
      var ab' := a + b';
      assert ab[..|ab'|] == ab'[..|ab'|] && b[..|b'|] == b'[..|b'|];
      KeepPrefixSame(ab, ab', |ab'|, P);
      KeepPrefixSame(b, b', |b'|, P);
      KeepPrefixAppend(a, b', P);
      assert ab[|ab| - 1] == x;
    }
  }

  /** The long-enough sentences among the first `n`, in order. */
  function LongSentences(sentences: seq<string>, n: nat): (r: seq<string>)
    requires n <= |sentences|
    ensures |r| <= n
  {
    KeepPrefix(sentences, n, LongEnough)
  }

  /**
    The kept sentences are exactly the long-enough ones among the first `n`:
    each kept one is such a sentence, and none of them is skipped.
  */
  lemma LongSentencesMembers(sentences: seq<string>, n: nat)
    requires n <= |sentences|
    ensures forall k :: 0 <= k < |LongSentences(sentences, n)| ==>
              LongSentences(sentences, n)[k] in sentences[..n] && LongEnough(LongSentences(sentences, n)[k])
    ensures forall k :: 0 <= k < n && LongEnough(sentences[k]) ==> sentences[k] in LongSentences(sentences, n)
  {
    KeepPrefixMembers(sentences, n, LongEnough);
  }

  /**
    The skip test goes sentence by sentence: the long-enough sentences of two
    lists put together are those of the first followed by those of the second,
    each as often as it occurs.
  */
  lemma LongSentencesAppend(a: seq<string>, b: seq<string>)
    ensures LongSentences(a + b, |a + b|) == LongSentences(a, |a|) + LongSentences(b, |b|)
  {
    KeepPrefixAppend(a, b, LongEnough);
  }

  /** The division by the number of question words happens only when some sentence is long enough. */
  predicate CanScore(sentences: seq<string>, question: string) {
    WordSet(question) != {} || forall i :: 0 <= i < |sentences| ==> !LongEnough(sentences[i])
  }

  lemma NoDivisionByZero(sentences: seq<string>, question: string, n: nat)
    requires n <= |sentences| && CanScore(sentences, question) && LongSentences(sentences, n) != []
    ensures WordSet(question) != {}
  {
    var r := LongSentences(sentences, n);
    LongSentencesMembers(sentences, n);
    assert r[0] in sentences[..n];
  }

  datatype Scored = Scored(sentence: string, score: real)

  /** Each sentence paired with its score. */
  function WithScores(ss: seq<string>, questionWords: set<string>, keywords: seq<string>): (sc: seq<Scored>)
    requires ss != [] ==> questionWords != {}
    ensures |sc| == |ss|
    ensures forall k :: 0 <= k < |ss| ==> sc[k] == Scored(ss[k], SentenceScore(ss[k], questionWords, keywords))
  {
    seq(|ss|, k requires 0 <= k < |ss| => Scored(ss[k], SentenceScore(ss[k], questionWords, keywords)))
  }

  lemma WithScoresAppend(ss: seq<string>, s: string, questionWords: set<string>, keywords: seq<string>)
    requires questionWords != {}
    ensures WithScores(ss + [s], questionWords, keywords)
            == WithScores(ss, questionWords, keywords) + [Scored(s, SentenceScore(s, questionWords, keywords))]
  {
  }

  /** One step of the scoring loop: a long-enough sentence adds its scored entry. */
  lemma ScoresStep(sentences: seq<string>, questionWords: set<string>, keywords: seq<string>, i: nat)
    requires i < |sentences| && (LongSentences(sentences, i + 1) != [] ==> questionWords != {})
    ensures LongSentences(sentences, i) != [] ==> questionWords != {}
    ensures LongEnough(sentences[i]) ==> questionWords != {}
    ensures LongEnough(sentences[i]) ==>
              WithScores(LongSentences(sentences, i + 1), questionWords, keywords)
              == WithScores(LongSentences(sentences, i), questionWords, keywords)
                 + [Scored(sentences[i], SentenceScore(sentences[i], questionWords, keywords))]
    ensures !LongEnough(sentences[i]) ==> LongSentences(sentences, i + 1) == LongSentences(sentences, i)
  {
    if LongEnough(sentences[i]) {
      WithScoresAppend(LongSentences(sentences, i), sentences[i], questionWords, keywords);
    }
  }

  function NegatedScore(x: Scored): real { -x.score }

  /** Python's `s[:m]`: a negative `m` counts from the end. */
  function SliceTo<T>(s: seq<T>, m: int): (r: seq<T>)
    ensures |r| <= |s| && r == s[..|r|]
    ensures m >= 0 ==> |r| == Min(m, |s|)
    ensures m < 0 ==> |r| == Max(0, |s| + m)
  {
    if m >= 0 then s[..Min(m, |s|)] else s[..Max(0, |s| + m)]
  }

  function Sentences(sc: seq<Scored>): (r: seq<string>)
    ensures |r| == |sc| && forall k :: 0 <= k < |sc| ==> r[k] == sc[k].sentence
  {
    seq(|sc|, k requires 0 <= k < |sc| => sc[k].sentence)
  }

  /** The scored list `_get_best_sentences` builds before sorting. */
  function Scores(sentences: seq<string>, question: string, keywords: seq<string>): seq<Scored>
    requires CanScore(sentences, question)
  {
    var long := LongSentences(sentences, |sentences|);
    assert long != [] ==> WordSet(question) != {} by {
      if long != [] {
        NoDivisionByZero(sentences, question, |sentences|);
      }
    }
    WithScores(long, WordSet(question), keywords)
  }

  /** What `_get_best_sentences` returns. */
  function BestSentences(sentences: seq<string>, question: string, keywords: seq<string>, maxSentences: int): seq<string>
    requires CanScore(sentences, question)
  {
    if sentences == [] then []
    else Sentences(SliceTo(SortBy(Scores(sentences, question, keywords), NegatedScore), maxSentences))
  }

  /** `_get_best_sentences`. */
  method GetBestSentences(sentences: seq<string>, question: string, keywords: seq<string>, maxSentences: int)
    returns (r: seq<string>)
    requires CanScore(sentences, question)
    ensures r == BestSentences(sentences, question, keywords, maxSentences)
  {
    if sentences == [] {
      return [];
    }
    var scored := ScoreSentences(sentences, question, keywords);
    scored := SortBy(scored, NegatedScore);
    r := Sentences(SliceTo(scored, maxSentences));
  }

  /** The scoring loop of `_get_best_sentences`: long-enough sentences with their scores, in order. */
  method ScoreSentences(sentences: seq<string>, question: string, keywords: seq<string>) returns (scored: seq<Scored>)
    requires CanScore(sentences, question)
    ensures scored == Scores(sentences, question, keywords)
  {
    scored := [];
    var questionWords := WordSet(question);
    var i := 0;
    assert LongSentences(sentences, 0) == [];
    assert WithScores([], questionWords, keywords) == [];
    while i < |sentences|
      invariant 0 <= i <= |sentences|
      invariant LongSentences(sentences, i) != [] ==> questionWords != {}
      invariant scored == WithScores(LongSentences(sentences, i), questionWords, keywords)
    {
      var sentence := sentences[i];
      ScoresStep(sentences, questionWords, keywords, i);
      if |Strip(sentence)| >= 20 {
        NoDivisionByZero(sentences, question, i + 1);
        var total := SentenceScore(sentence, questionWords, keywords);
        scored := scored + [Scored(sentence, total)];
      }
      i := i + 1;
    }
  }

  /** The returned sentences are long-enough input sentences. */
  predicate AllLong(r: seq<string>, sentences: seq<string>) {
    forall i :: 0 <= i < |r| ==> r[i] in sentences && LongEnough(r[i])
  }

  /** Scores never increase along `r`. */
  predicate ScoreOrdered(r: seq<string>, questionWords: set<string>, keywords: seq<string>)
    requires questionWords != {}
  {
    forall i, j :: 0 <= i < j < |r| ==>
      SentenceScore(r[i], questionWords, keywords) >= SentenceScore(r[j], questionWords, keywords)
  }

  /**
    Nothing comes back for no sentences; otherwise at most `maxSentences`
    sentences (when it is not negative) come back, each an input sentence of
    at least 20 characters after stripping.
  */
  lemma BestSentencesFromInput(sentences: seq<string>, question: string, keywords: seq<string>, maxSentences: int)
    requires CanScore(sentences, question)
    ensures sentences == [] ==> BestSentences(sentences, question, keywords, maxSentences) == []
    ensures |BestSentences(sentences, question, keywords, maxSentences)| <= |sentences|
    ensures maxSentences >= 0 ==> |BestSentences(sentences, question, keywords, maxSentences)| <= maxSentences
    ensures AllLong(BestSentences(sentences, question, keywords, maxSentences), sentences)
    ensures BestSentences(sentences, question, keywords, maxSentences) != [] ==> WordSet(question) != {}
  {
    if sentences != [] {
      var scored := Scores(sentences, question, keywords);
      var sorted := SortBy(scored, NegatedScore);
      ScoresLong(sentences, question, keywords);
      SortKeepsLong(scored, sentences);
      SliceKeepsLong(sorted, maxSentences, sentences);
      if SliceTo(sorted, maxSentences) != [] {
        NoDivisionByZero(sentences, question, |sentences|);
      }
    }
  }

  /** A prefix of a list of long entries holds long sentences only. */
  lemma SliceKeepsLong(sorted: seq<Scored>, m: int, sentences: seq<string>)
    requires LongEntries(sorted, sentences)
    ensures AllLong(Sentences(SliceTo(sorted, m)), sentences)
  {
    var top := SliceTo(sorted, m);
    assert forall i :: 0 <= i < |top| ==> top[i] == sorted[i];
  }

  /** Every entry is a long-enough sentence of `sentences`. */
  predicate LongEntries(sc: seq<Scored>, sentences: seq<string>) {
    forall k :: 0 <= k < |sc| ==> sc[k].sentence in sentences && LongEnough(sc[k].sentence)
  }

  /** Sorting the scored list keeps every entry what it was. */
  lemma SortKeepsLong(scored: seq<Scored>, sentences: seq<string>)
    requires LongEntries(scored, sentences)
    ensures LongEntries(SortBy(scored, NegatedScore), sentences)
  {
    var sorted := SortBy(scored, NegatedScore);
    forall i | 0 <= i < |sorted|
      ensures sorted[i].sentence in sentences && LongEnough(sorted[i].sentence)
    {
      SortedElementsFromInput(scored, NegatedScore, i);
      var k :| 0 <= k < |scored| && scored[k] == sorted[i];
    }
  }

  lemma ScoresLong(sentences: seq<string>, question: string, keywords: seq<string>)
    requires CanScore(sentences, question)
    ensures LongEntries(Scores(sentences, question, keywords), sentences)
  {
    var long := LongSentences(sentences, |sentences|);
    var scored := Scores(sentences, question, keywords);
    LongSentencesMembers(sentences, |sentences|);
    assert sentences[..|sentences|] == sentences;
    forall k | 0 <= k < |scored|
      ensures scored[k].sentence in sentences && LongEnough(scored[k].sentence)
    {
      assert scored[k].sentence == long[k];
    }
  }

  /** The returned sentences come in non-increasing order of score. */
  lemma BestSentencesRanked(sentences: seq<string>, question: string, keywords: seq<string>, maxSentences: int)
    requires CanScore(sentences, question) && WordSet(question) != {}
    ensures ScoreOrdered(BestSentences(sentences, question, keywords, maxSentences), WordSet(question), keywords)
  {
    if sentences != [] {
      var scored := Scores(sentences, question, keywords);
      var sorted := SortBy(scored, NegatedScore);
      var top := SliceTo(sorted, maxSentences);
      forall i | 0 <= i < |top|
        ensures top[i].score == SentenceScore(top[i].sentence, WordSet(question), keywords)
      {
        SortedElementsFromInput(scored, NegatedScore, i);
        var k :| 0 <= k < |scored| && scored[k] == top[i];
      }
      forall i, j | 0 <= i < j < |top|
        ensures top[i].score >= top[j].score
      {
        assert NegatedScore(sorted[i]) <= NegatedScore(sorted[j]);
      }
    }
  }

  /**
    `scored[:max_sentences]` takes as many of the long-enough sentences as the
    bound allows: `min(max_sentences, n)` of the `n` long-enough sentences, or
    all but the last `-max_sentences` of them for a negative bound.
  */
  lemma BestSentencesCount(sentences: seq<string>, question: string, keywords: seq<string>, maxSentences: int)
    requires CanScore(sentences, question)
    ensures var n := |LongSentences(sentences, |sentences|)|;
            |BestSentences(sentences, question, keywords, maxSentences)|
            == if maxSentences >= 0 then Min(maxSentences, n) else Max(0, n + maxSentences)
  {
  }

  /** Each entry carries its own sentence's score. */
  predicate ScoresExact(sc: seq<Scored>, questionWords: set<string>, keywords: seq<string>)
    requires questionWords != {}
  {
    forall k :: 0 <= k < |sc| ==> sc[k].score == SentenceScore(sc[k].sentence, questionWords, keywords)
  }

  /** Sorting the scored list keeps each entry with its score. */
  lemma SortKeepsScores(scored: seq<Scored>, questionWords: set<string>, keywords: seq<string>)
    requires questionWords != {} && ScoresExact(scored, questionWords, keywords)
    ensures ScoresExact(SortBy(scored, NegatedScore), questionWords, keywords)
  {
    var sorted := SortBy(scored, NegatedScore);
    forall i | 0 <= i < |sorted|
      ensures sorted[i].score == SentenceScore(sorted[i].sentence, questionWords, keywords)
    {
      SortedElementsFromInput(scored, NegatedScore, i);
      var k :| 0 <= k < |scored| && scored[k] == sorted[i];
    }
  }

  /**
    The returned sentences are the best ones: a long-enough sentence that
    scores strictly higher than some returned sentence is returned too.
  */
  lemma BestSentencesAreTop(sentences: seq<string>, question: string, keywords: seq<string>, maxSentences: int)
    requires CanScore(sentences, question) && WordSet(question) != {}
    ensures forall k, i :: 0 <= k < |sentences| && LongEnough(sentences[k])
              && 0 <= i < |BestSentences(sentences, question, keywords, maxSentences)|
              && SentenceScore(sentences[k], WordSet(question), keywords)
                 > SentenceScore(BestSentences(sentences, question, keywords, maxSentences)[i], WordSet(question), keywords)
              ==> sentences[k] in BestSentences(sentences, question, keywords, maxSentences)
  {
    if sentences != [] {
      var qw := WordSet(question);
      var long := LongSentences(sentences, |sentences|);
      var scored := Scores(sentences, question, keywords);
      var sorted := SortBy(scored, NegatedScore);
      var m := |SliceTo(sorted, maxSentences)|;
      var r := BestSentences(sentences, question, keywords, maxSentences);
      assert r == Sentences(sorted[..m]);
      assert ScoresExact(scored, qw, keywords);
      SortKeepsScores(scored, qw, keywords);
      LongSentencesMembers(sentences, |sentences|);
      assert sentences[..|sentences|] == sentences;
      forall k, i | 0 <= k < |sentences| && LongEnough(sentences[k]) && 0 <= i < |r|
                    && SentenceScore(sentences[k], qw, keywords) > SentenceScore(r[i], qw, keywords)
        ensures sentences[k] in r
      {
        ReturnedIfHigher(sentences[k], long, scored, sorted, m, qw, keywords, i);
      }
    }
  }

  /** A sentence scoring higher than one of the first `m` of the sorted list is among them. */
  lemma ReturnedIfHigher(x: string, long: seq<string>, scored: seq<Scored>, sorted: seq<Scored>, m: nat,
                         questionWords: set<string>, keywords: seq<string>, i: nat)
    requires questionWords != {} && x in long
    requires scored == WithScores(long, questionWords, keywords) && multiset(sorted) == multiset(scored)
    requires SortedBy(sorted, NegatedScore) && ScoresExact(sorted, questionWords, keywords)
    requires i < m <= |sorted|
    requires SentenceScore(x, questionWords, keywords) > SentenceScore(Sentences(sorted[..m])[i], questionWords, keywords)
    ensures x in Sentences(sorted[..m])
  {
    var r := Sentences(sorted[..m]);
    var p := PlaceInSorted(x, long, scored, sorted, questionWords, keywords);
    assert r[i] == sorted[i].sentence;
    HigherIsEarlier(sorted, m, i, p);
    assert r[p] == x;
  }

  /** A long-enough sentence has an entry, with its score, somewhere in the sorted list. */
  lemma PlaceInSorted(x: string, long: seq<string>, scored: seq<Scored>, sorted: seq<Scored>,
                      questionWords: set<string>, keywords: seq<string>) returns (p: nat)
    requires questionWords != {} && x in long
    requires scored == WithScores(long, questionWords, keywords)
    requires multiset(sorted) == multiset(scored)
    ensures p < |sorted| && sorted[p] == Scored(x, SentenceScore(x, questionWords, keywords))
  {
    var j :| 0 <= j < |long| && long[j] == x;
    assert scored[j] in multiset(sorted);
    p :| 0 <= p < |sorted| && sorted[p] == scored[j];
  }

  /** In a list sorted by descending score, an entry scoring higher than one of the first `m` is among them. */
  lemma HigherIsEarlier(sorted: seq<Scored>, m: nat, i: nat, p: nat)
    requires SortedBy(sorted, NegatedScore) && i < m <= |sorted| && p < |sorted|
    requires sorted[p].score > sorted[i].score
    ensures p < m
  {
  }
}
