/**
  `detect_title`: the title of a document is looked for among the first-page
  blocks, top to bottom. The best-scoring candidate among the top 15 wins
  (ties go to the earlier block); failing that, the first substantial text
  among the top 10; failing that, "Untitled Document".
*/
module Title {
  import opened Common
  import opened Text
  import opened Matching
  import opened Blocks
  import opened Sorting

  // ------------------------------------------------------- non-title text

  /**
    `^[a-z].*@.*\.[a-z]`: a lower-case letter, then an '@' and later a '.'
    followed by a lower-case letter, with no line break before that '.'.
  */
  predicate IsEmailLike(lt: string) {
    |lt| > 0 && IsAsciiLower(lt[0])
    && exists i, j :: 1 <= i < j && j + 1 < |lt| && lt[i] == '@' && lt[j] == '.' && IsAsciiLower(lt[j + 1])
                      && NoLineBreak(lt, j)
  }

  /** `.*` can cover `lt[1..j]`: it holds no line break. */
  predicate NoLineBreak(lt: string, j: nat) {
    forall k :: 1 <= k < j && k < |lt| ==> lt[k] != '\n'
  }

  /** The anchored non-title patterns other than the e-mail one, in their order. */
  const NonTitlePatterns: seq<seq<Piece>> := [
    [Word("draft"), OneOrMore(IsSpace), Word("version")],
    [Word("typeset"), OneOrMore(IsSpace), Word("using")],
    [Word("arxiv:"), OneOrMore(IsDigit)],
    [OneOrMore(IsDigit), OneOrMore(IsSpace), OneOrMore(IsAsciiLower)],
    [Word("abstract"), EndAnchor],
    [Word("keywords:")],
    [Word("series"), ZeroOrMore(IsSpace), Word("#")],
    [Word("q.p."), ZeroOrMore(IsSpace), Word("code")],
    [Word("page"), OneOrMore(IsSpace), OneOrMore(IsDigit)],
    [Word("p.t.o."), EndAnchor],
    [Word("roll"), OneOrMore(IsSpace), Word("no.")],
    [Word("www.")]
  ]

  /** The thirteen anchored patterns, tried on the lower-cased text. */
  predicate HasNonTitlePattern(lt: string) {
    MatchesAny(lt, NonTitlePatterns) || IsEmailLike(lt)
  }

  const TechnicalWords: seq<string> := [
    "arxiv", "submitted", "received", "accepted", "preprint",
    "candidates must", "please check", "question paper"]

  /** `^[A-Z0-9\-#\s]+$`: a non-empty code of capitals, digits, '-', '#' and whitespace. */
  predicate IsCode(t: string) {
    |t| > 0 && forall i :: 0 <= i < |t| ==> IsAsciiUpper(t[i]) || IsDigit(t[i]) || t[i] == '-' || t[i] == '#' || IsSpace(t[i])
  }

  /** `_is_non_title_text`. */
  predicate IsNonTitleText(t: string) {
    var lt := Lower(t);
    HasNonTitlePattern(lt)
    || ContainsAny(lt, TechnicalWords)
    || (|t| < 5 && (IsDigitStr(t) || IsCode(t)))
  }

  // --------------------------------------------------------------- score

  function SumSizes(bs: seq<TextBlock>): real
    decreases |bs|
  {
    if bs == [] then 0.0 else bs[0].fontSize + SumSizes(bs[1..])
  }

  /** Index of the first block equal to `b`: blocks are compared by value. */
  function FirstIndex(bs: seq<TextBlock>, b: TextBlock): (k: nat)
    requires b in bs
    ensures k < |bs| && bs[k] == b
    ensures forall j :: 0 <= j < k ==> bs[j] != b
    decreases |bs|
  {
    if bs[0] == b then 0 else 1 + FirstIndex(bs[1..], b)
  }

  function FontPoints(size: real, average: real): nat {
    if size > average * 1.2 then 3 else if size > average * 1.1 then 1 else 0
  }

  function PositionPoints(rank: nat): nat {
    if rank < 3 then 3 else if rank < 6 then 1 else 0
  }

  function LengthPoints(n: nat): nat {
    if 20 <= n <= 100 then 2 else if 10 <= n <= 150 then 1 else 0
  }

  const TitleWords: seq<string> := ["analysis", "study", "investigation", "approach", "method", "system"]

  /**
    `_score_title_candidate`: points for a font larger than the context's
    average, boldness, an early position, a title-like length, title case and a
    title-like word.
  */
  function TitleScore(b: TextBlock, context: seq<TextBlock>): (s: nat)
    requires b in context && Strip(b.text) != []
    ensures s <= 12
    ensures (if b.isBold then 2 else 0) + PositionPoints(FirstIndex(context, b)) <= s
    ensures s == 0 ==> !b.isBold && FirstIndex(context, b) >= 6
  {
    var t := Strip(b.text);
    var average := SumSizes(context) / (|context| as real);
    FontPoints(b.fontSize, average)
    + (if b.isBold then 2 else 0)
    + PositionPoints(FirstIndex(context, b))
    + LengthPoints(|t|)
    + (if IsUpperChar(t[0]) && !IsUpperStr(t) then 1 else 0)
    + (if ContainsAny(Lower(t), TitleWords) then 1 else 0)
  }

  // ---------------------------------------------------------- clean title

  predicate IsNotCloseBracket(c: char) { c != ']' }

  /** The boilerplate prefixes `_clean_title` removes, matched case-insensitively:
      an arXiv identifier header, "draft version" and "preprint". */
  const TitlePrefixes: seq<seq<Piece>> := [
    [Word("arxiv:"), OneOrMore(IsDigit), Word("."), OneOrMore(IsDigit), Word("v"), OneOrMore(IsDigit),
     OneOrMore(IsSpace), Word("["), OneOrMore(IsNotCloseBracket), Word("]"), OneOrMore(IsSpace),
     OneOrMore(IsDigit), OneOrMore(IsSpace), OneOrMore(IsAsciiLetter), OneOrMore(IsSpace), OneOrMore(IsDigit),
     ZeroOrMore(IsSpace)],
    [Word("draft"), OneOrMore(IsSpace), Word("version"), ZeroOrMore(IsSpace)],
    [Word("preprint"), ZeroOrMore(IsSpace)]
  ]

  /** Where the `k`-th prefix of a title ends, if it has one. */
  function PrefixEnd(t: string, k: nat): (r: Option<nat>)
    requires k < |TitlePrefixes|
    ensures r.Some? ==> r.value <= |t|
  {
    Match(Lower(t), 0, TitlePrefixes[k])
  }

  /** `re.sub` of the `k`-th prefix pattern: it is anchored, so at most one removal. */
  function RemovePrefix(t: string, k: nat): string
    requires k < |TitlePrefixes|
  {
    match PrefixEnd(t, k)
    case None => t
    case Some(e) => t[e..]
  }

  /** The first `n` prefix patterns, applied in order. */
  function RemovePrefixes(t: string, n: nat): string
    requires n <= |TitlePrefixes|
  {
    if n == 0 then t else RemovePrefix(RemovePrefixes(t, n - 1), n - 1)
  }

  /** What `_clean_title` returns: a stripped tail of the stripped title. */
  function CleanedTitle(title: string): (r: string)
    ensures r != [] ==> !IsSpace(r[0]) && !IsSpace(r[|r| - 1])
  {
    Strip(RemovePrefixes(Strip(title), |TitlePrefixes|))
  }

  /** `_clean_title`: strip, remove each prefix pattern in turn, strip again. */
  method CleanTitle(title: string) returns (r: string)
    ensures r == CleanedTitle(title)
  {
    r := Strip(title);
    var k := 0;
    while k < |TitlePrefixes|
      invariant 0 <= k <= |TitlePrefixes|
      invariant r == RemovePrefixes(Strip(title), k)
    {
      r := RemovePrefix(r, k);
      k := k + 1;
    }
    r := Strip(r);
  }

  /**
    Each prefix pattern makes a text a non-title (it starts with "arxiv", with
    "draft version", or contains "preprint"), so on every text the detector
    can choose, cleaning the title only strips it.
  */
  lemma CleanKeepsCandidates(title: string)
    requires !IsNonTitleText(Strip(title))
    ensures CleanedTitle(title) == Strip(title)
  {
    var s := Strip(title);
    NoPrefixOnCandidate(s);
    assert RemovePrefixes(s, 1) == s;
    assert RemovePrefixes(s, 2) == s;
    assert RemovePrefixes(s, 3) == s;
    StripIdempotent(title);
  }

  lemma NoPrefixOnCandidate(s: string)
    requires !IsNonTitleText(s)
    ensures PrefixEnd(s, 0).None? && PrefixEnd(s, 1).None? && PrefixEnd(s, 2).None?
  {
    NoTechnicalPrefix(s);
    NoDraftPrefix(s);
  }

  /** The arXiv and "preprint" prefixes start with a technical word. */
  lemma NoTechnicalPrefix(s: string)
    requires !ContainsAny(Lower(s), TechnicalWords)
    ensures PrefixEnd(s, 0).None? && PrefixEnd(s, 2).None?
  {
    ContainsAnyIff(Lower(s), TechnicalWords);
  }

  /** The "draft version" prefix extends the first non-title pattern. */
  lemma NoDraftPrefix(s: string)
    requires !MatchesAny(Lower(s), NonTitlePatterns)
    ensures PrefixEnd(s, 1).None?
  {
    if PrefixEnd(s, 1).Some? {
      assert TitlePrefixes[1] == NonTitlePatterns[0] + [ZeroOrMore(IsSpace)];
      MatchPrefix(Lower(s), 0, NonTitlePatterns[0], [ZeroOrMore(IsSpace)]);
    }
  }

  /** On other texts, a leading "Preprint" and the spaces after it are removed. */
  lemma PreprintRemoved(title: string)
    requires LiteralAt(Lower(Strip(title)), 0, "preprint")
    ensures CleanedTitle(title) == Strip(Strip(title)[8..])
  {
    var s := Strip(title);
    var e := PreprintRemovesThrough(s);
    StripSkipsSpaces(s[8..], e - 8);
    assert s[8..][e - 8..] == s[e..];
  }

  /** On a text starting with "preprint", the prefix removal drops it and the spaces after it. */
  lemma PreprintRemovesThrough(s: string) returns (e: nat)
    requires LiteralAt(Lower(s), 0, "preprint")
    ensures 8 <= e <= |s| && forall i :: 0 <= i < e - 8 ==> IsSpace(s[8..][i])
    ensures RemovePrefixes(s, |TitlePrefixes|) == s[e..]
  {
    e := PreprintPrefixEnd(s);
    assert RemovePrefixes(s, 2) == s by {
      assert RemovePrefixes(s, 1) == s;
    }
  }

  /** Only the third prefix matches a text starting with "preprint"; it ends after the spaces that follow. */
  lemma PreprintPrefixEnd(s: string) returns (e: nat)
    requires LiteralAt(Lower(s), 0, "preprint")
    ensures 8 <= e <= |s| && forall i :: 8 <= i < e ==> IsSpace(s[i])
    ensures PrefixEnd(s, 0).None? && PrefixEnd(s, 1).None? && PrefixEnd(s, 2) == Some(e)
  {
    var lt := Lower(s);
    LowerAt(s);
    assert lt[0] == 'p';
    assert PrefixEnd(s, 0).None? by { assert !LiteralAt(lt, 0, "arxiv:"); }
    assert PrefixEnd(s, 1).None? by { assert !LiteralAt(lt, 0, "draft"); }
    e := RunEnd(lt, 8, IsSpace);
    assert Match(lt, 8, [ZeroOrMore(IsSpace)]) == Some(e);
    assert forall i :: 8 <= i < e ==> IsSpace(lt[i]) && lt[i] == LowerChar(s[i]);
  }

  /** Dropping leading whitespace does not change a strip. */
  lemma StripSkipsSpaces(u: string, k: nat)
    requires k <= |u| && forall i :: 0 <= i < k ==> IsSpace(u[i])
    ensures Strip(u[k..]) == Strip(u)
  {
    var v, r, a := u[k..], Strip(u), LeadingSpace(u);
    assert k <= a;
    var i: nat := a - k;
    SpacesAroundSuffix(u, k, a, r);
    assert i + |r| <= |v| && r == v[i..i + |r|];
    assert forall j :: 0 <= j < i || i + |r| <= j < |v| ==> IsSpace(v[j]);
    StripUnique(v, i, r);
  }

  /** A slice surrounded by whitespace stays so in a suffix that keeps it. */
  lemma SpacesAroundSuffix(u: string, k: nat, i: nat, r: string)
    requires k <= i && i + |r| <= |u| && r == u[i..i + |r|]
    requires forall j :: 0 <= j < i || i + |r| <= j < |u| ==> IsSpace(u[j])
    ensures i - k + |r| <= |u[k..]| && r == u[k..][i - k..i - k + |r|]
    ensures forall j :: 0 <= j < i - k || i - k + |r| <= j < |u[k..]| ==> IsSpace(u[k..][j])
  {
    assert forall j :: 0 <= j < |u[k..]| ==> u[k..][j] == u[k + j];
  }

  lemma StripUnique(s: string, i: nat, r: string)
    requires i + |r| <= |s| && r == s[i..i + |r|]
    requires forall k :: 0 <= k < i || i + |r| <= k < |s| ==> IsSpace(s[k])
    requires r != [] ==> !IsSpace(r[0]) && !IsSpace(r[|r| - 1])
    ensures Strip(s) == r
  {
    var q := Strip(s);
    var a := LeadingSpace(s);
    if r != [] && q != [] {
      assert s[a] == q[0] && s[i] == r[0];
      assert a == i;
      assert s[a + |q| - 1] == q[|q| - 1] && s[i + |r| - 1] == r[|r| - 1];
      assert |q| == |r|;
    }
  }

  // ------------------------------------------------------ best candidate

  /** Every block of `bs` has text left after stripping. */
  predicate HasText(bs: seq<TextBlock>) {
    forall b :: b in bs ==> Strip(b.text) != []
  }

  /** What the candidate loop sees of one block: its stripped text, whether it
      may win at all (not a non-title, 11 to 199 characters) and its score. */
  datatype Candidate = Candidate(text: string, eligible: bool, score: nat)

  function CandidateOf(b: TextBlock, top: seq<TextBlock>): (c: Candidate)
    requires b in top && HasText(top)
    ensures c.text == Strip(b.text) && c.score == TitleScore(b, top)
    ensures c.eligible <==> !IsNonTitleText(c.text) && 10 < |c.text| < 200
  {
    var t := Strip(b.text);
    Candidate(t, !IsNonTitleText(t) && 10 < |t| < 200, TitleScore(b, top))
  }

  function Candidates(top: seq<TextBlock>): (cs: seq<Candidate>)
    requires HasText(top)
    ensures |cs| == |top| && forall k :: 0 <= k < |top| ==> cs[k] == CandidateOf(top[k], top)
  {
    seq(|top|, k requires 0 <= k < |top| => CandidateOf(top[k], top))
  }

  /** The score to beat: the winner's, or 0 before there is one. */
  function ScoreToBeat(cs: seq<Candidate>, p: Option<nat>): nat
    requires p.Some? ==> p.value < |cs|
  {
    if p.None? then 0 else cs[p.value].score
  }

  /** The winner among the first `n` candidates: an eligible one that beats the score to beat strictly. */
  function BestIndex(cs: seq<Candidate>, n: nat): (r: Option<nat>)
    requires n <= |cs|
    ensures r.Some? ==> r.value < n
  {
    if n == 0 then None
    else
      var p := BestIndex(cs, n - 1);
      if cs[n - 1].eligible && cs[n - 1].score > ScoreToBeat(cs, p) then Some(n - 1) else p
  }

  /**
    The winner has the highest score of all eligible candidates and every
    eligible candidate before it scores strictly less; there is no winner
    exactly when no eligible candidate has a positive score.
  */
  lemma {:induction false} BestIndexIsBest(cs: seq<Candidate>, n: nat)
    requires n <= |cs|
    ensures BestIndex(cs, n).None? <==> forall j :: 0 <= j < n && cs[j].eligible ==> cs[j].score == 0
    ensures BestIndex(cs, n).Some? ==>
              var k := BestIndex(cs, n).value;
              cs[k].eligible && cs[k].score > 0
              && (forall j :: 0 <= j < n && cs[j].eligible ==> cs[j].score <= cs[k].score)
              && (forall j :: 0 <= j < k && cs[j].eligible ==> cs[j].score < cs[k].score)
  {
    if n > 0 {
      BestIndexIsBest(cs, n - 1);
    }
  }

  /** The text of the winner, if any. */
  function BestText(top: seq<TextBlock>): Option<string>
    requires HasText(top)
  {
    var cs := Candidates(top);
    match BestIndex(cs, |cs|)
    case None => None
    case Some(k) => Some(cs[k].text)
  }

  /**
    The candidate loop of `detect_title` over the candidates' texts, scores and
    eligibility: a candidate replaces the best so far only when its score is
    strictly higher, so ties keep the earlier one.
  */
  method PickWinner(cs: seq<Candidate>) returns (winner: Option<nat>)
    ensures winner == BestIndex(cs, |cs|)
  {
    winner := None;
    var bestScore := 0;
    var i := 0;
    while i < |cs|
      invariant 0 <= i <= |cs|
      invariant winner == BestIndex(cs, i)
      invariant bestScore == ScoreToBeat(cs, winner)
    {
      if cs[i].eligible && cs[i].score > bestScore {
        winner := Some(i);
        bestScore := cs[i].score;
      }
      i := i + 1;
    }
  }

  /** The best candidate's text among the top blocks, if any is eligible. */
  method BestCandidate(top: seq<TextBlock>) returns (best: Option<string>)
    requires HasText(top)
    ensures best == BestText(top)
  {
    var cs := Candidates(top);
    var winner := PickWinner(cs);
    best := if winner.Some? then Some(cs[winner.value].text) else None;
  }

  // ------------------------------------------------------------ fallback

  /** A fallback title: 16 to 149 characters and not a non-title. */
  predicate Substantial(t: string) {
    15 < |t| < 150 && !IsNonTitleText(t)
  }

  function SubstantialFlags(bs: seq<TextBlock>): (ok: seq<bool>)
    ensures |ok| == |bs| && forall k :: 0 <= k < |bs| ==> (ok[k] <==> Substantial(Strip(bs[k].text)))
  {
    seq(|bs|, k requires 0 <= k < |bs| => Substantial(Strip(bs[k].text)))
  }

  /** The first index of `ok[i..n]` that holds. */
  function FirstTrue(ok: seq<bool>, i: nat, n: nat): (r: Option<nat>)
    requires i <= n <= |ok|
    ensures r.Some? ==> i <= r.value < n && ok[r.value]
    ensures r.Some? ==> forall j :: i <= j < r.value ==> !ok[j]
    ensures r.None? ==> forall j :: i <= j < n ==> !ok[j]
    decreases n - i
  {
    if i == n then None
    else if ok[i] then Some(i)
    else FirstTrue(ok, i + 1, n)
  }

  /** The index of the fallback title among the first ten blocks. */
  function FallbackIndex(sorted: seq<TextBlock>): (r: Option<nat>)
    ensures r.Some? ==> r.value < Min(10, |sorted|) && Substantial(Strip(sorted[r.value].text))
    ensures r.Some? ==> forall j :: 0 <= j < r.value ==> !Substantial(Strip(sorted[j].text))
    ensures r.None? ==> forall j :: 0 <= j < Min(10, |sorted|) ==> !Substantial(Strip(sorted[j].text))
  {
    FirstTrue(SubstantialFlags(sorted), 0, Min(10, |sorted|))
  }

  /** The fallback loop over the first ten blocks. */
  method Fallback(sorted: seq<TextBlock>) returns (r: Option<string>)
    ensures r.None? <==> FallbackIndex(sorted).None?
    ensures r.Some? ==> r.value == Strip(sorted[FallbackIndex(sorted).value].text)
  {
    ghost var ok := SubstantialFlags(sorted);
    var n := Min(10, |sorted|);
    var i := 0;
    while i < n
      invariant 0 <= i <= n
      invariant FirstTrue(ok, i, n) == FirstTrue(ok, 0, n)
    {
      var t := Strip(sorted[i].text);
      if 15 < |t| < 150 && !IsNonTitleText(t) {
        return Some(t);
      }
      i := i + 1;
    }
    return None;
  }

  // --------------------------------------------------------- detect title

  /** The page-1 blocks, each as often as it occurs. */
  function FirstPage(blocks: seq<TextBlock>): (r: seq<TextBlock>)
    ensures forall b :: b in r <==> b in blocks && b.page == 1
    ensures forall b :: multiset(r)[b] == if b.page == 1 then multiset(blocks)[b] else 0
    decreases |blocks|
  {
    if blocks == [] then []
    else
      assert blocks == [blocks[0]] + blocks[1..];
      (if blocks[0].page == 1 then [blocks[0]] else []) + FirstPage(blocks[1..])
  }

  /** The list comprehension keeps the input order: it distributes over concatenation. */
  lemma {:induction false} FirstPageAppend(a: seq<TextBlock>, b: seq<TextBlock>)
    ensures FirstPage(a + b) == FirstPage(a) + FirstPage(b)
    decreases |a|
  {
    if a == [] {
      assert a + b == b;
    } else {
      assert (a + b)[1..] == a[1..] + b;
      FirstPageAppend(a[1..], b);
    }
  }

  function YPosition(b: TextBlock): real { b.yPosition }

  /** The first-page blocks in top-to-bottom order. */
  function TopToBottom(blocks: seq<TextBlock>): (r: seq<TextBlock>)
    ensures SortedBy(r, YPosition) && multiset(r) == multiset(FirstPage(blocks))
    ensures forall v :: WithKey(r, YPosition, v) == WithKey(FirstPage(blocks), YPosition, v)
  {
    SortBy(FirstPage(blocks), YPosition)
  }

  function Top(sorted: seq<TextBlock>): seq<TextBlock> {
    sorted[..Min(15, |sorted|)]
  }

  /** The title `detect_title` returns. */
  function DetectedTitle(blocks: seq<TextBlock>): string
    requires HasText(FirstPage(blocks))
  {
    var sorted := TopToBottom(blocks);
    if sorted == [] then "Untitled Document"
    else
      SortedHasText(blocks);
      match BestText(Top(sorted))
      case Some(t) => CleanedTitle(t)
      case None =>
        match FallbackIndex(sorted)
        case Some(k) => CleanedTitle(Strip(sorted[k].text))
        case None => "Untitled Document"
  }

  lemma SortedHasText(blocks: seq<TextBlock>)
    requires HasText(FirstPage(blocks))
    ensures HasText(TopToBottom(blocks)) && HasText(Top(TopToBottom(blocks)))
  {
    var sorted := TopToBottom(blocks);
    forall b | b in sorted ensures Strip(b.text) != [] {
      assert b in multiset(sorted);
    }
  }

  /** `detect_title`. */
  method DetectTitle(blocks: seq<TextBlock>) returns (title: string)
    requires HasText(FirstPage(blocks))
    ensures title == DetectedTitle(blocks)
  {
    var firstPage := FirstPage(blocks);
    if firstPage == [] {
      return "Untitled Document";
    }
    var sorted := SortBy(firstPage, YPosition);
    SortedHasText(blocks);
    var best := BestCandidate(Top(sorted));
    if best.Some? {
      title := CleanTitle(best.value);
      return;
    }
    var fallback := Fallback(sorted);
    if fallback.Some? {
      title := CleanTitle(fallback.value);
      return;
    }
    return "Untitled Document";
  }

  /** Without a first-page block there is no title. */
  lemma NoFirstPageIsUntitled(blocks: seq<TextBlock>)
    requires forall b :: b in blocks ==> b.page != 1
    ensures DetectedTitle(blocks) == "Untitled Document"
  {
    NoFirstPageBlocks(blocks);
  }

  lemma {:induction false} NoFirstPageBlocks(blocks: seq<TextBlock>)
    requires forall b :: b in blocks ==> b.page != 1
    ensures HasText(FirstPage(blocks)) && TopToBottom(blocks) == []
    decreases |blocks|
  {
    if blocks != [] {
      assert blocks[0] in blocks;
      assert forall b :: b in blocks[1..] ==> b in blocks;
      NoFirstPageBlocks(blocks[1..]);
    }
  }

  /**
    A detected title other than "Untitled Document" is the stripped text of a
    first-page block that is not a non-title: the prefix removal of
    `_clean_title` never changes a text the detector can choose.
  */
  lemma TitleComesFromFirstPage(blocks: seq<TextBlock>)
    requires HasText(FirstPage(blocks))
    requires DetectedTitle(blocks) != "Untitled Document"
    ensures exists b :: b in blocks && b.page == 1 && !IsNonTitleText(Strip(b.text))
                        && DetectedTitle(blocks) == Strip(b.text)
  {
    var sorted := TopToBottom(blocks);
    SortedHasText(blocks);
    var top := Top(sorted);
    var b := ChosenBlock(sorted);
    assert b in multiset(sorted);
    StripIdempotent(b.text);
    CleanKeepsCandidates(Strip(b.text));
  }

  /** The block whose text `DetectedTitle` cleans. */
  lemma ChosenBlock(sorted: seq<TextBlock>) returns (b: TextBlock)
    requires sorted != [] && HasText(sorted) && HasText(Top(sorted))
    requires BestText(Top(sorted)).Some? || FallbackIndex(sorted).Some?
    ensures b in sorted && !IsNonTitleText(Strip(b.text))
    ensures BestText(Top(sorted)).Some? ==> BestText(Top(sorted)) == Some(Strip(b.text))
    ensures BestText(Top(sorted)).None? ==> Strip(b.text) == Strip(sorted[FallbackIndex(sorted).value].text)
  {
    var top := Top(sorted);
    var cs := Candidates(top);
    BestIndexIsBest(cs, |cs|);
    if BestText(top).Some? {
      var k := BestIndex(cs, |cs|).value;
      b := top[k];
      assert cs[k] == CandidateOf(top[k], top);
    } else {
      b := sorted[FallbackIndex(sorted).value];
    }
  }
}
