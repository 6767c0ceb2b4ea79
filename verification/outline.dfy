/**
  The assembly part of `extract_outline`: detect the title, classify every
  block, keep the first heading for each (lower-cased text, page) pair, and
  sort the outline by page and level.
*/
module Outline {
  import opened Common
  import opened Text
  import opened Blocks
  import opened Sorting
  import opened FontStatistics
  import opened Classifier
  import opened Title

  /**
    What the page-text extractor guarantees of every block it delivers: text
    that is non-empty after stripping (it keeps only lines longer than two
    characters after stripping).
  */
  predicate Extracted(blocks: seq<TextBlock>) {
    forall b :: b in blocks ==> Strip(b.text) != []
  }

  /**
    Classifying the blocks divides by a zero median: some block gets past the
    text rules to the font-size ratio.
  */
  predicate DividesByZero(blocks: seq<TextBlock>, stats: FontStats) {
    stats.median == 0.0 && exists k :: 0 <= k < |blocks| && TextVerdict(Strip(blocks[k].text)).None?
  }

  // ------------------------------------------------------------ the key

  /** `f"{text.lower()}_{page}"`, the key the duplicate check uses. */
  function HeadingKey(text: string, page: nat): string {
    Lower(text) + "_" + NatToString(page)
  }

  /**
    The key is injective on (lower-cased text, page): a page number has no
    '_', so the digits after the last '_' of a key are the page.
  */
  lemma HeadingKeyInjective(t1: string, p1: nat, t2: string, p2: nat)
    ensures HeadingKey(t1, p1) == HeadingKey(t2, p2) <==> Lower(t1) == Lower(t2) && p1 == p2
  {
    if HeadingKey(t1, p1) == HeadingKey(t2, p2) {
      var k, n1, n2 := HeadingKey(t1, p1), NatToString(p1), NatToString(p2);
      PageDigits(t1, p1);
      PageDigits(t2, p2);
      assert Lower(t1) == k[..|k| - |n1| - 1];
      assert Lower(t2) == k[..|k| - |n2| - 1];
      assert n1 == k[|k| - |n1|..];
      assert n2 == k[|k| - |n2|..];
      NatToStringInjective(p1, p2);
    }
  }

  /** The page number is the maximal run of digits at the end of a key. */
  lemma PageDigits(t: string, p: nat)
    ensures var k := HeadingKey(t, p);
            RunBack(k, |k|, IsDigit) == |k| - |NatToString(p)|
  {
    var k, n := HeadingKey(t, p), NatToString(p);
    assert k[|k| - |n| - 1] == '_';
    assert forall i :: |k| - |n| <= i < |k| ==> k[i] == n[i - (|k| - |n|)];
    RunBackIs(k, |k| - |n|, |k|, IsDigit);
  }

  /** An entry of `es` has the (lower(text), page) pair of `text` and `page`. */
  ghost predicate HasPlace(es: seq<HeadingEntry>, text: string, page: nat) {
    exists e :: e in es && Lower(e.text) == Lower(text) && e.page == page
  }

  /** The block's key is among the keys of `es` exactly when its pair is. */
  lemma KeySeen(es: seq<HeadingEntry>, text: string, page: nat)
    ensures HeadingKey(text, page) in Keys(es) <==> HasPlace(es, text, page)
  {
    if HeadingKey(text, page) in Keys(es) {
      var e :| e in es && HeadingKey(e.text, e.page) == HeadingKey(text, page);
      HeadingKeyInjective(e.text, e.page, text, page);
    }
    if HasPlace(es, text, page) {
      var e :| e in es && Lower(e.text) == Lower(text) && e.page == page;
      assert HeadingKey(e.text, e.page) == HeadingKey(text, page);
    }
  }

  /** The heading of an entry and a block are at the same (lower(text), page). */
  predicate SamePlace(e: HeadingEntry, b: TextBlock) {
    Lower(e.text) == Lower(Strip(b.text)) && e.page == b.page
  }

  function Keys(es: seq<HeadingEntry>): set<string> {
    set e | e in es :: HeadingKey(e.text, e.page)
  }

  lemma KeysAppend(es: seq<HeadingEntry>, e: HeadingEntry)
    ensures Keys(es + [e]) == Keys(es) + {HeadingKey(e.text, e.page)}
  {
    assert forall f :: f in es + [e] <==> f in es || f == e;
  }

  // -------------------------------------------------- collecting headings

  /** The class of each block, in document order. */
  function Classes(blocks: seq<TextBlock>, stats: FontStats): (cls: seq<Class>)
    requires forall k :: 0 <= k < |blocks| ==> CanClassify(blocks[k], stats)
    ensures |cls| == |blocks| && forall k :: 0 <= k < |blocks| ==> cls[k] == ClassifyHeading(blocks[k], stats)
  {
    seq(|blocks|, k requires 0 <= k < |blocks| => ClassifyHeading(blocks[k], stats))
  }

  /**
    The outline before sorting, after the first `n` blocks: each heading block
    whose (lower(text), page) pair no earlier entry has is appended with its
    stripped text.
  */
  ghost function Collect(blocks: seq<TextBlock>, cls: seq<Class>, n: nat): seq<HeadingEntry>
    requires n <= |blocks| == |cls|
  {
    if n == 0 then []
    else
      var prev := Collect(blocks, cls, n - 1);
      var b := blocks[n - 1];
      if cls[n - 1].Heading? && !HasPlace(prev, Strip(b.text), b.page) then
        prev + [HeadingEntry(cls[n - 1].level, Strip(b.text), b.page)]
      else prev
  }

  /** One step of the collection, with the duplicate check written as the key lookup. */
  lemma CollectStep(blocks: seq<TextBlock>, cls: seq<Class>, i: nat)
    requires i < |blocks| == |cls|
    ensures var prev, b := Collect(blocks, cls, i), blocks[i];
            Collect(blocks, cls, i + 1)
            == if cls[i].Heading? && HeadingKey(Strip(b.text), b.page) !in Keys(prev)
               then prev + [HeadingEntry(cls[i].level, Strip(b.text), b.page)]
               else prev
  {
    KeySeen(Collect(blocks, cls, i), Strip(blocks[i].text), blocks[i].page);
  }

  /** No two collected entries share a (lower(text), page) pair. */
  lemma {:induction false} CollectDistinct(blocks: seq<TextBlock>, cls: seq<Class>, n: nat)
    requires n <= |blocks| == |cls|
    ensures var r := Collect(blocks, cls, n);
            DistinctPlaces(r)
  {
    if n > 0 {
      CollectDistinct(blocks, cls, n - 1);
      var prev := Collect(blocks, cls, n - 1);
      var r := Collect(blocks, cls, n);
      if r != prev {
        var e := r[|r| - 1];
        forall i | 0 <= i < |prev| ensures !SameKey(prev[i], e) {
          assert prev[i] in prev;
        }
      }
    }
  }

  /** Every heading block before `j` has its (lower(text), page) pair in `es`. */
  ghost predicate AllPlaced(es: seq<HeadingEntry>, blocks: seq<TextBlock>, cls: seq<Class>, j: nat)
    requires j <= |blocks| == |cls|
  {
    forall k :: 0 <= k < j && cls[k].Heading? ==> HasPlace(es, Strip(blocks[k].text), blocks[k].page)
  }

  /** Every heading block among the first `n` has its (lower(text), page) pair in the outline. */
  lemma {:induction false} CollectComplete(blocks: seq<TextBlock>, cls: seq<Class>, n: nat)
    requires n <= |blocks| == |cls|
    ensures AllPlaced(Collect(blocks, cls, n), blocks, cls, n)
  {
    if n > 0 {
      CollectComplete(blocks, cls, n - 1);
      var prev := Collect(blocks, cls, n - 1);
      var r := Collect(blocks, cls, n);
      forall j | 0 <= j < n && cls[j].Heading? ensures HasPlace(r, Strip(blocks[j].text), blocks[j].page) {
        if j < n - 1 || HasPlace(prev, Strip(blocks[j].text), blocks[j].page) {
          var e :| e in prev && Lower(e.text) == Lower(Strip(blocks[j].text)) && e.page == blocks[j].page;
          assert e in r;
        } else {
          assert r[|r| - 1] in r;
        }
      }
    }
  }

  /**
    Block `j` is a heading that gives entry `e` its level, text and page, and
    no heading block before it is at the same (lower(text), page) pair.
  */
  predicate FirstHeading(blocks: seq<TextBlock>, cls: seq<Class>, e: HeadingEntry, j: nat)
    requires |blocks| == |cls|
  {
    j < |blocks| && cls[j] == Heading(e.level)
    && e == HeadingEntry(e.level, Strip(blocks[j].text), blocks[j].page)
    && NoEarlierHeading(blocks, cls, e, j)
  }

  predicate NoEarlierHeading(blocks: seq<TextBlock>, cls: seq<Class>, e: HeadingEntry, j: nat)
    requires j <= |blocks| == |cls|
  {
    forall k :: 0 <= k < j && cls[k].Heading? ==> !SamePlace(e, blocks[k])
  }

  /** Every collected entry comes from the first heading block at its (lower(text), page) pair. */
  lemma {:induction false} CollectFirstOccurrence(blocks: seq<TextBlock>, cls: seq<Class>, n: nat)
    requires n <= |blocks| == |cls|
    ensures forall e :: e in Collect(blocks, cls, n) ==> exists j: nat :: j < n && FirstHeading(blocks, cls, e, j)
  {
    if n > 0 {
      CollectFirstOccurrence(blocks, cls, n - 1);
      var prev := Collect(blocks, cls, n - 1);
      var r := Collect(blocks, cls, n);
      var b := blocks[n - 1];
      if cls[n - 1].Heading? && !HasPlace(prev, Strip(b.text), b.page) {
        NewEntryIsFirst(blocks, cls, n);
      }
    }
  }

  /** The entry the `n`-th block adds, when it adds one, is the first heading at its pair. */
  lemma NewEntryIsFirst(blocks: seq<TextBlock>, cls: seq<Class>, n: nat)
    requires 0 < n <= |blocks| == |cls| && cls[n - 1].Heading?
    requires !HasPlace(Collect(blocks, cls, n - 1), Strip(blocks[n - 1].text), blocks[n - 1].page)
    ensures FirstHeading(blocks, cls, HeadingEntry(cls[n - 1].level, Strip(blocks[n - 1].text), blocks[n - 1].page), n - 1)
  {
    CollectComplete(blocks, cls, n - 1);
    NotSeenIsFirst(blocks, cls, Collect(blocks, cls, n - 1), n - 1);
  }

  /**
    A heading block whose pair is not in `es`, where `es` holds the pair of
    every heading block before it, is the first heading at its pair.
  */
  lemma NotSeenIsFirst(blocks: seq<TextBlock>, cls: seq<Class>, es: seq<HeadingEntry>, j: nat)
    requires j < |blocks| == |cls| && cls[j].Heading?
    requires AllPlaced(es, blocks, cls, j)
    requires !HasPlace(es, Strip(blocks[j].text), blocks[j].page)
    ensures FirstHeading(blocks, cls, HeadingEntry(cls[j].level, Strip(blocks[j].text), blocks[j].page), j)
  {
    var e := HeadingEntry(cls[j].level, Strip(blocks[j].text), blocks[j].page);
    forall k | 0 <= k < j && cls[k].Heading?
      ensures !SamePlace(e, blocks[k])
    {
      SamePlaceHasPlace(es, e, blocks[k]);
    }
  }

  /** An entry at the same pair as a block whose pair is in `es` has its own pair in `es`. */
  lemma SamePlaceHasPlace(es: seq<HeadingEntry>, e: HeadingEntry, b: TextBlock)
    requires HasPlace(es, Strip(b.text), b.page)
    ensures SamePlace(e, b) ==> HasPlace(es, e.text, e.page)
  {
    var f :| f in es && Lower(f.text) == Lower(Strip(b.text)) && f.page == b.page;
    assert SamePlace(e, b) ==> Lower(f.text) == Lower(e.text) && f.page == e.page;
  }

  // -------------------------------------------------------------- order

  /** H1 < H2 < H3, the order of their labels. */
  function LevelRank(l: Level): (k: nat)
    ensures 1 <= k <= 3
    ensures Label(l) == ['H', DigitChar(k)]
  {
    match l
    case H1 => 1
    case H2 => 2
    case H3 => 3
  }

  /** The sort key `(page, level)` as one number: the rank of a level is below 4. */
  function EntryKey(e: HeadingEntry): real {
    (4 * e.page + LevelRank(e.level)) as real
  }

  /** Ordering by `EntryKey` is ordering by page, then by level label. */
  lemma EntryKeyOrder(a: HeadingEntry, b: HeadingEntry)
    ensures EntryKey(a) <= EntryKey(b) <==>
              a.page < b.page || (a.page == b.page && LevelRank(a.level) <= LevelRank(b.level))
    ensures EntryKey(a) == EntryKey(b) <==> a.page == b.page && a.level == b.level
  {
  }

  // ------------------------------------------------------------ outline

  /** The outline entries of a document whose blocks have the classes `cls`: collected, then sorted. */
  ghost function Assemble(blocks: seq<TextBlock>, cls: seq<Class>): seq<HeadingEntry>
    requires |blocks| == |cls|
  {
    SortBy(Collect(blocks, cls, |blocks|), EntryKey)
  }

  /**
    The `{title, outline}` of a document; a division by a zero median raises,
    and the handler at the end of `extract_outline` turns that into the error
    document.
  */
  ghost function OutlineOf(blocks: seq<TextBlock>): Outline
    requires Extracted(blocks)
  {
    if blocks == [] then Outline("Empty Document", [])
    else
      var stats := CalculateFontStatistics(blocks);
      if DividesByZero(blocks, stats) then Outline("Error Processing Document", [])
      else
        ExtractedHasText(blocks);
        Outline(DetectedTitle(blocks), Assemble(blocks, Classes(blocks, stats)))
  }

  /**
    When every font size is positive the median is positive too, since it is
    one of them, so the classification never divides by zero.
  */
  lemma MedianPositive(blocks: seq<TextBlock>)
    requires blocks != [] && forall b :: b in blocks ==> b.fontSize > 0.0
    ensures CalculateFontStatistics(blocks).median > 0.0
    ensures !DividesByZero(blocks, CalculateFontStatistics(blocks))
  {
    var sizes := Sizes(blocks);
    var m := CalculateFontStatistics(blocks).median;
    var k :| 0 <= k < |sizes| && sizes[k] == m;
    assert blocks[k] in blocks;
  }

  lemma ExtractedHasText(blocks: seq<TextBlock>)
    requires Extracted(blocks)
    ensures HasText(FirstPage(blocks))
  {
  }

  /** `extract_outline` once the blocks have been extracted. */
  method ExtractOutline(blocks: seq<TextBlock>) returns (o: Outline)
    requires Extracted(blocks)
    ensures o == OutlineOf(blocks)
  {
    if blocks == [] {
      return Outline("Empty Document", []);
    }
    var stats := CalculateFontStatistics(blocks);
    ExtractedHasText(blocks);
    var title := DetectTitle(blocks);
    if DividesByZero(blocks, stats) {
      return Outline("Error Processing Document", []);
    }
    var cls := Classes(blocks, stats);
    var outline := CollectHeadings(blocks, cls);
    outline := SortBy(outline, EntryKey);
    return Outline(title, outline);
  }

  /**
    The loop of `extract_outline` over the blocks and their classes, with its
    set of seen keys: a heading is appended unless its key was seen.
  */
  method CollectHeadings(blocks: seq<TextBlock>, cls: seq<Class>) returns (outline: seq<HeadingEntry>)
    requires |blocks| == |cls|
    ensures outline == Collect(blocks, cls, |blocks|)
  {
    outline := [];
    var seen: set<string> := {};
    var i := 0;
    while i < |blocks|
      invariant 0 <= i <= |blocks|
      invariant outline == Collect(blocks, cls, i) && seen == Keys(outline)
    {
      outline, seen := CollectOne(blocks, cls, i, outline, seen);
      i := i + 1;
    }
  }

  /** One pass of the loop body: a heading is appended unless its key was seen. */
  method CollectOne(blocks: seq<TextBlock>, cls: seq<Class>, i: nat, outline: seq<HeadingEntry>, seen: set<string>)
    returns (outline': seq<HeadingEntry>, seen': set<string>)
    requires i < |blocks| == |cls|
    requires outline == Collect(blocks, cls, i) && seen == Keys(outline)
    ensures outline' == Collect(blocks, cls, i + 1) && seen' == Keys(outline')
  {
    outline', seen' := outline, seen;
    var level := cls[i];
    if level.Heading? {
      var text := Strip(blocks[i].text);
      var page := blocks[i].page;
      var key := HeadingKey(text, page);
      if key !in seen {
        var entry := HeadingEntry(level.level, text, page);
        KeysAppend(outline, entry);
        outline' := outline + [entry];
        seen' := seen + {key};
      }
    }
    CollectStep(blocks, cls, i);
  }


  /**
    The assembled outline is sorted by page and level and holds at most one
    entry per (lower(text), page) pair: exactly one for each pair that some
    heading block has, taken from the first such block.
  */
  lemma AssembleProperties(blocks: seq<TextBlock>, cls: seq<Class>)
    requires |blocks| == |cls|
    ensures SortedBy(Assemble(blocks, cls), EntryKey)
    ensures DistinctPlaces(Assemble(blocks, cls))
    ensures forall j :: 0 <= j < |blocks| && cls[j].Heading? ==>
              HasPlace(Assemble(blocks, cls), Strip(blocks[j].text), blocks[j].page)
    ensures forall e :: e in Assemble(blocks, cls) ==> exists j: nat :: FirstHeading(blocks, cls, e, j)
  {
    var c := Collect(blocks, cls, |blocks|);
    var hs := Assemble(blocks, cls);
    CollectDistinct(blocks, cls, |blocks|);
    PermutationDistinct(c, hs);
    SameElements(c, hs);
    CollectComplete(blocks, cls, |blocks|);
    CollectFirstOccurrence(blocks, cls, |blocks|);
  }

  lemma SameElements(c: seq<HeadingEntry>, hs: seq<HeadingEntry>)
    requires multiset(hs) == multiset(c)
    ensures forall e :: e in hs <==> e in c
  {
    forall e ensures e in hs <==> e in c {
      assert e in hs <==> e in multiset(hs);
    }
  }

  predicate SameKey(a: HeadingEntry, b: HeadingEntry) {
    Lower(a.text) == Lower(b.text) && a.page == b.page
  }

  /** No two entries share a (lower(text), page) pair. */
  predicate DistinctPlaces(es: seq<HeadingEntry>) {
    forall i, j :: 0 <= i < j < |es| ==> !SameKey(es[i], es[j])
  }

  /** A permutation of a list of distinct pairs holds distinct pairs. */
  lemma PermutationDistinct(c: seq<HeadingEntry>, hs: seq<HeadingEntry>)
    requires multiset(hs) == multiset(c) && DistinctPlaces(c)
    ensures DistinctPlaces(hs)
  {
    forall i, j | 0 <= i < j < |hs| ensures !SameKey(hs[i], hs[j]) {
      if SameKey(hs[i], hs[j]) {
        assert hs[i] in multiset(c) && hs[j] in multiset(c);
        var x :| 0 <= x < |c| && c[x] == hs[i];
        var y :| 0 <= y < |c| && c[y] == hs[j];
        if x == y {
          TwiceInSeq(hs, i, j);
          OnceInDistinct(c, x);
        }
      }
    }
  }

  lemma TwiceInSeq(hs: seq<HeadingEntry>, i: nat, j: nat)
    requires i < j < |hs| && hs[i] == hs[j]
    ensures multiset(hs)[hs[i]] >= 2
  {
    assert hs == hs[..i] + [hs[i]] + hs[i + 1..j] + [hs[j]] + hs[j + 1..];
  }

  lemma OnceInDistinct(c: seq<HeadingEntry>, x: nat)
    requires x < |c| && DistinctPlaces(c)
    ensures multiset(c)[c[x]] == 1
  {
    assert c == c[..x] + [c[x]] + c[x + 1..];
    assert c[x] !in c[..x] && c[x] !in c[x + 1..] by {
      forall m | 0 <= m < |c| && m != x ensures c[m] != c[x] {
        if m < x { assert !SameKey(c[m], c[x]); } else { assert !SameKey(c[x], c[m]); }
      }
    }
  }
}
