/**
  `convert_chanakya_to_unicode`: text containing Arabic letters loses its
  control characters and has its whitespace runs collapsed; text set in a
  Chanakya (legacy Devanagari) font has every table key replaced by its
  Devanagari spelling, one table entry after another.
*/
module Chanakya {
  import opened Text

  /** `CHANAKYA_TO_UNICODE`, in its declaration order: legacy spelling, Unicode spelling. */
  const ChanakyaTable: seq<(string, string)> := [
    ("d{kk", "\U{0915}\U{0915}\U{094D}\U{0937}\U{093E}"),
    ("\U{00AF}gnh", "\U{0939}\U{093F}\U{0902}\U{0926}\U{0940}"),
    (",sfPNd", "\U{090F}\U{0932}\U{0947}\U{0915}\U{094D}\U{091F}\U{093F}\U{0935}"),
    ("iz'u", "\U{092A}\U{094D}\U{0930}\U{0936}\U{094D}\U{0928}"),
    ("i=k", "\U{092A}\U{0924}\U{094D}\U{0930}"),
    ("varjk", "\U{0905}\U{0902}\U{0924}\U{0930}\U{093E}"),
    ("varjky", "\U{0905}\U{0902}\U{0924}\U{0930}\U{093E}\U{0932}"),
    ("vfHko;fDr", "\U{0905}\U{092D}\U{093F}\U{0935}\U{094D}\U{092F}\U{0915}\U{094D}\U{0924}\U{093F}"),
    ("ek\U{00E8};e", "\U{092E}\U{093E}\U{0927}\U{094D}\U{092F}\U{092E}"),
    ("izfrn'kZ", "\U{092A}\U{094D}\U{0930}\U{0924}\U{093F}\U{0926}\U{0930}\U{094D}\U{0936}"),
    ("x|ka'k", "\U{0917}\U{0926}\U{094D}\U{092F}\U{093E}\U{0902}\U{0936}"),
    ("dkO;ka'k", "\U{0915}\U{093E}\U{0935}\U{094D}\U{092F}\U{093E}\U{0902}\U{0936}"),
    ("m\U{00D9}kj", "\U{0909}\U{0924}\U{094D}\U{0924}\U{0930}"),
    ("dhft,", "\U{0915}\U{0940}\U{091C}\U{093F}\U{090F}"),
    ("roZQ", "\U{0924}\U{0930}\U{094D}\U{0915}"),
    ("lfgr", "\U{0938}\U{0939}\U{093F}\U{0924}"),
    ("fuEufyf[kr", "\U{0928}\U{093F}\U{092E}\U{094D}\U{0928}\U{0932}\U{093F}\U{0916}\U{093F}\U{0924}"),
    ("O;k[;k", "\U{0935}\U{094D}\U{092F}\U{093E}\U{0916}\U{094D}\U{092F}\U{093E}"),
    ("lizlax", "\U{0938}\U{092A}\U{094D}\U{0930}\U{0938}\U{0902}\U{0917}"),
    ("thok", "\U{091C}\U{0940}\U{0935}\U{093E}"),
    ("riL;k", "\U{0924}\U{092A}\U{0938}\U{094D}\U{092F}\U{093E}"),
    ("ftUnxh", "\U{091C}\U{093F}\U{0902}\U{0926}\U{0917}\U{0940}"),
    ("lalkj", "\U{0938}\U{0902}\U{0938}\U{093E}\U{0930}"),
    ("HkkjrHkwfe", "\U{092D}\U{093E}\U{0930}\U{0924}\U{092D}\U{0942}\U{092E}\U{093F}"),
    ("lkfgR;dkj", "\U{0938}\U{093E}\U{0939}\U{093F}\U{0924}\U{094D}\U{092F}\U{0915}\U{093E}\U{0930}"),
    ("ijk/hurk", "\U{092A}\U{0930}\U{093E}\U{0927}\U{0940}\U{0928}\U{0924}\U{093E}"),
    ("ijkHko", "\U{092A}\U{0930}\U{093E}\U{092D}\U{0935}"),
    ("vFkok", "\U{0905}\U{0925}\U{0935}\U{093E}"),
    ("ifjp;", "\U{092A}\U{0930}\U{093F}\U{091A}\U{092F}"),
    ("jpukvksa", "\U{0930}\U{091A}\U{0928}\U{093E}\U{0913}\U{0902}"),
    ("fo'ks\"krkvksa", "\U{0935}\U{093F}\U{0936}\U{0947}\U{0937}\U{0924}\U{093E}\U{0913}\U{0902}"),
    ("mYys[k", "\U{0909}\U{0932}\U{094D}\U{0932}\U{0947}\U{0916}"),
    ("Hkk\"kk", "\U{092D}\U{093E}\U{0937}\U{093E}"),
    ("'kSyh", "\U{0936}\U{0948}\U{0932}\U{0940}"),
    ("dkO;xr", "\U{0915}\U{093E}\U{0935}\U{094D}\U{092F}\U{0917}\U{0924}"),
    ("ewY;kadu", "\U{092E}\U{0942}\U{0932}\U{094D}\U{092F}\U{093E}\U{0902}\U{0915}\U{0928}"),
    ("foospukRed", "\U{0935}\U{093F}\U{0935}\U{0947}\U{091A}\U{0928}\U{093E}\U{0924}\U{094D}\U{092E}\U{0915}"),
    ("vfHkO;fDr", "\U{0905}\U{092D}\U{093F}\U{0935}\U{094D}\U{092F}\U{0915}\U{094D}\U{0924}\U{093F}"),
    ("fu/kZfjr", "\U{0928}\U{093F}\U{0930}\U{094D}\U{0927}\U{093E}\U{0930}\U{093F}\U{0924}"),
    ("iqLrosaQ", "\U{092A}\U{0941}\U{0938}\U{094D}\U{0924}\U{0915}\U{0947}\U{0902}"),
    ("izdkf'kr", "\U{092A}\U{094D}\U{0930}\U{0915}\U{093E}\U{0936}\U{093F}\U{0924}"),
    ("D;ksa", "\U{0915}\U{094D}\U{092F}\U{094B}\U{0902}"),
    ("dkSu", "\U{0915}\U{094C}\U{0928}"),
    ("dgk\U{00A1}", "\U{0915}\U{0939}\U{093E}\U{0901}"),
    ("D;k", "\U{0915}\U{094D}\U{092F}\U{093E}"),
    ("dSlk", "\U{0915}\U{0948}\U{0938}\U{093E}"),
    ("fdl", "\U{0915}\U{093F}\U{0938}"),
    ("rjg", "\U{0924}\U{0930}\U{0939}"),
    ("fdUgha", "\U{0915}\U{093F}\U{0928}\U{094D}\U{0939}\U{0940}\U{0902}"),
    ("osQ", "\U{0915}\U{0947}"),
    ("gS", "\U{0939}\U{0948}"),
    ("gSa", "\U{0939}\U{0948}\U{0902}"),
    ("Fkk", "\U{0925}\U{093E}"),
    ("gksrs", "\U{0939}\U{094B}\U{0924}\U{0947}"),
    ("djrs", "\U{0915}\U{0930}\U{0924}\U{0947}"),
    ("fyf[k,", "\U{0932}\U{093F}\U{0916}\U{093F}\U{090F}"),
    ("crkb,", "\U{092C}\U{0924}\U{093E}\U{0907}\U{090F}")
  ]

  /** The Arabic block U+0600 to U+06FF. */
  predicate IsArabic(c: char) {
    '\U{0600}' <= c <= '\U{06FF}'
  }

  predicate HasArabic(s: string) {
    exists i | 0 <= i < |s| :: IsArabic(s[i])
  }

  /** `[\b\x00-\x08\x0E-\x1F\x7F]`: inside a class `\b` is the backspace U+0008. */
  predicate IsControl(c: char) {
    c <= '\U{08}' || ('\U{0E}' <= c <= '\U{1F}') || c == '\U{7F}'
  }

  // ------------------------------------------------------- Arabic cleanup

  /** `re.sub` of the control class with '': every control character dropped. */
  function RemoveControls(s: string): (r: string)
    ensures |r| <= |s|
    ensures forall c :: c in r <==> c in s && !IsControl(c)
    decreases |s|
  {
    if s == [] then []
    else (if IsControl(s[0]) then [] else [s[0]]) + RemoveControls(s[1..])
  }

  /** Text without control characters is left as it is. */
  lemma {:induction false} RemoveControlsKeeps(s: string)
    requires forall i :: 0 <= i < |s| ==> !IsControl(s[i])
    ensures RemoveControls(s) == s
    decreases |s|
  {
    if s != [] {
      RemoveControlsKeeps(s[1..]);
    }
  }

  /**
    Dropping control characters goes character by character: it distributes
    over concatenation, so the kept characters stay in order and each is kept
    as often as it occurs.
  */
  lemma {:induction false} RemoveControlsAppend(a: string, b: string)
    ensures RemoveControls(a + b) == RemoveControls(a) + RemoveControls(b)
    decreases |a|
  {
    if a == [] {
      assert a + b == b;
    } else {
      assert (a + b)[1..] == a[1..] + b;
      RemoveControlsAppend(a[1..], b);
    }
  }

  /** `re.sub(r'\s+', ' ', s)`: each maximal whitespace run becomes one space. */
  function CollapseSpaces(s: string): (r: string)
    ensures s != [] ==> r != [] && (IsSpace(r[0]) <==> IsSpace(s[0]))
    ensures forall i :: 0 <= i < |r| && IsSpace(r[i]) ==> r[i] == ' '
    ensures forall i :: 0 <= i < |r| - 1 ==> !(IsSpace(r[i]) && IsSpace(r[i + 1]))
    decreases |s|
  {
    if s == [] then []
    else if IsSpace(s[0]) then
      var j := RunEnd(s, 0, IsSpace);
      [' '] + CollapseSpaces(s[j..])
    else [s[0]] + CollapseSpaces(s[1..])
  }

  /** A leading whitespace run, up to the first other character, becomes one space. */
  lemma CollapseLead(s: string, j: nat)
    requires 0 < j <= |s| && forall i :: 0 <= i < j ==> IsSpace(s[i])
    requires j < |s| ==> !IsSpace(s[j])
    ensures CollapseSpaces(s) == [' '] + CollapseSpaces(s[j..])
  {
    RunEndIs(s, 0, IsSpace, j);
  }

  lemma AppendAssoc<T>(p: seq<T>, q: seq<T>, r: seq<T>)
    ensures p + (q + r) == (p + q) + r
  {
  }

  /** A leading character that is not whitespace is kept, in `a` and in `a + b`. */
  lemma CollapseWordAppend(a: string, b: string)
    requires a != [] && !IsSpace(a[0])
    ensures CollapseSpaces(a) == [a[0]] + CollapseSpaces(a[1..])
    ensures CollapseSpaces(a + b) == [a[0]] + CollapseSpaces(a[1..] + b)
  {
    assert (a + b)[0] == a[0] && (a + b)[1..] == a[1..] + b;
  }

  /** The leading whitespace run of `a` stays the leading run of `a + b`. */
  lemma CollapseLeadAppend(a: string, b: string, j: nat)
    requires 0 < j <= |a| && forall i :: 0 <= i < j ==> IsSpace(a[i])
    requires j < |a| ==> !IsSpace(a[j])
    requires j == |a| ==> b == [] || !IsSpace(b[0])
    ensures CollapseSpaces(a) == [' '] + CollapseSpaces(a[j..])
    ensures CollapseSpaces(a + b) == [' '] + CollapseSpaces(a[j..] + b)
  {
    var s := a + b;
    assert forall i :: 0 <= i < j ==> s[i] == a[i];
    assert j < |s| ==> s[j] == if j < |a| then a[j] else b[0];
    assert s[j..] == a[j..] + b;
    CollapseLead(a, j);
    CollapseLead(s, j);
  }

  /** A non-empty run made only of whitespace collapses to a single space. */
  lemma CollapseRun(w: string)
    requires w != [] && forall i :: 0 <= i < |w| ==> IsSpace(w[i])
    ensures CollapseSpaces(w) == [' ']
  {
    RunEndIs(w, 0, IsSpace, |w|);
    assert w[|w|..] == [];
  }

  /**
    Collapsing splits at any boundary that is not inside a whitespace run:
    the two sides collapse independently.
  */
  lemma {:induction false} CollapseAppend(a: string, b: string)
    requires a == [] || b == [] || !IsSpace(a[|a| - 1]) || !IsSpace(b[0])
    ensures CollapseSpaces(a + b) == CollapseSpaces(a) + CollapseSpaces(b)
    decreases |a|
  {
    if a == [] {
      assert a + b == b;
    } else {
      var head, j := if IsSpace(a[0]) then ' ' else a[0], if IsSpace(a[0]) then RunEnd(a, 0, IsSpace) else 1;
      if IsSpace(a[0]) {
        CollapseLeadAppend(a, b, j);
      } else {
        CollapseWordAppend(a, b);
      }
      var x, y := CollapseSpaces(a[j..]), CollapseSpaces(b);
      if j < |a| {
        CollapseAppend(a[j..], b);
      } else {
        assert a[j..] == [] && a[j..] + b == b;
      }
      assert CollapseSpaces(a[j..] + b) == x + y;
      AppendAssoc([head], x, y);
    }
  }

  /**
    `re.sub(r'\s+', ' ', s)` on a whitespace run between two non-space
    characters (or the ends of the text): the run becomes exactly one space
    and the text around it collapses on its own.
  */
  lemma RunBecomesOneSpace(a: string, w: string, b: string)
    requires a == [] || !IsSpace(a[|a| - 1])
    requires w != [] && forall i :: 0 <= i < |w| ==> IsSpace(w[i])
    requires b == [] || !IsSpace(b[0])
    ensures CollapseSpaces(a + w + b) == CollapseSpaces(a) + [' '] + CollapseSpaces(b)
  {
    CollapseAppend(a, w);
    CollapseAppend(a + w, b);
    CollapseRun(w);
  }

  /** The characters of `s` that are not whitespace, in order. */
  function NonSpace(s: string): string
    decreases |s|
  {
    if s == [] then [] else (if IsSpace(s[0]) then [] else [s[0]]) + NonSpace(s[1..])
  }

  lemma {:induction false} NonSpaceAppend(a: string, b: string)
    ensures NonSpace(a + b) == NonSpace(a) + NonSpace(b)
    decreases |a|
  {
    if a != [] {
      assert (a + b)[1..] == a[1..] + b;
      NonSpaceAppend(a[1..], b);
    } else {
      assert a + b == b;
    }
  }

  lemma {:induction false} NonSpaceOfRun(s: string, j: nat)
    requires j <= |s| && forall i :: 0 <= i < j ==> IsSpace(s[i])
    ensures NonSpace(s) == NonSpace(s[j..])
    decreases j
  {
    if j > 0 {
      assert s[1..][j - 1..] == s[j..];
      NonSpaceOfRun(s[1..], j - 1);
    }
  }

  /** Whitespace alone has no non-space character. */
  lemma NonSpaceOfSpaces(s: string)
    requires forall i :: 0 <= i < |s| ==> IsSpace(s[i])
    ensures NonSpace(s) == []
  {
    NonSpaceOfRun(s, |s|);
    assert s[|s|..] == [];
  }

  lemma NonSpaceBetweenSpaces(pre: string, r: string, post: string)
    requires forall i :: 0 <= i < |pre| ==> IsSpace(pre[i])
    requires forall i :: 0 <= i < |post| ==> IsSpace(post[i])
    ensures NonSpace(pre + r + post) == NonSpace(r)
  {
    NonSpaceAppend(pre + r, post);
    NonSpaceAppend(pre, r);
    NonSpaceOfSpaces(pre);
    NonSpaceOfSpaces(post);
  }

  /** Stripping removes whitespace only. */
  lemma NonSpaceStrip(s: string)
    ensures NonSpace(Strip(s)) == NonSpace(s)
  {
    var r, a := Strip(s), LeadingSpace(s);
    var pre, post := s[..a], s[a + |r|..];
    assert s == pre + r + post;
    assert forall i :: 0 <= i < |pre| ==> IsSpace(pre[i]);
    assert forall i :: 0 <= i < |post| ==> post[i] == s[a + |r| + i];
    NonSpaceBetweenSpaces(pre, r, post);
  }

  /** Collapsing whitespace keeps every other character, in order. */
  lemma {:induction false} CollapseKeepsText(s: string)
    ensures NonSpace(CollapseSpaces(s)) == NonSpace(s)
    decreases |s|
  {
    if s != [] {
      if IsSpace(s[0]) {
        var j := RunEnd(s, 0, IsSpace);
        CollapseKeepsText(s[j..]);
        NonSpaceAppend([' '], CollapseSpaces(s[j..]));
        NonSpaceOfRun(s, j);
      } else {
        CollapseKeepsText(s[1..]);
        NonSpaceAppend([s[0]], CollapseSpaces(s[1..]));
      }
    }
  }

  /** The Arabic branch: controls removed, whitespace runs collapsed, then stripped. */
  function CleanArabic(s: string): string {
    Strip(CollapseSpaces(RemoveControls(s)))
  }

  /**
    Cleaned Arabic text holds no control character and no whitespace other
    than single spaces between other characters.
  */
  lemma CleanArabicShape(s: string)
    ensures var r := CleanArabic(s);
            (forall i :: 0 <= i < |r| ==> !IsControl(r[i]))
            && (forall i :: 0 <= i < |r| && IsSpace(r[i]) ==> r[i] == ' ' && 0 < i < |r| - 1 && !IsSpace(r[i + 1]))
  {
    var u := RemoveControls(s);
    var w := CollapseSpaces(u);
    var r := Strip(w);
    var a := LeadingSpace(w);
    forall i | 0 <= i < |r| ensures r[i] == w[a + i] {
    }
    forall i | 0 <= i < |w| ensures !IsControl(w[i]) {
      CollapseIntroducesNoControl(u, w[i]);
    }
  }

  /** Cleaning keeps every character that is neither a control character nor whitespace, in order. */
  lemma CleanArabicKeepsText(s: string)
    ensures NonSpace(CleanArabic(s)) == NonSpace(RemoveControls(s))
  {
    var u := RemoveControls(s);
    NonSpaceStrip(CollapseSpaces(u));
    CollapseKeepsText(u);
  }

  lemma {:induction false} CollapseIntroducesNoControl(u: string, c: char)
    requires c in CollapseSpaces(u) && forall d :: d in u ==> !IsControl(d)
    ensures !IsControl(c)
    decreases |u|
  {
    if u != [] {
      if IsSpace(u[0]) {
        var j := RunEnd(u, 0, IsSpace);
        if c != ' ' {
          CollapseIntroducesNoControl(u[j..], c);
        }
      } else if c != u[0] {
        CollapseIntroducesNoControl(u[1..], c);
      }
    }
  }

  // --------------------------------------------------------- replacement

  /**
    Python's `s.replace(k, v)`: occurrences of `k` found left to right without
    overlap are replaced by `v`; an empty `k` puts `v` before every character
    and at the end.
  */
  function ReplaceAll(s: string, k: string, v: string): string
    decreases |s|, |k| == 0
  {
    if k == [] then v + (if s == [] then [] else [s[0]] + ReplaceAll(s[1..], k, v))
    else if StartsWith(s, k) then v + ReplaceAll(s[|k|..], k, v)
    else if s == [] then []
    else [s[0]] + ReplaceAll(s[1..], k, v)
  }

  /** A text without the key is left as it is. */
  lemma {:induction false} ReplaceAllWithoutKey(s: string, k: string, v: string)
    requires !Contains(s, k)
    ensures ReplaceAll(s, k, v) == s
    decreases |s|
  {
    if s != [] {
      ReplaceAllWithoutKey(s[1..], k, v);
    }
  }

  /**
    When the replacement is non-empty and shares no character with the key,
    no occurrence of the key survives: one inside a copy of `v` is impossible
    and one among copied characters would have been replaced.
  */
  lemma {:induction false} ReplaceAllRemoves(s: string, k: string, v: string)
    requires k != [] && v != [] && forall c :: c in v ==> c !in k
    ensures !Contains(ReplaceAll(s, k, v), k)
    decreases |s|
  {
    var r := ReplaceAll(s, k, v);
    if StartsWith(s, k) {
      var rest := ReplaceAll(s[|k|..], k, v);
      ReplaceAllRemoves(s[|k|..], k, v);
      if Contains(r, k) {
        var i := ContainsWitness(r, k);
        if i < |v| {
          Disjoint(v, k, i, 0);
          assert false;
        } else {
          assert rest[i - |v|..i - |v| + |k|] == r[i..i + |k|];
          ContainsAt(rest, k, i - |v|);
        }
      }
    } else if s != [] {
      var rest := ReplaceAll(s[1..], k, v);
      ReplaceAllRemoves(s[1..], k, v);
      assert r[1..] == rest;
      if StartsWith(r, k) {
        KeptPrefix(s[1..], k, v, k[1..]);
        assert false;
      }
    }
  }

  /** Two strings without a common character differ at every pair of positions. */
  lemma Disjoint(a: string, b: string, i: nat, j: nat)
    requires i < |a| && j < |b| && forall c :: c in a ==> c !in b
    ensures a[i] != b[j]
  {
    assert a[i] in a;
  }

  /** A prefix of the result made of characters not in `v` was copied from the input. */
  lemma {:induction false} KeptPrefix(s: string, k: string, v: string, w: string)
    requires k != [] && v != [] && forall c :: c in w ==> c !in v
    requires StartsWith(ReplaceAll(s, k, v), w)
    ensures StartsWith(s, w)
    decreases |w|
  {
    if w != [] {
      var r := ReplaceAll(s, k, v);
      if StartsWith(s, k) {
        Disjoint(w, v, 0, 0);
        assert false;
      } else if s != [] {
        assert r[1..] == ReplaceAll(s[1..], k, v);
        assert w[1..] == r[1..][..|w| - 1];
        KeptPrefix(s[1..], k, v, w[1..]);
        assert s[..|w|] == [s[0]] + s[1..][..|w| - 1];
      }
    }
  }

  /** The first `n` entries of `table` applied in order. */
  function ReplaceTable(s: string, table: seq<(string, string)>, n: nat): string
    requires n <= |table|
  {
    if n == 0 then s else ReplaceAll(ReplaceTable(s, table, n - 1), table[n - 1].0, table[n - 1].1)
  }

  /** A text holding none of the first `n` keys comes through the table unchanged. */
  lemma {:induction false} ReplaceTableWithoutKeys(s: string, table: seq<(string, string)>, n: nat)
    requires n <= |table|
    requires forall j :: 0 <= j < n ==> !Contains(s, table[j].0)
    ensures ReplaceTable(s, table, n) == s
  {
    if n > 0 {
      ReplaceTableWithoutKeys(s, table, n - 1);
      ReplaceAllWithoutKey(s, table[n - 1].0, table[n - 1].1);
    }
  }

  /** The replacement loop of `convert_chanakya_to_unicode`, one table entry at a time. */
  method ApplyTable(t: string, table: seq<(string, string)>) returns (converted: string)
    ensures converted == ReplaceTable(t, table, |table|)
  {
    converted := t;
    var k := 0;
    while k < |table|
      invariant 0 <= k <= |table|
      invariant converted == ReplaceTable(t, table, k)
    {
      converted := ReplaceAll(converted, table[k].0, table[k].1);
      k := k + 1;
    }
  }

  // ---------------------------------------------------------- conversion

  /** The font is a Chanakya font: its lower-cased name contains "chanakya". */
  predicate IsChanakyaFont(fontName: string) {
    Contains(Lower(fontName), "chanakya")
  }

  /** What `convert_chanakya_to_unicode` returns. */
  function Converted(text: string, fontName: string): string {
    if text == [] then text
    else
      var t := if HasArabic(text) then CleanArabic(text) else text;
      if IsChanakyaFont(fontName) then ReplaceTable(t, ChanakyaTable, |ChanakyaTable|) else t
  }

  /** `convert_chanakya_to_unicode`. */
  method ConvertChanakyaToUnicode(text: string, fontName: string) returns (r: string)
    ensures r == Converted(text, fontName)
  {
    if text == [] {
      return text;
    }
    var t := text;
    if HasArabic(t) {
      t := RemoveControls(t);
      t := Strip(CollapseSpaces(t));
      assert t == CleanArabic(text);
    }
    if IsChanakyaFont(fontName) {
      var converted := ApplyTable(t, ChanakyaTable);
      if converted != t {
        return converted;
      }
    }
    return t;
  }

  /** Text without Arabic letters in a font that is not Chanakya comes back unchanged. */
  lemma PlainTextUnchanged(text: string, fontName: string)
    requires !HasArabic(text) && !IsChanakyaFont(fontName)
    ensures Converted(text, fontName) == text
  {
  }

  /** Chanakya text holding no table key comes back unchanged unless it has Arabic letters. */
  lemma KeyFreeTextUnchanged(text: string, fontName: string)
    requires !HasArabic(text)
    requires forall j :: 0 <= j < |ChanakyaTable| ==> !Contains(text, ChanakyaTable[j].0)
    ensures Converted(text, fontName) == text
  {
    if text != [] {
      ReplaceTableWithoutKeys(text, ChanakyaTable, |ChanakyaTable|);
    }
  }
}
