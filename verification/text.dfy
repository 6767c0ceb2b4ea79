/**
  String primitives shared by every part of the outline engine: Python's
  whitespace set (used by `str.strip`, `str.split` and the regex class `\s`),
  ASCII-level case mapping, substring tests, decimal rendering of page numbers,
  and the one building block every hand-written pattern matcher uses: the end
  of the maximal run of a character class.
*/
module Text {
  import opened Common

  /** Python's `str.isspace`; the same set is matched by `\s` in a str pattern. */
  predicate IsSpace(c: char) {
    || c == ' '
    || ('\t' <= c <= '\r')
    || ('\U{1C}' <= c <= '\U{1F}')
    || c == '\U{85}' || c == '\U{A0}' || c == '\U{1680}'
    || ('\U{2000}' <= c <= '\U{200A}')
    || c == '\U{2028}' || c == '\U{2029}' || c == '\U{202F}' || c == '\U{205F}'
    || c == '\U{3000}'
  }

  predicate IsNonSpace(c: char) { !IsSpace(c) }

  /** `\d` and `str.isdigit`, restricted to ASCII digits. */
  predicate IsDigit(c: char) { '0' <= c <= '9' }

  predicate IsAsciiUpper(c: char) { 'A' <= c <= 'Z' }

  predicate IsAsciiLower(c: char) { 'a' <= c <= 'z' }

  predicate IsAsciiLetter(c: char) { IsAsciiUpper(c) || IsAsciiLower(c) }

  /**
    The regex class `\w` (a character `str.isalnum` accepts, or '_'), by
    blocks: ASCII letters, digits and underscore; the Latin-1 letters and
    number signs (ª, ², ³, µ, ¹, º, ¼, ½, ¾ and the letters from U+00C0 on
    except × and ÷); and every later character except whitespace and the
    blocks of combining marks, punctuation, currency signs, arrows,
    mathematical and technical symbols, box drawing, shapes and dingbats, the
    CJK punctuation marks and the full-width punctuation.
  */
  predicate IsWordChar(c: char) {
    || IsAsciiLetter(c) || IsDigit(c) || c == '_'
    || c == '\U{AA}' || c == '\U{B2}' || c == '\U{B3}' || c == '\U{B5}' || c == '\U{B9}' || c == '\U{BA}'
    || ('\U{BC}' <= c <= '\U{BE}')
    || ('\U{C0}' <= c && c != '\U{D7}' && c != '\U{F7}' && !IsSpace(c) && !IsNonWordBlock(c))
  }

  /** The code-point blocks, from U+0300 on, that hold no `\w` character. */
  predicate IsNonWordBlock(c: char) {
    || ('\U{300}' <= c <= '\U{36F}')
    || ('\U{2000}' <= c <= '\U{206F}')
    || ('\U{20A0}' <= c <= '\U{20FF}')
    || ('\U{2190}' <= c <= '\U{23FF}')
    || ('\U{2500}' <= c <= '\U{2BFF}')
    || ('\U{3000}' <= c <= '\U{3004}') || ('\U{3008}' <= c <= '\U{3020}') || c == '\U{3030}'
    || ('\U{303D}' <= c <= '\U{303F}')
    || ('\U{FF00}' <= c <= '\U{FF0F}') || ('\U{FF1A}' <= c <= '\U{FF20}')
    || ('\U{FF3B}' <= c <= '\U{FF40}') || ('\U{FF5B}' <= c <= '\U{FF65}')
  }

  /**
    In the Latin Extended blocks capitals and small letters mostly alternate:
    in each range below the capital comes first and its small letter follows.
  */
  predicate AlternatesFrom(c: char, lo: char, hi: char, offset: int) {
    lo <= c <= hi && (c as int) % 2 == (lo as int + offset) % 2
  }

  predicate IsAlternateCapital(c: char) {
    || AlternatesFrom(c, '\U{100}', '\U{12F}', 0) || AlternatesFrom(c, '\U{132}', '\U{137}', 0)
    || AlternatesFrom(c, '\U{139}', '\U{148}', 0) || AlternatesFrom(c, '\U{14A}', '\U{177}', 0)
    || AlternatesFrom(c, '\U{179}', '\U{17E}', 0) || AlternatesFrom(c, '\U{1E00}', '\U{1E95}', 0)
    || AlternatesFrom(c, '\U{1EA0}', '\U{1EFF}', 0)
  }

  predicate IsAlternateSmall(c: char) {
    || AlternatesFrom(c, '\U{100}', '\U{12F}', 1) || AlternatesFrom(c, '\U{132}', '\U{137}', 1)
    || AlternatesFrom(c, '\U{139}', '\U{148}', 1) || AlternatesFrom(c, '\U{14A}', '\U{177}', 1)
    || AlternatesFrom(c, '\U{179}', '\U{17E}', 1) || AlternatesFrom(c, '\U{1E00}', '\U{1E95}', 1)
    || AlternatesFrom(c, '\U{1EA0}', '\U{1EFF}', 1)
  }

  /**
    Upper-case letters of the case table: ASCII, Latin-1, Latin Extended-A,
    the Vietnamese horned letters, Latin Extended Additional, the Greek
    capitals (with their tonos forms) and the basic Cyrillic capitals.
  */
  predicate IsUpperChar(c: char) {
    || IsAsciiUpper(c)
    || ('\U{C0}' <= c <= '\U{DE}' && c != '\U{D7}')
    || IsAlternateCapital(c) || c == '\U{178}' || c == '\U{1A0}' || c == '\U{1AF}'
    || c == '\U{386}' || ('\U{388}' <= c <= '\U{38A}') || c == '\U{38C}' || c == '\U{38E}' || c == '\U{38F}'
    || ('\U{391}' <= c <= '\U{3AB}' && c != '\U{3A2}')
    || ('\U{400}' <= c <= '\U{42F}')
  }

  /** Lower-case letters of the same blocks. */
  predicate IsLowerChar(c: char) {
    || IsAsciiLower(c)
    || c == '\U{B5}' || ('\U{DF}' <= c <= '\U{FF}' && c != '\U{F7}')
    || IsAlternateSmall(c) || c == '\U{131}' || c == '\U{138}' || c == '\U{149}' || c == '\U{17F}'
    || c == '\U{1A1}' || c == '\U{1B0}' || ('\U{1E96}' <= c <= '\U{1E9D}') || c == '\U{1E9F}'
    || ('\U{3AC}' <= c <= '\U{3CE}')
    || ('\U{430}' <= c <= '\U{45F}')
  }

  /** `str.lower` on one character, over the case table. */
  function LowerChar(c: char): char {
    if IsAsciiUpper(c) || ('\U{C0}' <= c <= '\U{DE}') || ('\U{391}' <= c <= '\U{3AB}') || ('\U{410}' <= c <= '\U{42F}') then
      if IsUpperChar(c) then (c as int + 32) as char else c
    else if IsAlternateCapital(c) || c == '\U{1A0}' || c == '\U{1AF}' then (c as int + 1) as char
    else if c == '\U{178}' then '\U{FF}'
    else if c == '\U{386}' then '\U{3AC}'
    else if '\U{388}' <= c <= '\U{38A}' then (c as int + 37) as char
    else if c == '\U{38C}' then '\U{3CC}'
    else if c == '\U{38E}' || c == '\U{38F}' then (c as int + 63) as char
    else if '\U{400}' <= c <= '\U{40F}' then (c as int + 80) as char
    else c
  }

  /**
    `str.upper` on one character, over the case table; the sharp s, which
    Python widens to "SS", stays.
  */
  function UpperChar(c: char): char {
    if IsAsciiLower(c) || ('\U{E0}' <= c <= '\U{FE}' && c != '\U{F7}') || ('\U{3B1}' <= c <= '\U{3CB}' && c != '\U{3C2}')
       || ('\U{430}' <= c <= '\U{44F}') then (c as int - 32) as char
    else if IsAlternateSmall(c) || c == '\U{1A1}' || c == '\U{1B0}' then (c as int - 1) as char
    else if c == '\U{B5}' then '\U{39C}'
    else if c == '\U{FF}' then '\U{178}'
    else if c == '\U{131}' then 'I'
    else if c == '\U{17F}' then 'S'
    else if c == '\U{3C2}' then '\U{3A3}'
    else if c == '\U{3AC}' then '\U{386}'
    else if '\U{3AD}' <= c <= '\U{3AF}' then (c as int - 37) as char
    else if c == '\U{3CC}' then '\U{38C}'
    else if c == '\U{3CD}' || c == '\U{3CE}' then (c as int - 63) as char
    else if '\U{450}' <= c <= '\U{45F}' then (c as int - 80) as char
    else c
  }

  /**
    The two case maps are inverse on the table: a capital lowers to a
    lower-case letter that upper-cases back to it, and any other character is
    left as it is by lower-casing.
  */
  lemma CaseRoundTrip(c: char)
    ensures CaseFacts(c)
  {
    if IsAlternateCapital(c) {
      AlternateCapitalFacts(c);
    } else if IsAlternateSmall(c) {
      AlternateSmallFacts(c);
    } else if c < '\U{100}' {
      LatinCaseFacts(c);
    } else if c < '\U{370}' {
      ExtendedCaseFacts(c);
    } else if c < '\U{400}' {
      GreekCaseFacts(c);
    } else if c < '\U{460}' {
      CyrillicCaseFacts(c);
    }
  }

  /** What `CaseRoundTrip` states about one character. */
  predicate CaseFacts(c: char) {
    && (IsUpperChar(c) ==> IsLowerChar(LowerChar(c)) && UpperChar(LowerChar(c)) == c && UpperChar(c) == c)
    && (!IsUpperChar(c) ==> LowerChar(c) == c)
    && !IsUpperChar(LowerChar(c))
  }

  lemma AlternateCapitalFacts(c: char)
    requires IsAlternateCapital(c)
    ensures CaseFacts(c)
  {
    var d := (c as int + 1) as char;
    AlternateRoundTrip(c);
    assert IsUpperChar(c) && !IsLowerChar(c);
    assert LowerChar(c) == d;
    assert IsLowerChar(d) && !IsUpperChar(d);
    assert UpperChar(d) == c;
  }

  lemma AlternateSmallFacts(c: char)
    requires IsAlternateSmall(c)
    ensures CaseFacts(c)
  {
    AlternateSmallIsNotCapital(c);
  }

  lemma LatinCaseFacts(c: char)
    requires c < '\U{100}'
    ensures CaseFacts(c)
  {
  }

  lemma ExtendedCaseFacts(c: char)
    requires '\U{100}' <= c < '\U{370}' && !IsAlternateCapital(c) && !IsAlternateSmall(c)
    ensures CaseFacts(c)
  {
  }

  lemma GreekCaseFacts(c: char)
    requires '\U{370}' <= c < '\U{400}'
    ensures CaseFacts(c)
  {
  }

  lemma CyrillicCaseFacts(c: char)
    requires '\U{400}' <= c < '\U{460}'
    ensures CaseFacts(c)
  {
  }

  lemma AlternateRoundTrip(c: char)
    requires IsAlternateCapital(c)
    ensures IsAlternateSmall((c as int + 1) as char) && !IsAlternateCapital((c as int + 1) as char)
    ensures !IsAlternateSmall(c)
    ensures '\U{100}' <= c < '\U{17F}' || '\U{1E00}' <= c < '\U{1EFF}'
  {
  }

  lemma AlternateSmallIsNotCapital(c: char)
    requires IsAlternateSmall(c)
    ensures !IsAlternateCapital(c)
  {
  }

  /** Lower-casing keeps digits and whitespace and takes ASCII letters to ASCII lower case. */
  lemma LowerCharAscii(c: char)
    ensures IsDigit(c) || IsSpace(c) || c == '.' ==> LowerChar(c) == c
    ensures IsAsciiLetter(c) ==> IsAsciiLower(LowerChar(c))
  {
  }

  /** `str.lower`, character by character over the case table. */
  function Lower(s: string): (r: string)
    ensures |r| == |s|
    decreases |s|
  {
    if s == [] then [] else [LowerChar(s[0])] + Lower(s[1..])
  }

  /** Each character of the lower-cased text is its own character lower-cased. */
  lemma {:induction false} LowerAt(s: string)
    ensures forall i :: 0 <= i < |s| ==> Lower(s)[i] == LowerChar(s[i])
    decreases |s|
  {
    if s != [] {
      LowerAt(s[1..]);
    }
  }

  function Upper(s: string): (r: string)
    ensures |r| == |s|
    ensures forall i :: 0 <= i < |s| ==> r[i] == UpperChar(s[i])
  {
    seq(|s|, i requires 0 <= i < |s| => UpperChar(s[i]))
  }

  /** Python's `str.isupper`: some cased character and no lower-case one. */
  predicate IsUpperStr(s: string) {
    (exists i :: 0 <= i < |s| && IsUpperChar(s[i])) && (forall i :: 0 <= i < |s| ==> !IsLowerChar(s[i]))
  }

  /** Python's `str.isdigit`: non-empty and digits only. */
  predicate IsDigitStr(s: string) {
    |s| > 0 && forall i :: 0 <= i < |s| ==> IsDigit(s[i])
  }

  lemma LowerHasNoUpper(s: string)
    ensures forall i :: 0 <= i < |Lower(s)| ==> !IsUpperChar(Lower(s)[i])
  {
    forall i | 0 <= i < |s| ensures !IsUpperChar(Lower(s)[i]) {
      CaseRoundTrip(s[i]);
    }
  }

  lemma LowerIdempotent(s: string)
    ensures Lower(Lower(s)) == Lower(s)
  {
    LowerHasNoUpper(s);
    forall i | 0 <= i < |s| ensures Lower(Lower(s))[i] == Lower(s)[i] {
      CaseRoundTrip(Lower(s)[i]);
    }
  }

  /** Upper-casing forgets any earlier lower-casing. */
  lemma UpperOfLower(s: string)
    ensures Upper(Lower(s)) == Upper(s)
  {
    forall i | 0 <= i < |s| ensures Upper(Lower(s))[i] == Upper(s)[i] {
      CaseRoundTrip(s[i]);
    }
  }

  // ---------------------------------------------------------------- strip

  /** Number of leading whitespace characters of `s`. */
  function LeadingSpace(s: string): nat
    ensures LeadingSpace(s) <= |s|
  {
    RunEnd(s, 0, IsSpace)
  }

  /** Python's `str.strip()`: the result is the slice of `s` left after removing
      every leading and trailing whitespace character. */
  function Strip(s: string): (r: string)
    ensures |r| <= |s| - LeadingSpace(s) && r == s[LeadingSpace(s)..LeadingSpace(s) + |r|]
    ensures forall i :: 0 <= i < LeadingSpace(s) || LeadingSpace(s) + |r| <= i < |s| ==> IsSpace(s[i])
    ensures r != [] ==> !IsSpace(r[0]) && !IsSpace(r[|r| - 1])
  {
    var a := RunEnd(s, 0, IsSpace);
    if a == |s| then [] else s[a..RunBack(s, |s|, IsSpace)]
  }

  /** A string without leading or trailing whitespace is its own strip. */
  lemma StripOfStripped(s: string)
    requires s != [] ==> !IsSpace(s[0]) && !IsSpace(s[|s| - 1])
    ensures Strip(s) == s
  {
  }

  lemma StripIdempotent(s: string)
    ensures Strip(Strip(s)) == Strip(s)
  {
    StripOfStripped(Strip(s));
  }

  /** Without leading whitespace, the strip is a prefix followed only by whitespace. */
  lemma StripKeepsFirst(s: string)
    requires s != [] && !IsSpace(s[0])
    ensures Strip(s) != [] && Strip(s)[0] == s[0]
    ensures Strip(s) == s[..|Strip(s)|]
    ensures forall i :: |Strip(s)| <= i < |s| ==> IsSpace(s[i])
  {
    assert LeadingSpace(s) == 0;
  }

  // ------------------------------------------------------------ substrings

  predicate StartsWith(s: string, p: string) {
    |p| <= |s| && s[..|p|] == p
  }

  predicate EndsWith(s: string, p: string) {
    |p| <= |s| && s[|s| - |p|..] == p
  }

  /** Python's `p in s`. */
  predicate Contains(s: string, p: string)
    decreases |s|
  {
    StartsWith(s, p) || (|s| > 0 && Contains(s[1..], p))
  }

  lemma {:induction false} ContainsAt(s: string, p: string, i: nat)
    requires i + |p| <= |s| && s[i..i + |p|] == p
    ensures Contains(s, p)
  {
    if i > 0 {
      assert s[1..][i - 1..i - 1 + |p|] == s[i..i + |p|];
      ContainsAt(s[1..], p, i - 1);
    } else {
      assert s[..|p|] == s[0..|p|];
    }
  }

  lemma {:induction false} ContainsWitness(s: string, p: string) returns (i: nat)
    requires Contains(s, p)
    ensures i + |p| <= |s| && s[i..i + |p|] == p
    decreases |s|
  {
    if StartsWith(s, p) {
      i := 0;
    } else {
      var j := ContainsWitness(s[1..], p);
      assert s[1..][j..j + |p|] == s[j + 1..j + 1 + |p|];
      i := j + 1;
    }
  }

  /** Some word of `ws` is a substring of `s` (`any(w in s for w in ws)`). */
  predicate ContainsAny(s: string, ws: seq<string>)
    decreases |ws|
  {
    |ws| > 0 && (Contains(s, ws[0]) || ContainsAny(s, ws[1..]))
  }

  predicate StartsWithAny(s: string, ws: seq<string>)
    decreases |ws|
  {
    |ws| > 0 && (StartsWith(s, ws[0]) || StartsWithAny(s, ws[1..]))
  }

  predicate EndsWithAny(s: string, ws: seq<string>)
    decreases |ws|
  {
    |ws| > 0 && (EndsWith(s, ws[0]) || EndsWithAny(s, ws[1..]))
  }

  lemma {:induction false} ContainsAnyIff(s: string, ws: seq<string>)
    ensures ContainsAny(s, ws) <==> exists k :: 0 <= k < |ws| && Contains(s, ws[k])
  {
    if |ws| > 0 {
      ContainsAnyIff(s, ws[1..]);
      assert forall k :: 1 <= k < |ws| ==> ws[k] == ws[1..][k - 1];
    }
  }

  lemma {:induction false} StartsWithAnyIff(s: string, ws: seq<string>)
    ensures StartsWithAny(s, ws) <==> exists k :: 0 <= k < |ws| && StartsWith(s, ws[k])
  {
    if |ws| > 0 {
      StartsWithAnyIff(s, ws[1..]);
      assert forall k :: 1 <= k < |ws| ==> ws[k] == ws[1..][k - 1];
    }
  }

  /** The character `c` occurs in `s`. */
  predicate HasChar(s: string, c: char) {
    exists i :: 0 <= i < |s| && s[i] == c
  }

  // ------------------------------------------------------------- matching

  /** End of the maximal run of characters satisfying `P` that starts at `i`:
      the greedy match of `P*` from position `i`. */
  function RunEnd(s: string, i: nat, P: char -> bool): (j: nat)
    requires i <= |s|
    ensures i <= j <= |s|
    ensures forall k :: i <= k < j ==> P(s[k])
    ensures j < |s| ==> !P(s[j])
    decreases |s| - i
  {
    if i < |s| && P(s[i]) then RunEnd(s, i + 1, P) else i
  }

  /** A run that ends where its class stops matching is the maximal run. */
  lemma {:induction false} RunEndIs(s: string, i: nat, P: char -> bool, j: nat)
    requires i <= j <= |s|
    requires forall k :: i <= k < j ==> P(s[k])
    requires j < |s| ==> !P(s[j])
    ensures RunEnd(s, i, P) == j
    decreases j - i
  {
    if i < j {
      RunEndIs(s, i + 1, P, j);
    }
  }

  /** Start of the maximal run of characters satisfying `P` that ends at `j`. */
  function RunBack(s: string, j: nat, P: char -> bool): (i: nat)
    requires j <= |s|
    ensures i <= j
    ensures forall k :: i <= k < j ==> P(s[k])
    ensures 0 < i ==> !P(s[i - 1])
    decreases j
  {
    if 0 < j && P(s[j - 1]) then RunBack(s, j - 1, P) else j
  }

  /** A run that starts where its class stops matching is the maximal run back from `j`. */
  lemma {:induction false} RunBackIs(s: string, i: nat, j: nat, P: char -> bool)
    requires i <= j <= |s|
    requires forall k :: i <= k < j ==> P(s[k])
    requires 0 < i ==> !P(s[i - 1])
    ensures RunBack(s, j, P) == i
    decreases j
  {
    if i < j {
      RunBackIs(s, i, j - 1, P);
    }
  }

  /** The regex anchor `$`: end of the string, or just before a final newline. */
  predicate AtEnd(s: string, i: nat) {
    i == |s| || (i + 1 == |s| && s[i] == '\n')
  }

  /** `s[i..]` starts with `w`. */
  predicate LiteralAt(s: string, i: nat, w: string) {
    i + |w| <= |s| && s[i..i + |w|] == w
  }

  /** A literal found at `i` contains each of its own slices at the matching offset. */
  lemma LiteralInside(s: string, i: nat, w: string, d: nat, v: string)
    requires LiteralAt(s, i, w) && d + |v| <= |w| && w[d..d + |v|] == v
    ensures LiteralAt(s, i + d, v)
  {
    forall k | 0 <= k < |v|
      ensures s[i + d + k] == v[k]
    {
      assert s[i + d + k] == s[i..i + |w|][d + k] == w[d..d + |v|][k];
    }
    assert s[i + d..i + d + |v|] == v;
  }

  // ----------------------------------------------------------------- split

  /** Python's `str.split()` with no argument: the maximal runs of non-whitespace. */
  function Words(s: string): (ws: seq<string>)
    ensures forall k :: 0 <= k < |ws| ==> ws[k] != [] && forall c :: c in ws[k] ==> !IsSpace(c)
    decreases |s|
  {
    var a := RunEnd(s, 0, IsSpace);
    if a == |s| then []
    else
      var b := RunEnd(s, a, IsNonSpace);
      [s[a..b]] + Words(s[b..])
  }

  function WordCount(s: string): nat { |Words(s)| }

  /** Python's `sep.join(parts)`. */
  function Join(parts: seq<string>, sep: string): string
    decreases |parts|
  {
    if parts == [] then ""
    else if |parts| == 1 then parts[0]
    else parts[0] + sep + Join(parts[1..], sep)
  }

  // ---------------------------------------------------------- page numbers

  function DigitChar(d: nat): char
    requires d < 10
  {
    ('0' as int + d) as char
  }

  /** Python's `str(n)` for a natural number. */
  function NatToString(n: nat): (r: string)
    ensures |r| > 0
    ensures forall i :: 0 <= i < |r| ==> IsDigit(r[i])
  {
    if n < 10 then [DigitChar(n)] else NatToString(n / 10) + [DigitChar(n % 10)]
  }

  lemma {:induction false} NatToStringInjective(a: nat, b: nat)
    requires NatToString(a) == NatToString(b)
    ensures a == b
  {
    if a >= 10 && b >= 10 {
      var ra, rb := NatToString(a), NatToString(b);
      assert ra[|ra| - 1] == DigitChar(a % 10) && rb[|rb| - 1] == DigitChar(b % 10);
      assert ra[..|ra| - 1] == NatToString(a / 10);
      assert rb[..|rb| - 1] == NatToString(b / 10);
      NatToStringInjective(a / 10, b / 10);
    }
  }
}
