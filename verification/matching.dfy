/**
  The regular-expression pieces the outline engine uses, as matchers that take
  a position and return the position after the match (or `None`).

  Every pattern built from them is deterministic: each greedy run is followed
  by a character its own class excludes (digits then '.', spaces then a letter,
  and so on), so the maximal run is the only one a backtracking engine could
  complete the match with.
*/
module Matching {
  import opened Common
  import opened Text

  /** `P+` at `i`, greedy. */
  function Plus(s: string, i: nat, P: char -> bool): (r: Option<nat>)
    requires i <= |s|
    ensures r.Some? <==> i < |s| && P(s[i])
    ensures r.Some? ==> r.value == RunEnd(s, i, P) && i < r.value <= |s|
  {
    var j := RunEnd(s, i, P);
    if i < j then Some(j) else None
  }

  /** One character of class `P` at `i`. */
  function One(s: string, i: nat, P: char -> bool): (r: Option<nat>)
    requires i <= |s|
    ensures r.Some? <==> i < |s| && P(s[i])
    ensures r.Some? ==> r.value == i + 1
  {
    if i < |s| && P(s[i]) then Some(i + 1) else None
  }

  /** The literal `w` at `i`. */
  function Lit(s: string, i: nat, w: string): (r: Option<nat>)
    requires i <= |s|
    ensures r.Some? <==> LiteralAt(s, i, w)
    ensures r.Some? ==> r.value == i + |w| <= |s|
  {
    if LiteralAt(s, i, w) then Some(i + |w|) else None
  }

  /** `c?` at `i`, greedy. */
  function Opt(s: string, i: nat, c: char): (j: nat)
    requires i <= |s|
    ensures j <= |s|
    ensures j == i + 1 <==> i < |s| && s[i] == c
    ensures j == i || j == i + 1
  {
    if i < |s| && s[i] == c then i + 1 else i
  }

  /** The anchor `$` at `i`. */
  function End(s: string, i: nat): (r: Option<nat>)
    requires i <= |s|
    ensures r.Some? <==> AtEnd(s, i)
    ensures r.Some? ==> r.value == i
  {
    if AtEnd(s, i) then Some(i) else None
  }

  /** One piece of an anchored pattern: a literal, `P+`, `P*` or `$`. */
  datatype Piece = Word(w: string) | OneOrMore(P: char -> bool) | ZeroOrMore(P: char -> bool) | EndAnchor

  function Step(s: string, i: nat, p: Piece): (r: Option<nat>)
    requires i <= |s|
    ensures r.Some? ==> i <= r.value <= |s|
  {
    match p
    case Word(w) => Lit(s, i, w)
    case OneOrMore(P) => Plus(s, i, P)
    case ZeroOrMore(P) => Some(RunEnd(s, i, P))
    case EndAnchor => End(s, i)
  }

  /** The pieces matched one after another from `i`, each run greedy; where the match ends. */
  function Match(s: string, i: nat, pieces: seq<Piece>): (r: Option<nat>)
    requires i <= |s|
    ensures r.Some? ==> i <= r.value <= |s|
    decreases |pieces|
  {
    if |pieces| == 0 then Some(i)
    else
      var j :- Step(s, i, pieces[0]);
      Match(s, j, pieces[1..])
  }

  /** A match of a pattern includes a match of each of its prefixes. */
  lemma {:induction false} MatchPrefix(s: string, i: nat, p: seq<Piece>, q: seq<Piece>)
    requires i <= |s| && Match(s, i, p + q).Some?
    ensures Match(s, i, p).Some?
    decreases |p|
  {
    if |p| > 0 {
      assert (p + q)[0] == p[0] && (p + q)[1..] == p[1..] + q;
      MatchPrefix(s, Step(s, i, p[0]).value, p[1..], q);
    }
  }

  /** Some pattern of `pats` matches at the start of `s` (`any(re.match(p, s) for p in pats)`). */
  predicate MatchesAny(s: string, pats: seq<seq<Piece>>)
    decreases |pats|
  {
    |pats| > 0 && (Match(s, 0, pats[0]).Some? || MatchesAny(s, pats[1..]))
  }

  lemma {:induction false} MatchesAnyIff(s: string, pats: seq<seq<Piece>>)
    ensures MatchesAny(s, pats) <==> exists k :: 0 <= k < |pats| && Match(s, 0, pats[k]).Some?
    decreases |pats|
  {
    if |pats| > 0 {
      MatchesAnyIff(s, pats[1..]);
      assert forall k :: 1 <= k < |pats| ==> pats[k] == pats[1..][k - 1];
    }
  }
}
