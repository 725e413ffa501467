/** The regular expressions of the scanner's text handling, written out as
    matchers. Every pattern used for counting or for the hits rule is an
    alternation of literals, each optionally guarded by `\b` before or after;
    the JSON "matched" marker has its own matcher. All of them are applied to
    lowercased text, which is what `re.I` amounts to for ASCII input. */
module Patterns {
  import opened Text

  /** One alternative: `\b`? literal `\b`? */
  datatype Alt = Alt(boundaryBefore: bool, lit: string, boundaryAfter: bool)

  datatype Pattern =
    | Alternatives(alts: seq<Alt>)
      /** `"match(ed)?_?(indicator)?"\s*:\s*(true|"true"|1)` */
    | MatchedMarker

  /** Every alternative consumes at least one character, so no pattern here has an
      empty match. */
  predicate ValidPattern(p: Pattern) {
    p.Alternatives? ==> forall a :: a in p.alts ==> |a.lit| > 0
  }

  /** `\b` at index `i`: exactly one side of `i` is a word character. */
  predicate BoundaryAt(s: string, i: int)
    requires 0 <= i <= |s|
  {
    (i > 0 && IsWordChar(s[i - 1])) != (i < |s| && IsWordChar(s[i]))
  }

  predicate AltMatchesAt(s: string, a: Alt, i: int) {
    && OccursAt(s, a.lit, i)
    && (a.boundaryBefore ==> BoundaryAt(s, i))
    && (a.boundaryAfter ==> BoundaryAt(s, i + |a.lit|))
  }

  /** End of the match at `i` of the first alternative that matches there:
      the regex engine tries the branches of an alternation in order. */
  function AltEnd(s: string, alts: seq<Alt>, i: int): (r: Option<nat>)
    ensures r.Some? ==> exists k :: 0 <= k < |alts| && AltMatchesAt(s, alts[k], i) && r.value == i + |alts[k].lit|
    ensures r.None? ==> forall k :: 0 <= k < |alts| ==> !AltMatchesAt(s, alts[k], i)
  {
    if alts == [] then None
    else if AltMatchesAt(s, alts[0], i) then Some(i + |alts[0].lit|)
    else
      var r := AltEnd(s, alts[1..], i);
      assert forall k :: 1 <= k < |alts| ==> alts[k] == alts[1..][k - 1];
      r
  }

  /** End of a JSON "matched" marker starting at `i`. The optional groups and the
      `\s*` runs are greedy, and giving any of them back can never let the rest
      match, so the first choice is the only one. */
  function MarkerEnd(s: string, i: nat): Option<nat> {
    if !OccursAt(s, "\"match", i) then None
    else
      var j1 := if OccursAt(s, "ed", i + 6) then i + 8 else i + 6;
      var j2 := if OccursAt(s, "_", j1) then j1 + 1 else j1;
      var j3 := if OccursAt(s, "indicator", j2) then j2 + 9 else j2;
      if !OccursAt(s, "\"", j3) then None
      else
        var j4 := SkipSpace(s, j3 + 1);
        if !OccursAt(s, ":", j4) then None
        else
          var j5 := SkipSpace(s, j4 + 1);
          if OccursAt(s, "true", j5) then Some(j5 + 4)
          else if OccursAt(s, "\"true\"", j5) then Some(j5 + 6)
          else if OccursAt(s, "1", j5) then Some(j5 + 1)
          else None
  }

  /** End of the match of `p` that starts at `i`, if there is one. */
  function MatchEnd(s: string, p: Pattern, i: nat): (r: Option<nat>)
    requires ValidPattern(p)
    ensures r.Some? ==> i < r.value <= |s|
  {
    match p
    case Alternatives(alts) =>
      var r := AltEnd(s, alts, i);
      assert r.Some? ==> i < r.value <= |s| by {
        if r.Some? {
          var k :| 0 <= k < |alts| && AltMatchesAt(s, alts[k], i) && r.value == i + |alts[k].lit|;
          assert alts[k] in alts;
        }
      }
      r
    case MatchedMarker => MarkerEnd(s, i)
  }

  /** `re.search(p, s)` succeeds. */
  predicate Search(s: string, p: Pattern)
    requires ValidPattern(p)
  {
    exists i | 0 <= i < |s| :: MatchEnd(s, p, i).Some?
  }

  /** Number of matches `re.findall` reports from index `i` on: matching resumes
      where the previous match ended, so the matches never overlap. */
  function CountFrom(s: string, p: Pattern, i: nat): nat
    requires ValidPattern(p)
    decreases |s| - i
  {
    if i >= |s| then 0
    else
      match MatchEnd(s, p, i)
      case Some(e) => 1 + CountFrom(s, p, e)
      case None => CountFrom(s, p, i + 1)
  }

  /** `len(re.findall(p, s))`. */
  function FindAllCount(s: string, p: Pattern): nat
    requires ValidPattern(p)
  {
    CountFrom(s, p, 0)
  }

  lemma {:induction false} CountFromPositive(s: string, p: Pattern, i: nat, j: nat)
    requires ValidPattern(p)
    requires i <= j < |s| && MatchEnd(s, p, j).Some?
    ensures CountFrom(s, p, i) > 0
    decreases j - i
  {
    if MatchEnd(s, p, i).None? {
      CountFromPositive(s, p, i + 1, j);
    }
  }

  lemma {:induction false} CountFromFindsMatch(s: string, p: Pattern, i: nat)
    requires ValidPattern(p)
    requires CountFrom(s, p, i) > 0
    ensures exists j | i <= j < |s| :: MatchEnd(s, p, j).Some?
    decreases |s| - i
  {
    if MatchEnd(s, p, i).None? {
      CountFromFindsMatch(s, p, i + 1);
    }
  }

  /** `re.search` succeeds exactly when `re.findall` finds something. */
  lemma SearchIffFindAll(s: string, p: Pattern)
    requires ValidPattern(p)
    ensures Search(s, p) <==> FindAllCount(s, p) > 0
  {
    if Search(s, p) {
      var j :| 0 <= j < |s| && MatchEnd(s, p, j).Some?;
      CountFromPositive(s, p, 0, j);
    }
    if FindAllCount(s, p) > 0 {
      CountFromFindsMatch(s, p, 0);
    }
  }

  /** Matches are non-empty and disjoint, so there are at most as many as the
      text remaining has characters. */
  lemma {:induction false} CountFromBound(s: string, p: Pattern, i: nat)
    requires ValidPattern(p)
    ensures i <= |s| ==> CountFrom(s, p, i) <= |s| - i
    ensures i > |s| ==> CountFrom(s, p, i) == 0
    decreases |s| - i
  {
    if i < |s| {
      match MatchEnd(s, p, i)
      case Some(e) => CountFromBound(s, p, e);
      case None => CountFromBound(s, p, i + 1);
    }
  }
}
