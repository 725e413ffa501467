/** The three text parsers of the scanner: the indicator count that one
    `mvt-android check-adb` run announces, the version in the help banner, and
    the module names of `check-adb --list-modules`. Each is a `re.search` whose
    leftmost match is taken; the patterns are case-insensitive, which on ASCII
    text is matching the lowercased text. */
module Parsers {
  import opened Text

  const DEFS_LEAD: string := "loaded a total of"
  const DEFS_TAIL: string := "unique indicators"
  const VERSION_LEAD: string := "version:"

  /** The digit run of a `Loaded a total of\s*(\d+)\s*unique indicators` match
      that starts at `i`. Every run is greedy, and giving back a character can
      never let the rest match, so the first choice is the only one. */
  function DefsMatchAt(s: string, i: nat): (r: Option<(nat, nat)>)
    ensures r.Some? ==> OccursAt(s, DEFS_LEAD, i)
    ensures r.Some? ==> i + |DEFS_LEAD| <= r.value.0 < r.value.1 <= |s|
  {
    if !OccursAt(s, DEFS_LEAD, i) then None
    else
      var j := SkipSpace(s, i + |DEFS_LEAD|);
      var k := SkipDigits(s, j);
      if j < k && OccursAt(s, DEFS_TAIL, SkipSpace(s, k)) then Some((j, k)) else None
  }

  /** The leftmost announcement at or after `i`: `re.search` tries the start
      positions in order. */
  function FirstDefs(s: string, i: nat): (r: Option<nat>)
    ensures r.Some? ==> i <= r.value <= |s| && DefsMatchAt(s, r.value).Some?
    ensures r.Some? ==> forall q :: i <= q < r.value ==> DefsMatchAt(s, q).None?
    ensures r.None? ==> forall q :: i <= q <= |s| ==> DefsMatchAt(s, q).None?
    decreases |s| + 1 - i
  {
    if i > |s| then None
    else if DefsMatchAt(s, i).Some? then Some(i)
    else FirstDefs(s, i + 1)
  }

  /** The count at the leftmost announcement in lowercased text, else 0. */
  function DefsIn(s: string): nat {
    match FirstDefs(s, 0)
    case None => 0
    case Some(p) =>
      var (j, k) := DefsMatchAt(s, p).value;
      DigitsValue(s[j..k])
  }

  /** `parse_indicator_defs`, which matches case-insensitively. */
  function ParseIndicatorDefs(stdout: string): nat {
    DefsIn(Lower(stdout))
  }

  /** Without an announcement the count is 0. */
  lemma DefsAbsent(stdout: string)
    requires forall q :: 0 <= q <= |stdout| ==> DefsMatchAt(Lower(stdout), q).None?
    ensures ParseIndicatorDefs(stdout) == 0
  {
  }

  /** The count is the number of the leftmost announcement. */
  lemma DefsLeftmost(s: string, p: nat, j: nat, k: nat)
    requires DefsMatchAt(s, p) == Some((j, k))
    requires forall q :: 0 <= q < p ==> DefsMatchAt(s, q).None?
    ensures DefsIn(s) == DigitsValue(s[j..k])
  {
    var r := FirstDefs(s, 0);
    assert p <= |s|;
    assert r == Some(p);
  }

  /** Lowercasing the announcement sentence touches only the surrounding text. */
  lemma LowerSentence(pre: string, d: string, post: string)
    requires forall k :: 0 <= k < |d| ==> IsDigit(d[k])
    ensures Lower(pre + "Loaded a total of " + d + " unique indicators" + post)
         == Lower(pre) + "loaded a total of " + d + " unique indicators" + Lower(post)
  {
    assert Lower("Loaded a total of ") == "loaded a total of ";
    assert Lower(" unique indicators") == " unique indicators";
    assert Lower(d) == d;
    LowerConcat(pre, "Loaded a total of ");
    LowerConcat(pre + "Loaded a total of ", d);
    LowerConcat(pre + "Loaded a total of " + d, " unique indicators");
    LowerConcat(pre + "Loaded a total of " + d + " unique indicators", post);
  }

  lemma DefsMatchIntro(s: string, i: nat, j: nat, k: nat)
    requires OccursAt(s, DEFS_LEAD, i) && SkipSpace(s, i + 17) == j && SkipDigits(s, j) == k
    requires j < k && OccursAt(s, DEFS_TAIL, SkipSpace(s, k))
    ensures DefsMatchAt(s, i) == Some((j, k))
  {
  }

  /** The announcement as it reads once lowercased, between `a` and `b`. */
  function Sentence(a: string, d: string, b: string): string {
    a + "loaded a total of " + d + " unique indicators" + b
  }

  lemma SentenceLead(a: string, d: string, b: string)
    ensures OccursAt(Sentence(a, d, b), DEFS_LEAD, |a|)
  {
    var s := Sentence(a, d, b);
    assert s[|a|..|a| + 17] == DEFS_LEAD;
  }

  lemma SentenceSpaces(a: string, d: string, b: string)
    requires |d| > 0 && forall k :: 0 <= k < |d| ==> IsDigit(d[k])
    ensures SkipSpace(Sentence(a, d, b), |a| + 17) == |a| + 18
    ensures SkipSpace(Sentence(a, d, b), |a| + 18 + |d|) == |a| + 19 + |d|
  {
    var s := Sentence(a, d, b);
    var p := |a|;
    assert s[p + 17] == ' ' && s[p + 18] == d[0];
    assert s[p + 18 + |d|] == ' ' && s[p + 19 + |d|] == 'u';
  }

  lemma SentenceDigits(a: string, d: string, b: string)
    requires |d| > 0 && forall k :: 0 <= k < |d| ==> IsDigit(d[k])
    ensures SkipDigits(Sentence(a, d, b), |a| + 18) == |a| + 18 + |d|
    ensures Sentence(a, d, b)[|a| + 18..|a| + 18 + |d|] == d
  {
    var x, y := a + "loaded a total of ", " unique indicators" + b;
    assert Sentence(a, d, b) == x + d + y;
    assert |x| == |a| + 18 && y[0] == ' ';
    MiddleDigits(x, d, y);
  }

  /** A run of digits between a prefix and a non-digit is skipped whole. */
  lemma MiddleDigits(x: string, d: string, y: string)
    requires |d| > 0 && forall k :: 0 <= k < |d| ==> IsDigit(d[k])
    requires y != [] && !IsDigit(y[0])
    ensures SkipDigits(x + d + y, |x|) == |x| + |d|
    ensures (x + d + y)[|x|..|x| + |d|] == d
  {
    var s := x + d + y;
    SkipDigitsSpan(s, |x|);
    assert forall m :: |x| <= m < |x| + |d| ==> s[m] == d[m - |x|];
    assert s[|x| + |d|] == y[0];
    assert s[|x|..|x| + |d|] == d;
  }

  lemma SentenceTail(a: string, d: string, b: string)
    ensures OccursAt(Sentence(a, d, b), DEFS_TAIL, |a| + 19 + |d|)
  {
    var s := Sentence(a, d, b);
    var p := |a|;
    assert s[p + 19 + |d|..p + 36 + |d|] == DEFS_TAIL;
  }

  /** An announcement starts at `p`, and its digit run is `n` long. */
  predicate DefsRunAt(s: string, p: nat, n: nat) {
    && OccursAt(s, DEFS_LEAD, p) && SkipSpace(s, p + 17) == p + 18
    && p + 18 + n <= |s| && SkipDigits(s, p + 18) == p + 18 + n && n > 0
    && SkipSpace(s, p + 18 + n) == p + 19 + n && OccursAt(s, DEFS_TAIL, p + 19 + n)
  }

  /** No announcement starts before `p`. */
  predicate NoDefsUpTo(s: string, p: nat) {
    forall q :: 0 <= q < p ==> DefsMatchAt(s, q).None?
  }

  /** An announcement at `p` with no match before it gives the count. */
  lemma LeftmostCount(s: string, p: nat, n: nat)
    requires DefsRunAt(s, p, n) && NoDefsUpTo(s, p)
    ensures p + 18 + n <= |s| && DefsIn(s) == DigitsValue(s[p + 18..p + 18 + n])
  {
    DefsMatchIntro(s, p, p + 18, p + 18 + n);
    DefsLeftmost(s, p, p + 18, p + 18 + n);
  }

  /** The sentence is an announcement at the end of `a`. */
  lemma SentenceShape(a: string, d: string, b: string)
    requires |d| > 0 && forall k :: 0 <= k < |d| ==> IsDigit(d[k])
    ensures DefsRunAt(Sentence(a, d, b), |a|, |d|)
  {
    SentenceLead(a, d, b);
    SentenceSpaces(a, d, b);
    SentenceDigits(a, d, b);
    SentenceTail(a, d, b);
  }

  /** No announcement starts inside a stretch without an `l`. */
  lemma NoDefsBefore(a: string, d: string, b: string)
    requires 'l' !in a
    ensures NoDefsUpTo(Sentence(a, d, b), |a|)
  {
    var rest := "loaded a total of " + d + " unique indicators" + b;
    NoOccurrenceIn(a, rest, DEFS_LEAD);
    assert a + rest == Sentence(a, d, b);
  }

  /** The sentence after a stretch without an `l` announces its number. */
  lemma {:induction false} SentenceNumber(a: string, d: string, b: string)
    requires 'l' !in a
    requires |d| > 0 && forall k :: 0 <= k < |d| ==> IsDigit(d[k])
    ensures DefsIn(Sentence(a, d, b)) == DigitsValue(d)
  {
    SentenceRun(a, d, b);
    SentenceDigits(a, d, b);
    SliceValue(Sentence(a, d, b), |a| + 18, |a| + 18 + |d|, d);
  }

  /** The sentence's count is the value of its digit run. */
  lemma {:induction false} SentenceRun(a: string, d: string, b: string)
    requires 'l' !in a
    requires |d| > 0 && forall k :: 0 <= k < |d| ==> IsDigit(d[k])
    ensures |a| + 18 + |d| <= |Sentence(a, d, b)|
    ensures DefsIn(Sentence(a, d, b)) == DigitsValue(Sentence(a, d, b)[|a| + 18..|a| + 18 + |d|])
  {
    SentenceShape(a, d, b);
    NoDefsBefore(a, d, b);
    LeftmostCount(Sentence(a, d, b), |a|, |d|);
  }

  /** Equal digit runs have equal values. */
  lemma SliceValue(s: string, j: nat, k: nat, d: string)
    requires j <= k <= |s| && s[j..k] == d
    ensures DigitsValue(s[j..k]) == DigitsValue(d)
  {
  }

  /** "Loaded a total of N unique indicators" after text without an `l` yields N,
      whatever follows. */
  lemma DefsOfSentence(pre: string, n: nat, post: string)
    requires 'l' !in pre && 'L' !in pre
    ensures ParseIndicatorDefs(pre + "Loaded a total of " + NatToString(n) + " unique indicators" + post) == n
  {
    NatToStringRoundTrip(n);
    LowerSentence(pre, NatToString(n), post);
    LowerLacks(pre, 'l', 'L');
    SentenceNumber(Lower(pre), NatToString(n), Lower(post));
  }

  /** The announcement is read even when the run then reports no matches. */
  lemma DefsBeforeNoMatches()
    ensures ParseIndicatorDefs("Loaded a total of " + "42" + " unique indicators" + "\nNo matches found.") == 42
  {
    assert NatToString(42) == "42" by {
      assert NatToString(4) == [DigitChar(4)];
    }
    DefsOfSentence("", 42, "\nNo matches found.");
    assert "" + "Loaded a total of " + "42" == "Loaded a total of " + "42";
  }

  /** Where a greedy `[0-9.]+` starting at `i` stops. */
  function SkipVersionChars(s: string, i: nat): (j: nat)
    requires i <= |s|
    ensures i <= j <= |s|
    ensures forall k :: i <= k < j ==> IsDigit(s[k]) || s[k] == '.'
    ensures j < |s| ==> !(IsDigit(s[j]) || s[j] == '.')
    decreases |s| - i
  {
    if i < |s| && (IsDigit(s[i]) || s[i] == '.') then SkipVersionChars(s, i + 1) else i
  }

  /** The span of the group of a `Version:\s*([0-9.]+)` match starting at `i`. */
  function VersionMatchAt(s: string, i: nat): (r: Option<(nat, nat)>)
    ensures r.Some? ==> OccursAt(s, VERSION_LEAD, i)
    ensures r.Some? ==> i + |VERSION_LEAD| <= r.value.0 < r.value.1 <= |s|
  {
    if !OccursAt(s, VERSION_LEAD, i) then None
    else
      var j := SkipSpace(s, i + |VERSION_LEAD|);
      var k := SkipVersionChars(s, j);
      if j < k then Some((j, k)) else None
  }

  function FirstVersion(s: string, i: nat): (r: Option<nat>)
    ensures r.Some? ==> i <= r.value <= |s| && VersionMatchAt(s, r.value).Some?
    ensures r.Some? ==> forall q :: i <= q < r.value ==> VersionMatchAt(s, q).None?
    ensures r.None? ==> forall q :: i <= q <= |s| ==> VersionMatchAt(s, q).None?
    decreases |s| + 1 - i
  {
    if i > |s| then None
    else if VersionMatchAt(s, i).Some? then Some(i)
    else FirstVersion(s, i + 1)
  }

  /** `parse_mvt_version`: the group of the leftmost match, taken from the text
      as printed. */
  function ParseMvtVersion(help: string): (r: Option<string>)
    ensures r.Some? ==> |r.value| > 0 && forall k :: 0 <= k < |r.value| ==> IsDigit(r.value[k]) || r.value[k] == '.'
    ensures r.Some? ==> exists p :: 0 <= p <= |help| && VersionMatchAt(Lower(help), p).Some?
    ensures r.None? ==> forall p :: 0 <= p <= |help| ==> VersionMatchAt(Lower(help), p).None?
  {
    var s := Lower(help);
    match FirstVersion(s, 0)
    case None => None
    case Some(p) =>
      var (j, k) := VersionMatchAt(s, p).value;
      assert forall m :: j <= m < k ==> help[m] == s[m] || LowerChar(help[m]) == s[m];
      Some(help[j..k])
  }

  predicate IsVersionChar(c: char) { IsDigit(c) || c == '.' }

  /** A version line as it reads once lowercased, between `a` and `b`. */
  function VersionLine(a: string, v: string, b: string): string {
    a + "version: " + v + b
  }

  lemma LowerVersionLine(pre: string, v: string, post: string)
    requires forall k :: 0 <= k < |v| ==> IsVersionChar(v[k])
    ensures Lower(pre + "Version: " + v + post) == VersionLine(Lower(pre), v, Lower(post))
  {
    assert Lower("Version: ") == "version: ";
    assert Lower(v) == v;
    LowerConcat(pre, "Version: ");
    LowerConcat(pre + "Version: ", v);
    LowerConcat(pre + "Version: " + v, post);
  }

  lemma VersionLineLead(a: string, v: string, b: string)
    ensures OccursAt(VersionLine(a, v, b), VERSION_LEAD, |a|)
  {
    var s := VersionLine(a, v, b);
    assert s[|a|..|a| + 8] == VERSION_LEAD;
  }

  lemma VersionLineSpace(a: string, v: string, b: string)
    requires |v| > 0 && IsVersionChar(v[0])
    ensures SkipSpace(VersionLine(a, v, b), |a| + 8) == |a| + 9
  {
    var s := VersionLine(a, v, b);
    assert s[|a| + 8] == ' ' && s[|a| + 9] == v[0];
  }

  /** The greedy run ends exactly at the first character outside the class. */
  lemma SkipVersionCharsAt(s: string, i: nat, j: nat)
    requires i <= j <= |s| && forall k :: i <= k < j ==> IsVersionChar(s[k])
    requires j == |s| || !IsVersionChar(s[j])
    ensures SkipVersionChars(s, i) == j
  {
  }

  lemma VersionLineChars(a: string, v: string, b: string)
    requires forall k :: 0 <= k < |v| ==> IsVersionChar(v[k])
    requires b == [] || !IsVersionChar(b[0])
    ensures SkipVersionChars(VersionLine(a, v, b), |a| + 9) == |a| + 9 + |v|
  {
    var s := VersionLine(a, v, b);
    var p := |a| + 9;
    forall k | p <= k < p + |v|
      ensures IsVersionChar(s[k])
    {
      assert s[k] == v[k - p];
    }
    if b != [] {
      assert s[p + |v|] == b[0];
    }
    SkipVersionCharsAt(s, p, p + |v|);
  }

  lemma VersionMatchIntro(s: string, i: nat, j: nat, k: nat)
    requires OccursAt(s, VERSION_LEAD, i) && SkipSpace(s, i + 8) == j && SkipVersionChars(s, j) == k
    requires j < k
    ensures VersionMatchAt(s, i) == Some((j, k))
  {
  }

  lemma VersionLineMatches(a: string, v: string, b: string)
    requires |v| > 0 && forall k :: 0 <= k < |v| ==> IsVersionChar(v[k])
    requires b == [] || !IsVersionChar(b[0])
    ensures VersionMatchAt(VersionLine(a, v, b), |a|) == Some((|a| + 9, |a| + 9 + |v|))
  {
    VersionLineLead(a, v, b);
    VersionLineSpace(a, v, b);
    VersionLineChars(a, v, b);
    VersionMatchIntro(VersionLine(a, v, b), |a|, |a| + 9, |a| + 9 + |v|);
  }

  /** The version is the group of the leftmost match, cut from the text as printed. */
  lemma VersionLeftmost(help: string, p: nat, j: nat, k: nat)
    requires VersionMatchAt(Lower(help), p) == Some((j, k))
    requires forall q :: 0 <= q < p ==> VersionMatchAt(Lower(help), q).None?
    ensures ParseMvtVersion(help) == Some(help[j..k])
  {
    var r := FirstVersion(Lower(help), 0);
    assert p <= |Lower(help)|;
    assert r == Some(p);
  }

  lemma VersionGroup(pre: string, v: string, post: string)
    ensures (pre + "Version: " + v + post)[|pre| + 9..|pre| + 9 + |v|] == v
  {
  }

  /** A "Version: v" line yields `v` when no match starts before it. */
  lemma VersionOfLine(pre: string, v: string, post: string)
    requires |v| > 0 && forall k :: 0 <= k < |v| ==> IsVersionChar(v[k])
    requires post == [] || !IsVersionChar(post[0])
    requires forall q :: 0 <= q < |pre| ==> VersionMatchAt(Lower(pre + "Version: " + v + post), q).None?
    ensures ParseMvtVersion(pre + "Version: " + v + post) == Some(v)
  {
    var help := pre + "Version: " + v + post;
    LowerVersionLine(pre, v, post);
    assert Lower(post) == [] || !IsVersionChar(Lower(post)[0]);
    VersionLineMatches(Lower(pre), v, Lower(post));
    VersionLeftmost(help, |pre|, |pre| + 9, |pre| + 9 + |v|);
    VersionGroup(pre, v, post);
  }

  /** The help banner of the self-test, up to its version line. */
  const SAMPLE_BANNER: string := "Mobile " + "V" + "erification Toolkit \U{2014} Android\n" + "Usage: ...\n"

  /** The only `v` before the version line starts "Verification", which is not
      "version:". */
  lemma SampleBannerNoMatch(rest: string)
    ensures forall q :: 0 <= q < |SAMPLE_BANNER| ==> !OccursAt(Lower(SAMPLE_BANNER + rest), VERSION_LEAD, q)
  {
    BannerHead(rest);
    BannerV(rest);
    BannerTail(rest);
  }

  lemma BannerHead(rest: string)
    ensures forall q :: 0 <= q < 7 ==> !OccursAt(Lower(SAMPLE_BANNER + rest), VERSION_LEAD, q)
  {
    var m := "erification Toolkit \U{2014} Android\n" + "Usage: ...\n";
    assert SAMPLE_BANNER + rest == "" + "Mobile " + ("V" + m + rest);
    LowerNoOccurrenceBetween("", "Mobile ", "V" + m + rest, VERSION_LEAD, 'V');
  }

  lemma BannerV(rest: string)
    ensures !OccursAt(Lower(SAMPLE_BANNER + rest), VERSION_LEAD, 7)
  {
    var help := SAMPLE_BANNER + rest;
    assert help[10] == 'i';
    assert Lower(help)[10] == 'i';
    assert Lower(help)[7..15][3] == 'i';
  }

  lemma BannerTail(rest: string)
    ensures forall q :: 8 <= q < |SAMPLE_BANNER| ==> !OccursAt(Lower(SAMPLE_BANNER + rest), VERSION_LEAD, q)
  {
    var p1, p2, p3 := "erification Toolkit", " \U{2014} Android\n", "Usage: ...\n";
    assert SAMPLE_BANNER + rest == "Mobile " + "V" + p1 + (p2 + p3 + rest);
    assert SAMPLE_BANNER + rest == "Mobile " + "V" + p1 + p2 + (p3 + rest);
    assert SAMPLE_BANNER + rest == "Mobile " + "V" + p1 + p2 + p3 + rest;
    BannerPieceLacksV(p1);
    BannerPieceLacksV(p2);
    BannerPieceLacksV(p3);
    LowerNoOccurrenceBetween("Mobile " + "V", p1, p2 + p3 + rest, VERSION_LEAD, 'V');
    LowerNoOccurrenceBetween("Mobile " + "V" + p1, p2, p3 + rest, VERSION_LEAD, 'V');
    LowerNoOccurrenceBetween("Mobile " + "V" + p1 + p2, p3, rest, VERSION_LEAD, 'V');
  }

  lemma BannerPieceLacksV(p: string)
    requires p in {"erification Toolkit", " \U{2014} Android\n", "Usage: ...\n"}
    ensures 'v' !in p && 'V' !in p
  {
  }

  /** The self-test's help banner reports version "2.7.1". */
  lemma VersionSample()
    ensures ParseMvtVersion(SAMPLE_BANNER + "Version: " + "2.7.1" + "\n...") == Some("2.7.1")
  {
    SampleBannerNoMatch("Version: " + "2.7.1" + "\n...");
    assert SAMPLE_BANNER + ("Version: " + "2.7.1" + "\n...") == SAMPLE_BANNER + "Version: " + "2.7.1" + "\n...";
    VersionOfLine(SAMPLE_BANNER, "2.7.1", "\n...");
  }

  /** The group of a `-\s+([A-Za-z0-9_]+)\s*$` match starting at `i` in a stripped
      line. Giving back part of either run can never let the rest match. */
  function ModuleMatchAt(l: string, i: nat): (r: Option<string>)
    ensures r.Some? ==> |r.value| > 0 && forall k :: 0 <= k < |r.value| ==> IsWordChar(r.value[k])
  {
    if !(i < |l| && l[i] == '-') then None
    else
      var j := SkipSpace(l, i + 1);
      var k := SkipWord(l, j);
      if i + 1 < j && j < k && SkipSpace(l, k) == |l| then
        assert forall m :: 0 <= m < k - j ==> l[j..k][m] == l[j + m];
        Some(l[j..k])
      else None
  }

  function FirstModuleMatch(l: string, i: nat): (r: Option<nat>)
    ensures r.Some? ==> i <= r.value <= |l| && ModuleMatchAt(l, r.value).Some?
    ensures r.Some? ==> forall q :: i <= q < r.value ==> ModuleMatchAt(l, q).None?
    ensures r.None? ==> forall q :: i <= q <= |l| ==> ModuleMatchAt(l, q).None?
    decreases |l| + 1 - i
  {
    if i > |l| then None
    else if ModuleMatchAt(l, i).Some? then Some(i)
    else FirstModuleMatch(l, i + 1)
  }

  /** The module-line parser of `mvt_list_modules`, on one line of the listing. */
  function ModuleName(line: string): (r: Option<string>)
    ensures r.Some? ==> |r.value| > 0 && forall k :: 0 <= k < |r.value| ==> IsWordChar(r.value[k])
  {
    var l := Strip(line);
    match FirstModuleMatch(l, 0)
    case None => None
    case Some(p) => ModuleMatchAt(l, p)
  }

  /** The names the listing announces, line by line and in order. */
  function ModuleNames(lines: seq<string>): seq<string> {
    if lines == [] then []
    else
      var rest := ModuleNames(lines[..|lines| - 1]);
      match ModuleName(lines[|lines| - 1])
      case Some(m) => rest + [m]
      case None => rest
  }

  /** Every announced name is a non-empty run of word characters. */
  lemma {:induction false} ModuleNamesAreWords(lines: seq<string>)
    ensures forall m :: m in ModuleNames(lines) ==> |m| > 0 && forall k :: 0 <= k < |m| ==> IsWordChar(m[k])
  {
    if lines != [] {
      ModuleNamesAreWords(lines[..|lines| - 1]);
    }
  }

  /** At most one name per line. */
  lemma {:induction false} ModuleNamesBound(lines: seq<string>)
    ensures |ModuleNames(lines)| <= |lines|
  {
    if lines != [] {
      ModuleNamesBound(lines[..|lines| - 1]);
    }
  }

  /** `ModuleNames` of a concatenation. */
  lemma {:induction false} ModuleNamesAppend(a: seq<string>, b: seq<string>)
    ensures ModuleNames(a + b) == ModuleNames(a) + ModuleNames(b)
    decreases |b|
  {
    if b == [] {
      assert a + b == a;
    } else {
      assert (a + b)[..|a + b| - 1] == a + b[..|b| - 1];
      ModuleNamesAppend(a, b[..|b| - 1]);
    }
  }

  /** `mvt_list_modules` given whether the tool was found and what
      `check-adb --list-modules` printed: the names, and the raw listing. */
  method ListModules(mvtPresent: bool, out: string) returns (mods: seq<string>, raw: string)
    ensures mods == (if mvtPresent then ModuleNames(SplitLines(out)) else [])
    ensures raw == (if mvtPresent then out else "")
  {
    if !mvtPresent {
      return [], "";
    }
    var lines := SplitLines(out);
    mods := [];
    var i := 0;
    while i < |lines|
      invariant 0 <= i <= |lines|
      invariant mods == ModuleNames(lines[..i])
    {
      assert lines[..i + 1][..i] == lines[..i];
      var m := ModuleName(lines[i]);
      if m.Some? {
        mods := mods + [m.value];
      }
      i := i + 1;
    }
    assert lines[..|lines|] == lines;
    raw := out;
  }

  /** A "- Name" line announces `Name`. */
  lemma ModuleNameOfItem(name: string)
    requires |name| > 0 && forall c :: c in name ==> IsWordChar(c)
    ensures ModuleName("- " + name) == Some(name)
  {
    var l := "- " + name;
    assert forall k :: 0 <= k < |name| ==> name[k] in name;
    assert l[|l| - 1] == name[|name| - 1];
    StripUnchanged(l);
    assert SkipSpace(l, 1) == 2 by {
      assert l[1] == ' ' && l[2] == name[0];
    }
    assert SkipWord(l, 2) == |l| by {
      forall k | 2 <= k < |l|
        ensures IsWordChar(l[k])
      {
        assert l[k] == name[k - 2];
      }
      SkipWordAt(l, 2, |l|);
    }
    assert l[2..|l|] == name;
    assert ModuleMatchAt(l, 0) == Some(name);
    assert FirstModuleMatch(l, 0) == Some(0);
  }

  lemma SkipWordAt(s: string, i: nat, j: nat)
    requires i <= j <= |s| && forall k :: i <= k < j ==> IsWordChar(s[k])
    requires j == |s| || !IsWordChar(s[j])
    ensures SkipWord(s, i) == j
  {
  }

  /** One name announced by a line of its own. */
  lemma ModuleNamesOne(name: string)
    requires |name| > 0 && forall c :: c in name ==> IsWordChar(c)
    ensures ModuleNames(["- " + name]) == [name]
  {
    ModuleNameOfItem(name);
    assert ["- " + name][..0] == [];
  }

  lemma TerminatedFour(a: string, b: string, c: string, d: string)
    ensures Terminated([a, b, c, d]) == a + "\n" + b + "\n" + c + "\n" + d + "\n"
  {
    assert [d][1..] == [];
    assert Terminated([d]) == d + "\n";
    assert [c, d][1..] == [d];
    assert Terminated([c, d]) == c + "\n" + d + "\n";
    assert [b, c, d][1..] == [c, d];
    assert Terminated([b, c, d]) == b + "\n" + c + "\n" + d + "\n";
    assert [a, b, c, d][1..] == [b, c, d];
  }

  /** Four "- Name" lines announce their four names in order. */
  lemma ModuleNamesFour(n1: string, n2: string, n3: string, n4: string)
    requires |n1| > 0 && forall c :: c in n1 ==> IsWordChar(c)
    requires |n2| > 0 && forall c :: c in n2 ==> IsWordChar(c)
    requires |n3| > 0 && forall c :: c in n3 ==> IsWordChar(c)
    requires |n4| > 0 && forall c :: c in n4 ==> IsWordChar(c)
    ensures ModuleNames(["- " + n1, "- " + n2, "- " + n3, "- " + n4]) == [n1, n2, n3, n4]
  {
    ModuleNamesOne(n1);
    ModuleNamesOne(n2);
    ModuleNamesOne(n3);
    ModuleNamesOne(n4);
    ModuleNamesAppend(["- " + n1], ["- " + n2]);
    assert ["- " + n1] + ["- " + n2] == ["- " + n1, "- " + n2];
    ModuleNamesAppend(["- " + n1, "- " + n2], ["- " + n3]);
    assert ["- " + n1, "- " + n2] + ["- " + n3] == ["- " + n1, "- " + n2, "- " + n3];
    ModuleNamesAppend(["- " + n1, "- " + n2, "- " + n3], ["- " + n4]);
    assert ["- " + n1, "- " + n2, "- " + n3] + ["- " + n4] == ["- " + n1, "- " + n2, "- " + n3, "- " + n4];
  }

  /** A "- Name" line with a word name is a single line. */
  lemma ItemUnbroken(name: string)
    requires forall c :: c in name ==> IsWordChar(c)
    ensures Unbroken("- " + name)
  {
  }

  /** A listing of four "- Name" lines announces the four names in order. */
  lemma ModuleListOfFour(n1: string, n2: string, n3: string, n4: string)
    requires |n1| > 0 && forall c :: c in n1 ==> IsWordChar(c)
    requires |n2| > 0 && forall c :: c in n2 ==> IsWordChar(c)
    requires |n3| > 0 && forall c :: c in n3 ==> IsWordChar(c)
    requires |n4| > 0 && forall c :: c in n4 ==> IsWordChar(c)
    ensures ModuleNames(SplitLines(Terminated(["- " + n1, "- " + n2, "- " + n3, "- " + n4]))) == [n1, n2, n3, n4]
  {
    var lines := ["- " + n1, "- " + n2, "- " + n3, "- " + n4];
    ItemUnbroken(n1);
    ItemUnbroken(n2);
    ItemUnbroken(n3);
    ItemUnbroken(n4);
    SplitLinesTerminated(lines);
    ModuleNamesFour(n1, n2, n3, n4);
  }

  lemma SampleListingLines(out: string)
    requires out == "- ChromeHistory\n" + "- Dumpsys\n" + "- Packages\n" + "- Processes\n"
    ensures out == Terminated(["- " + "ChromeHistory", "- " + "Dumpsys", "- " + "Packages", "- " + "Processes"])
  {
    var n1, n2, n3, n4 := "ChromeHistory", "Dumpsys", "Packages", "Processes";
    TerminatedFour("- " + n1, "- " + n2, "- " + n3, "- " + n4);
  }

  lemma SampleListingWords()
    ensures forall c :: c in "ChromeHistory" ==> IsWordChar(c)
    ensures forall c :: c in "Dumpsys" ==> IsWordChar(c)
    ensures forall c :: c in "Packages" ==> IsWordChar(c)
    ensures forall c :: c in "Processes" ==> IsWordChar(c)
  {
  }

  /** The self-test's listing yields its four module names in order. */
  lemma ModuleListSample(out: string)
    requires out == "- ChromeHistory\n" + "- Dumpsys\n" + "- Packages\n" + "- Processes\n"
    ensures ModuleNames(SplitLines(out)) == ["ChromeHistory", "Dumpsys", "Packages", "Processes"]
  {
    SampleListingLines(out);
    SampleListingWords();
    ModuleListOfFour("ChromeHistory", "Dumpsys", "Packages", "Processes");
  }
}
