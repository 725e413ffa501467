/** Character classes and the small string toolkit the scanner's text handling
    relies on: Python's lowercasing, whitespace, `strip()`, `splitlines()`,
    `"sep".join(...)`, decimal conversion and the code-point order of `sorted`. */
module Text {

  datatype Option<T> = None | Some(value: T)

  /** Python's `str.isspace()`; the `\s` class of a `str` regular expression is
      the same set of characters. */
  predicate IsSpace(c: char) {
    c == ' ' || ('\U{9}' <= c <= '\U{D}') || ('\U{1C}' <= c <= '\U{1F}')
    || c == '\U{85}' || c == '\U{A0}' || c == '\U{1680}'
    || ('\U{2000}' <= c <= '\U{200A}') || c == '\U{2028}' || c == '\U{2029}'
    || c == '\U{202F}' || c == '\U{205F}' || c == '\U{3000}'
  }

  /** The characters at which `str.splitlines()` ends a line. */
  predicate IsLineBreak(c: char) {
    c == '\n' || c == '\r' || c == '\U{B}' || c == '\U{C}'
    || ('\U{1C}' <= c <= '\U{1E}') || c == '\U{85}' || c == '\U{2028}' || c == '\U{2029}'
  }

  predicate IsDigit(c: char) { '0' <= c <= '9' }

  /** The `\w` class, restricted to ASCII. */
  predicate IsWordChar(c: char) {
    ('a' <= c <= 'z') || ('A' <= c <= 'Z') || IsDigit(c) || c == '_'
  }

  function LowerChar(c: char): char {
    if 'A' <= c <= 'Z' then (c as int + 32) as char else c
  }

  /** `str.lower()` on ASCII letters; every other character is kept. */
  function Lower(s: string): string {
    seq(|s|, i requires 0 <= i < |s| => LowerChar(s[i]))
  }

  lemma LowerIdempotent(s: string)
    ensures Lower(Lower(s)) == Lower(s)
  {
  }

  /** `t` occurs in `s` starting at index `i`. */
  predicate OccursAt(s: string, t: string, i: int) {
    0 <= i && i + |t| <= |s| && s[i..i + |t|] == t
  }

  /** Python's `t in s`. */
  predicate Contains(s: string, t: string) {
    exists i | 0 <= i <= |s| - |t| :: OccursAt(s, t, i)
  }

  lemma ContainsMiddle(a: string, t: string, b: string)
    ensures Contains(a + t + b, t)
  {
    var s := a + t + b;
    assert s[|a|..|a| + |t|] == t;
    assert OccursAt(s, t, |a|);
  }

  lemma LowerConcat(a: string, b: string)
    ensures Lower(a + b) == Lower(a) + Lower(b)
  {
  }

  /** A lowercase word inside a text is found in the lowercased text. */
  lemma ContainsLowerMiddle(a: string, t: string, b: string)
    requires Lower(t) == t
    ensures Contains(Lower(a + t + b), t)
  {
    LowerConcat(a + t, b);
    LowerConcat(a, t);
    ContainsMiddle(Lower(a), t, Lower(b));
  }

  /** A lowercase letter is absent from the lowercased text when neither case of it
      occurs in the text. */
  lemma LowerLacks(s: string, c: char, upper: char)
    requires 'a' <= c <= 'z' && upper as int == c as int - 32
    requires c !in s && upper !in s
    ensures c !in Lower(s)
  {
  }

  /** A string cannot contain `t` when it lacks one of `t`'s characters. */
  lemma NotContainsChar(s: string, t: string, c: char)
    requires c in t && c !in s
    ensures !Contains(s, t)
  {
    var j :| 0 <= j < |t| && t[j] == c;
    forall i | 0 <= i <= |s| - |t| ensures !OccursAt(s, t, i) {
      assert s[i..i + |t|][j] == s[i + j];
    }
  }

  /** No occurrence of `t` starts inside `a` when `a` lacks `t`'s first character. */
  lemma NoOccurrenceIn(a: string, b: string, t: string)
    requires t != [] && t[0] !in a
    ensures forall q :: 0 <= q < |a| ==> !OccursAt(a + b, t, q)
  {
    forall q | 0 <= q < |a|
      ensures !OccursAt(a + b, t, q)
    {
      assert (a + b)[q] == a[q] && a[q] in a;
    }
  }

  /** In lowercased text, no occurrence of a word starting with a lowercase letter
      begins inside a stretch `m` that holds that letter in neither case. */
  lemma LowerNoOccurrenceBetween(a: string, m: string, b: string, t: string, upper: char)
    requires t != [] && 'a' <= t[0] <= 'z' && upper as int == t[0] as int - 32
    requires t[0] !in m && upper !in m
    ensures forall q :: |a| <= q < |a| + |m| ==> !OccursAt(Lower(a + m + b), t, q)
  {
    forall q | |a| <= q < |a| + |m|
      ensures !OccursAt(Lower(a + m + b), t, q)
    {
      assert (a + m + b)[q] == m[q - |a|] && m[q - |a|] in m;
    }
  }

  /** The first index at or after `i` that does not hold whitespace (or |s|):
      where a greedy `\s*` starting at `i` stops. */
  function SkipSpace(s: string, i: nat): (j: nat)
    requires i <= |s|
    ensures i <= j <= |s|
    ensures j < |s| ==> !IsSpace(s[j])
    decreases |s| - i
  {
    if i < |s| && IsSpace(s[i]) then SkipSpace(s, i + 1) else i
  }

  /** Where a greedy `\d+` or `\d*` starting at `i` stops. */
  function SkipDigits(s: string, i: nat): (j: nat)
    requires i <= |s|
    ensures i <= j <= |s|
    ensures j < |s| ==> !IsDigit(s[j])
    decreases |s| - i
  {
    if i < |s| && IsDigit(s[i]) then SkipDigits(s, i + 1) else i
  }

  /** Everything `SkipDigits` passes over is a digit. */
  lemma {:induction false} SkipDigitsSpan(s: string, i: nat)
    requires i <= |s|
    ensures forall k :: i <= k < SkipDigits(s, i) ==> IsDigit(s[k])
    decreases |s| - i
  {
    if i < |s| && IsDigit(s[i]) {
      SkipDigitsSpan(s, i + 1);
    }
  }

  /** Where a greedy `[A-Za-z0-9_]+` starting at `i` stops. */
  function SkipWord(s: string, i: nat): (j: nat)
    requires i <= |s|
    ensures i <= j <= |s|
    ensures forall k :: i <= k < j ==> IsWordChar(s[k])
    ensures j < |s| ==> !IsWordChar(s[j])
    decreases |s| - i
  {
    if i < |s| && IsWordChar(s[i]) then SkipWord(s, i + 1) else i
  }

  function TrimStart(s: string): string {
    if |s| > 0 && IsSpace(s[0]) then TrimStart(s[1..]) else s
  }

  function TrimEnd(s: string): string {
    if |s| > 0 && IsSpace(s[|s| - 1]) then TrimEnd(s[..|s| - 1]) else s
  }

  /** Python's `str.strip()` with no argument. */
  function Strip(s: string): string {
    TrimEnd(TrimStart(s))
  }

  lemma {:induction false} TrimStartShape(s: string)
    ensures |TrimStart(s)| <= |s| && TrimStart(s) == s[|s| - |TrimStart(s)|..]
    ensures forall k :: 0 <= k < |s| - |TrimStart(s)| ==> IsSpace(s[k])
    ensures TrimStart(s) != [] ==> !IsSpace(TrimStart(s)[0])
  {
    if |s| > 0 && IsSpace(s[0]) {
      TrimStartShape(s[1..]);
    }
  }

  lemma {:induction false} TrimEndShape(s: string)
    ensures |TrimEnd(s)| <= |s| && TrimEnd(s) == s[..|TrimEnd(s)|]
    ensures forall k :: |TrimEnd(s)| <= k < |s| ==> IsSpace(s[k])
    ensures TrimEnd(s) != [] ==> !IsSpace(TrimEnd(s)[|TrimEnd(s)| - 1])
  {
    if |s| > 0 && IsSpace(s[|s| - 1]) {
      TrimEndShape(s[..|s| - 1]);
    }
  }

  /** `strip()` removes exactly the whitespace at both ends: the result is empty
      precisely for all-whitespace input, and otherwise neither starts nor ends
      with whitespace. */
  lemma StripShape(s: string)
    ensures Strip(s) == [] <==> forall k :: 0 <= k < |s| ==> IsSpace(s[k])
    ensures Strip(s) != [] ==> !IsSpace(Strip(s)[0]) && !IsSpace(Strip(s)[|Strip(s)| - 1])
  {
    TrimStartShape(s);
    var t := TrimStart(s);
    TrimEndShape(t);
    if Strip(s) == [] {
      assert |t| == 0;
    } else {
      assert Strip(s)[0] == t[0];
    }
  }

  /** `t` is a slice of `s` from which only whitespace was cut at either end. */
  ghost predicate SpaceFramed(s: string, t: string) {
    exists i, j :: 0 <= i <= j <= |s| && t == s[i..j]
      && (forall k :: 0 <= k < i ==> IsSpace(s[k]))
      && (forall k :: j <= k < |s| ==> IsSpace(s[k]))
  }

  /** `strip()` keeps a contiguous run of its input and drops only whitespace
      around it; with `StripShape` this pins the result down. */
  lemma StripFrame(s: string)
    ensures SpaceFramed(s, Strip(s))
  {
    TrimStartShape(s);
    var t := TrimStart(s);
    TrimEndShape(t);
    var i := |s| - |t|;
    var j := i + |Strip(s)|;
    assert Strip(s) == s[i..j];
    forall k | j <= k < |s| ensures IsSpace(s[k]) {
      assert s[k] == t[k - i];
    }
  }

  lemma StripUnchanged(s: string)
    requires s != [] && !IsSpace(s[0]) && !IsSpace(s[|s| - 1])
    ensures Strip(s) == s
  {
  }

  /** A line holds no line break. */
  predicate Unbroken(l: string) {
    forall c :: c in l ==> !IsLineBreak(c)
  }

  /** Index of the first line break at or after `i`, or |s|. */
  function NextBreak(s: string, i: nat): (j: nat)
    requires i <= |s|
    ensures i <= j <= |s|
    ensures forall k :: i <= k < j ==> !IsLineBreak(s[k])
    ensures j < |s| ==> IsLineBreak(s[j])
    decreases |s| - i
  {
    if i < |s| && !IsLineBreak(s[i]) then NextBreak(s, i + 1) else i
  }

  /** Python's `str.splitlines()`: "\r\n" ends one line, and a break at the
      very end does not start an empty last line. */
  function SplitLines(s: string): seq<string>
    decreases |s|
  {
    if s == [] then []
    else
      var k := NextBreak(s, 0);
      if k == |s| then [s]
      else
        var next := if s[k] == '\r' && k + 1 < |s| && s[k + 1] == '\n' then k + 2 else k + 1;
        [s[..k]] + SplitLines(s[next..])
  }

  /** No line that `splitlines()` returns holds a break, and a non-empty text
      has at least one line. */
  lemma {:induction false} SplitLinesShape(s: string)
    ensures s != [] <==> |SplitLines(s)| > 0
    ensures forall l :: l in SplitLines(s) ==> Unbroken(l)
    decreases |s|
  {
    if s != [] {
      var k := NextBreak(s, 0);
      if k < |s| {
        var next := if s[k] == '\r' && k + 1 < |s| && s[k + 1] == '\n' then k + 2 else k + 1;
        SplitLinesShape(s[next..]);
      }
    }
  }

  lemma SplitLinesCons(a: string, b: string)
    requires Unbroken(a)
    ensures SplitLines(a + "\n" + b) == [a] + SplitLines(b)
  {
    var s := a + "\n" + b;
    assert NextBreak(s, 0) == |a| by {
      assert s[|a|] == '\n';
      forall k | 0 <= k < |a| ensures !IsLineBreak(s[k]) {
        assert s[k] == a[k] && a[k] in a;
      }
    }
    assert s[..|a|] == a;
    assert s[|a| + 1..] == b;
  }

  lemma SplitLinesLast(a: string)
    requires Unbroken(a)
    ensures SplitLines(a + "\n") == [a]
  {
    SplitLinesCons(a, "");
    assert a + "\n" + "" == a + "\n";
  }

  /** Every line followed by a newline: what writing the lines one per line gives. */
  function Terminated(lines: seq<string>): string {
    if lines == [] then "" else lines[0] + "\n" + Terminated(lines[1..])
  }

  /** `splitlines()` gives back lines that were written one per line. */
  lemma {:induction false} SplitLinesTerminated(lines: seq<string>)
    requires forall l :: l in lines ==> Unbroken(l)
    ensures SplitLines(Terminated(lines)) == lines
  {
    if lines != [] {
      assert forall l :: l in lines[1..] ==> l in lines;
      SplitLinesTerminated(lines[1..]);
      assert lines[0] in lines;
      SplitLinesCons(lines[0], Terminated(lines[1..]));
    }
  }

  /** Python's `sep.join(parts)`. */
  function Join(parts: seq<string>, sep: string): string {
    if parts == [] then ""
    else if |parts| == 1 then parts[0]
    else parts[0] + sep + Join(parts[1..], sep)
  }

  /** Joining with newlines and ending with one writes the lines one per line. */
  lemma {:induction false} JoinTerminated(lines: seq<string>)
    requires lines != []
    ensures Join(lines, "\n") + "\n" == Terminated(lines)
  {
    if |lines| > 1 {
      JoinTerminated(lines[1..]);
    } else {
      assert lines[1..] == [];
    }
  }

  /** A decimal numeral holds no line break. */
  lemma NatToStringUnbroken(n: nat)
    ensures Unbroken(NatToString(n))
  {
    NatToStringRoundTrip(n);
  }

  function DigitChar(d: nat): char
    requires d < 10
  {
    ('0' as int + d) as char
  }

  /** `str(n)` for a non-negative integer. */
  function NatToString(n: nat): string
    decreases n
  {
    if n < 10 then [DigitChar(n)] else NatToString(n / 10) + [DigitChar(n % 10)]
  }

  /** The value of one decimal digit (0 for any other character, which the
      parsers never hand over). */
  function DigitValue(c: char): nat {
    if IsDigit(c) then c as int - '0' as int else 0
  }

  /** `int(ds)` for a string of decimal digits (leading zeros allowed). */
  function DigitsValue(ds: string): nat {
    if ds == [] then 0 else DigitsValue(ds[..|ds| - 1]) * 10 + DigitValue(ds[|ds| - 1])
  }

  /** `str(n)` is a non-empty digit string that `int` reads back as `n`. */
  lemma {:induction false} NatToStringRoundTrip(n: nat)
    ensures |NatToString(n)| > 0
    ensures forall k :: 0 <= k < |NatToString(n)| ==> IsDigit(NatToString(n)[k])
    ensures DigitsValue(NatToString(n)) == n
    decreases n
  {
    if n >= 10 {
      NatToStringRoundTrip(n / 10);
      var s := NatToString(n);
      assert s[..|s| - 1] == NatToString(n / 10);
    }
  }

  /** Python's `<` on `str`: lexicographic order of code points. */
  predicate StrLt(a: string, b: string) {
    if a == [] then b != []
    else b != [] && (a[0] < b[0] || (a[0] == b[0] && StrLt(a[1..], b[1..])))
  }

  lemma {:induction false} StrLtIrreflexive(a: string)
    ensures !StrLt(a, a)
  {
    if a != [] {
      StrLtIrreflexive(a[1..]);
    }
  }

  lemma {:induction false} StrLtTransitive(a: string, b: string, c: string)
    requires StrLt(a, b) && StrLt(b, c)
    ensures StrLt(a, c)
  {
    if a != [] && a[0] == b[0] && b[0] == c[0] {
      StrLtTransitive(a[1..], b[1..], c[1..]);
    }
  }

  lemma {:induction false} StrLtTotal(a: string, b: string)
    requires a != b
    ensures StrLt(a, b) || StrLt(b, a)
  {
    if a != [] && b != [] && a[0] == b[0] {
      assert a[1..] != b[1..];
      StrLtTotal(a[1..], b[1..]);
    }
  }
}
