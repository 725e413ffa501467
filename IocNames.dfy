/** Display names of the installed indicator sets, as the header shows them:
    a file name is mapped to the name of the first known campaign whose key it
    contains, and the header keeps the first few distinct names. */
module IocNames {
  import opened Text

  /** `KNOWN_NAME_MAP` in insertion order, which is the order the lookup tries. */
  const KNOWN_NAMES: seq<(string, string)> := [
    ("pegasus", "NSO Group Pegasus"),
    ("predator", "Intellexa Predator"),
    ("rcs", "RCS Lab RCS"),
    ("stalkerware", "Stalkerware (generic)"),
    ("2023-03-29_android_campaign_malware", "Mercenary spyware campaign " + "(Amnesty 2023-03-29)"),
    ("quadream", "Quadream KingSpawn"),
    ("triangulation", "Operation Triangulation"),
    ("wyrmspy", "WyrmSpy"),
    ("dragonegg", "DragonEgg"),
    ("wintego", "Wintego Helios"),
    ("novispy", "NoviSpy (Serbia)"),
    ("candiru", "Candiru (DevilsTongue)"),
    ("devilstongue", "Candiru (DevilsTongue)"),
    ("helios", "Wintego Helios"),
    ("finspy", "FinFisher FinSpy"),
    ("xloader", "XLoader"),
    ("hermit", "RCS Lab Hermit"),
    ("kingo", "Kingo Root (abuse)")
  ]

  /** The names the header shows when no indicator set is installed. */
  const FALLBACK_NAMES: seq<string> := [
    "Intellexa Predator", "NoviSpy (Serbia)", "NSO Group Pegasus",
    "Quadream KingSpawn", "Wintego Helios", "WyrmSpy",
    "Candiru (DevilsTongue)", "RCS Lab RCS"
  ]

  const DEFAULT_MAX_ITEMS: int := 8

  /** `name.rfind('.')`. */
  function LastDot(name: string): (r: Option<nat>)
    ensures r.Some? ==> r.value < |name| && name[r.value] == '.'
    ensures r.Some? ==> forall k :: r.value < k < |name| ==> name[k] != '.'
    ensures r.None? ==> forall k :: 0 <= k < |name| ==> name[k] != '.'
  {
    if name == [] then None
    else if name[|name| - 1] == '.' then Some(|name| - 1)
    else LastDot(name[..|name| - 1])
  }

  /** The dot that separates `Path.suffix` from `Path.stem`: the last one, unless
      it leads the name or ends it. */
  predicate HasSuffixDot(name: string) {
    var d := LastDot(name);
    d.Some? && 0 < d.value < |name| - 1
  }

  /** `Path(name).stem`. */
  function Stem(name: string): string {
    if HasSuffixDot(name) then name[..LastDot(name).value] else name
  }

  /** `Path(name).suffix`. */
  function Suffix(name: string): string {
    if HasSuffixDot(name) then name[LastDot(name).value..] else ""
  }

  /** `Path(path).name`: the characters after the last '/'. */
  function BaseName(path: string): string {
    if path == [] || path[|path| - 1] == '/' then []
    else BaseName(path[..|path| - 1]) + [path[|path| - 1]]
  }

  /** The name is the tail of the path that holds no '/', and a '/' precedes it
      unless it is the whole path. */
  lemma {:induction false} BaseNameShape(path: string)
    ensures |BaseName(path)| <= |path| && BaseName(path) == path[|path| - |BaseName(path)|..]
    ensures '/' !in BaseName(path)
    ensures |BaseName(path)| < |path| ==> path[|path| - |BaseName(path)| - 1] == '/'
    decreases |path|
  {
    if path != [] && path[|path| - 1] != '/' {
      var init := path[..|path| - 1];
      BaseNameShape(init);
      assert path == init + [path[|path| - 1]];
    }
  }

  /** The name of a file in a directory is the file's own name. */
  lemma {:induction false} BaseNameInDir(dir: string, name: string)
    requires '/' !in name
    ensures BaseName(dir + "/" + name) == name
    decreases |name|
  {
    var path := dir + "/" + name;
    if name == [] {
      assert path[|path| - 1] == '/';
    } else {
      var init := name[..|name| - 1];
      assert path[..|path| - 1] == dir + "/" + init;
      assert path[|path| - 1] == name[|name| - 1];
      BaseNameInDir(dir, init);
      assert init + [name[|name| - 1]] == name;
    }
  }

  /** The stem and the suffix split the name; a suffix is a dot followed by at
      least one character, none of them a dot. */
  lemma StemSuffixSplit(name: string)
    ensures Stem(name) + Suffix(name) == name
    ensures Suffix(name) != "" ==> |Suffix(name)| >= 2 && Suffix(name)[0] == '.'
    ensures Suffix(name) != "" ==> forall k :: 1 <= k < |Suffix(name)| ==> Suffix(name)[k] != '.'
    ensures Suffix(name) != "" ==> |Stem(name)| > 0
  {
    if HasSuffixDot(name) {
      var i := LastDot(name).value;
      assert name[..i] + name[i..] == name;
    }
  }

  /** `s.replace("_", " ")`. */
  function UnderscoresToSpaces(s: string): (r: string)
    ensures |r| == |s|
    ensures forall k :: 0 <= k < |s| ==> r[k] == (if s[k] == '_' then ' ' else s[k])
  {
    seq(|s|, i requires 0 <= i < |s| => if s[i] == '_' then ' ' else s[i])
  }

  /** Index of the first entry at or after `i` whose key occurs in `low`. */
  function FirstKnown(low: string, entries: seq<(string, string)>, i: nat): (r: Option<nat>)
    ensures r.Some? ==> i <= r.value < |entries| && Contains(low, entries[r.value].0)
    ensures r.Some? ==> forall k :: i <= k < r.value ==> !Contains(low, entries[k].0)
    ensures r.None? ==> forall k :: i <= k < |entries| ==> !Contains(low, entries[k].0)
    decreases |entries| - i
  {
    if i >= |entries| then None
    else if Contains(low, entries[i].0) then Some(i)
    else FirstKnown(low, entries, i + 1)
  }

  /** `friendly_ioc_name` of a file called `name`. */
  function FriendlyIocName(name: string): string {
    match FirstKnown(Lower(name), KNOWN_NAMES, 0)
    case Some(k) => KNOWN_NAMES[k].1
    case None => Strip(UnderscoresToSpaces(Stem(name)))
  }

  /** A name holding a known key gets the campaign of the first such key in map
      order; any other name gets its stem, underscores turned to spaces and
      whitespace stripped from both ends. */
  lemma FriendlyIocNameCases(name: string)
    ensures (exists k :: 0 <= k < |KNOWN_NAMES| && Contains(Lower(name), KNOWN_NAMES[k].0)) ==>
      exists k :: 0 <= k < |KNOWN_NAMES| && Contains(Lower(name), KNOWN_NAMES[k].0)
        && (forall j :: 0 <= j < k ==> !Contains(Lower(name), KNOWN_NAMES[j].0))
        && FriendlyIocName(name) == KNOWN_NAMES[k].1
    ensures (forall k :: 0 <= k < |KNOWN_NAMES| ==> !Contains(Lower(name), KNOWN_NAMES[k].0)) ==>
      && '_' !in FriendlyIocName(name)
      && (FriendlyIocName(name) == [] || !IsSpace(FriendlyIocName(name)[0]))
      && (FriendlyIocName(name) == [] || !IsSpace(FriendlyIocName(name)[|FriendlyIocName(name)| - 1]))
      && SpaceFramed(UnderscoresToSpaces(Stem(name)), FriendlyIocName(name))
  {
    var r := FirstKnown(Lower(name), KNOWN_NAMES, 0);
    if r.None? {
      var u := UnderscoresToSpaces(Stem(name));
      StripShape(u);
      StripKeeps(u);
      StripFrame(u);
      assert '_' !in u;
    }
  }

  /** Every character `strip()` keeps comes from its input. */
  lemma StripKeeps(s: string)
    ensures forall c :: c in Strip(s) ==> c in s
  {
    TrimStartShape(s);
    var t := TrimStart(s);
    TrimEndShape(t);
    forall c | c in Strip(s) ensures c in s {
      var k :| 0 <= k < |Strip(s)| && Strip(s)[k] == c;
      assert t[k] == c;
      assert s[|s| - |t| + k] == c;
    }
  }

  /** A "pegasus" set file is shown as NSO Group Pegasus. */
  lemma FriendlyPegasus(name: string)
    requires name == "pegasus.stix2"
    ensures FriendlyIocName(name) == "NSO Group Pegasus"
  {
    assert Lower(name) == name;
    assert OccursAt(name, "pegasus", 0);
  }

  /** Names in first-occurrence order, each kept once. */
  function Dedup(xs: seq<string>): seq<string> {
    if xs == [] then []
    else
      var d := Dedup(xs[..|xs| - 1]);
      if xs[|xs| - 1] in d then d else d + [xs[|xs| - 1]]
  }

  predicate NoDuplicates(xs: seq<string>) {
    forall i, j :: 0 <= i < j < |xs| ==> xs[i] != xs[j]
  }

  /** `Dedup` keeps exactly the names of its input, each once, and a name that
      occurs earlier comes first. */
  lemma {:induction false} DedupShape(xs: seq<string>)
    ensures NoDuplicates(Dedup(xs))
    ensures forall x :: x in Dedup(xs) <==> x in xs
    ensures |Dedup(xs)| <= |xs|
  {
    if xs != [] {
      var init := xs[..|xs| - 1];
      DedupShape(init);
      assert xs == init + [xs[|xs| - 1]];
    }
  }

  /** Deduplicating a longer prefix only appends. */
  lemma {:induction false} DedupPrefix(xs: seq<string>, i: nat, j: nat)
    requires i <= j <= |xs|
    ensures |Dedup(xs[..i])| <= |Dedup(xs[..j])|
    ensures Dedup(xs[..i]) == Dedup(xs[..j])[..|Dedup(xs[..i])|]
    decreases j - i
  {
    if i < j {
      DedupPrefix(xs, i, j - 1);
      assert xs[..j][..j - 1] == xs[..j - 1];
    }
  }

  /** Index of the first occurrence of `x` in `xs`. */
  function FirstIndex(xs: seq<string>, x: string): (r: nat)
    requires x in xs
    ensures r < |xs| && xs[r] == x && forall k :: 0 <= k < r ==> xs[k] != x
  {
    if xs[0] == x then 0 else 1 + FirstIndex(xs[1..], x)
  }

  /** `Dedup` lists the names in the order of their first occurrences. */
  lemma {:induction false} DedupOrder(xs: seq<string>, i: nat, j: nat)
    requires i < j < |Dedup(xs)|
    ensures Dedup(xs)[i] in xs && Dedup(xs)[j] in xs
    ensures FirstIndex(xs, Dedup(xs)[i]) < FirstIndex(xs, Dedup(xs)[j])
  {
    DedupShape(xs);
    var d := Dedup(xs);
    assert d[i] in d && d[j] in d;
    var init := xs[..|xs| - 1];
    var last := xs[|xs| - 1];
    DedupShape(init);
    FirstIndexPrefix(xs, init, d[i]);
    if j < |Dedup(init)| {
      assert d[..|Dedup(init)|] == Dedup(init);
      assert Dedup(init)[i] == d[i] && Dedup(init)[j] == d[j];
      DedupOrder(init, i, j);
      FirstIndexPrefix(xs, init, d[j]);
    } else {
      assert d == Dedup(init) + [last] && d[j] == last && last !in Dedup(init);
      assert d[i] == Dedup(init)[i] && d[i] in Dedup(init);
      assert forall k :: 0 <= k < |init| ==> init[k] != last by {
        forall k | 0 <= k < |init| ensures init[k] != last {
          assert init[k] in init;
        }
      }
      assert forall k :: 0 <= k < |init| ==> xs[k] != last;
      assert FirstIndex(xs, last) == |xs| - 1;
    }
  }

  lemma FirstIndexPrefix(xs: seq<string>, init: seq<string>, x: string)
    requires xs != [] && init == xs[..|xs| - 1] && x in init
    ensures x in xs && FirstIndex(xs, x) == FirstIndex(init, x)
  {
    var k := FirstIndex(init, x);
    assert xs[k] == x;
    var r := FirstIndex(xs, x);
    assert r <= k;
    assert init[r] == xs[r];
  }

  /** Python's `s[:n]`, where a negative `n` counts from the end. */
  function SliceTo(s: seq<string>, n: int): (r: seq<string>)
    ensures |r| <= |s| && r == s[..|r|]
    ensures n >= 0 ==> |r| == if n < |s| then n else |s|
    ensures n < 0 ==> |r| == if |s| + n > 0 then |s| + n else 0
  {
    if n >= 0 then (if n < |s| then s[..n] else s)
    else if |s| + n > 0 then s[..|s| + n] else []
  }

  /** What `header_known_sets` keeps from the names before its final slice: the
      first `max(1, maxItems)` distinct names, or nothing without names. */
  function KeptNames(names: seq<string>, maxItems: int): seq<string> {
    var d := Dedup(names);
    var cap := if maxItems < 1 then 1 else maxItems;
    if cap < |d| then d[..cap] else d
  }

  function FriendlyNames(fileNames: seq<string>): (r: seq<string>)
    ensures |r| == |fileNames|
    ensures forall i :: 0 <= i < |fileNames| ==> r[i] == FriendlyIocName(fileNames[i])
  {
    seq(|fileNames|, i requires 0 <= i < |fileNames| => FriendlyIocName(fileNames[i]))
  }

  /** `header_known_sets` on the installed files' names. */
  function HeaderNames(fileNames: seq<string>, maxItems: int): seq<string> {
    var kept := KeptNames(FriendlyNames(fileNames), maxItems);
    SliceTo(if kept == [] then FALLBACK_NAMES else kept, maxItems)
  }

  /** `header_known_sets`: the friendly names of the installed files, once each in
      order of first appearance, stopping as soon as `maxItems` are kept, with the
      fixed list when there are none, cut to `maxItems`. */
  method HeaderKnownSets(fileNames: seq<string>, maxItems: int) returns (out: seq<string>)
    ensures out == HeaderNames(fileNames, maxItems)
  {
    var names := FriendlyNames(fileNames);
    var seen: set<string> := {};
    out := [];
    ghost var cut := false;
    var i := 0;
    while i < |names|
      invariant 0 <= i <= |names|
      invariant out == Dedup(names[..i])
      invariant forall x :: x in seen <==> x in out
      invariant i > 0 ==> |out| < maxItems
    {
      var n := names[i];
      ghost var prev := out;
      DedupStep(names, i);
      if n !in seen {
        out := out + [n];
        seen := seen + {n};
      }
      if |out| >= maxItems {
        KeptAtCut(names, maxItems, i, prev, out);
        cut := true;
        break;
      }
      i := i + 1;
    }
    if !cut {
      KeptAtEnd(names, maxItems, out);
    }
    if out == [] {
      out := FALLBACK_NAMES;
    }
    out := SliceTo(out, maxItems);
  }

  /** One more name extends `Dedup` by that name exactly when it is new. */
  lemma DedupStep(xs: seq<string>, i: nat)
    requires i < |xs|
    ensures Dedup(xs[..i + 1]) == if xs[i] in Dedup(xs[..i]) then Dedup(xs[..i]) else Dedup(xs[..i]) + [xs[i]]
  {
    assert xs[..i + 1][..i] == xs[..i];
  }

  /** When the loop of `HeaderKnownSets` breaks, it has kept `KeptNames`. */
  lemma KeptAtCut(names: seq<string>, maxItems: int, i: nat, prev: seq<string>, out: seq<string>)
    requires i < |names| && prev == Dedup(names[..i]) && out == Dedup(names[..i + 1])
    requires i > 0 ==> |prev| < maxItems
    requires |out| >= maxItems
    ensures out == KeptNames(names, maxItems)
  {
    DedupStep(names, i);
    if i == 0 {
      assert names[..0] == [];
    }
    DedupPrefix(names, i + 1, |names|);
    assert names[..|names|] == names;
  }

  /** When the loop of `HeaderKnownSets` runs out of names, it has kept `KeptNames`. */
  lemma KeptAtEnd(names: seq<string>, maxItems: int, out: seq<string>)
    requires out == Dedup(names[..|names|])
    requires names != [] ==> |out| < maxItems
    ensures out == KeptNames(names, maxItems)
  {
    assert names[..|names|] == names;
    DedupShape(names);
  }

  /** The header lists no name twice and at most `maxItems` names. */
  lemma HeaderNamesDistinct(fileNames: seq<string>, maxItems: int)
    ensures NoDuplicates(HeaderNames(fileNames, maxItems))
    ensures maxItems >= 0 ==> |HeaderNames(fileNames, maxItems)| <= maxItems
  {
    var r := HeaderNames(fileNames, maxItems);
    if fileNames == [] {
      HeaderNamesFallback(fileNames, maxItems);
      FallbackDistinct();
      PrefixNoDuplicates(FALLBACK_NAMES, |r|);
    } else {
      HeaderNamesFromFiles(fileNames, maxItems);
      var d := Dedup(FriendlyNames(fileNames));
      DedupShape(FriendlyNames(fileNames));
      PrefixNoDuplicates(d, |r|);
    }
  }

  /** Without files, the header is a prefix of the fixed list. */
  lemma HeaderNamesFallback(fileNames: seq<string>, maxItems: int)
    requires fileNames == []
    ensures HeaderNames(fileNames, maxItems) == SliceTo(FALLBACK_NAMES, maxItems)
  {
    assert Dedup(FriendlyNames(fileNames)) == [];
  }

  /** With files, the header lists the first distinct friendly names in order of
      first appearance, as many as `maxItems` allows (none for a cap below 1),
      each the name of some file. */
  lemma HeaderNamesFromFiles(fileNames: seq<string>, maxItems: int)
    requires fileNames != []
    ensures var d := Dedup(FriendlyNames(fileNames));
      |HeaderNames(fileNames, maxItems)| <= |d| && HeaderNames(fileNames, maxItems) == d[..|HeaderNames(fileNames, maxItems)|]
    ensures var d := Dedup(FriendlyNames(fileNames));
      |HeaderNames(fileNames, maxItems)| == if maxItems < 1 then 0 else if maxItems < |d| then maxItems else |d|
    ensures forall x :: x in HeaderNames(fileNames, maxItems) ==>
      exists i :: 0 <= i < |fileNames| && FriendlyIocName(fileNames[i]) == x
  {
    var names := FriendlyNames(fileNames);
    DedupShape(names);
    var d := Dedup(names);
    var r := HeaderNames(fileNames, maxItems);
    assert names[0] in names;
    var kept := KeptNames(names, maxItems);
    assert kept != [];
    assert kept == d[..|kept|];
    assert r == kept[..|r|];
    assert r == d[..|r|];
    forall x | x in r ensures exists i :: 0 <= i < |fileNames| && FriendlyIocName(fileNames[i]) == x {
      assert x in d;
      var i :| 0 <= i < |names| && names[i] == x;
    }
  }

  lemma FallbackDistinct()
    ensures NoDuplicates(FALLBACK_NAMES)
  {
  }

  lemma PrefixNoDuplicates(xs: seq<string>, k: nat)
    requires NoDuplicates(xs) && k <= |xs|
    ensures NoDuplicates(xs[..k])
  {
  }

  /** With no indicator set installed, the default header shows the whole fixed list. */
  lemma HeaderWithoutFiles()
    ensures HeaderNames([], DEFAULT_MAX_ITEMS) == FALLBACK_NAMES
  {
  }
}
