/** The run summary: the per-module outcomes, their hit counts summed by type,
    and the text of `summary.txt` line by line. */
module Report {
  import opened Text
  import opened Classifier

  /** `ModuleOutcome`: one module's (or the whole run's) result. */
  datatype ModuleOutcome = ModuleOutcome(
    name: string, status: Status, reason: string, defs: nat, hitsTotal: nat, hitTypes: map<string, nat>)

  /** `d.get(k, 0)`. */
  function Get(m: map<string, nat>, k: string): nat {
    if k in m then m[k] else 0
  }

  /** Entrywise sum of two count maps. */
  function AddCounts(a: map<string, nat>, b: map<string, nat>): map<string, nat> {
    map k | k in a.Keys + b.Keys :: Get(a, k) + Get(b, k)
  }

  /** `by_type` after the outcomes `outcomes`. */
  function ByType(outcomes: seq<ModuleOutcome>): map<string, nat> {
    if outcomes == [] then map[]
    else AddCounts(ByType(outcomes[..|outcomes| - 1]), outcomes[|outcomes| - 1].hitTypes)
  }

  /** Sum over the outcomes of their counts for one type. */
  function TypeTotal(outcomes: seq<ModuleOutcome>, k: string): nat {
    if outcomes == [] then 0
    else TypeTotal(outcomes[..|outcomes| - 1], k) + Get(outcomes[|outcomes| - 1].hitTypes, k)
  }

  /** `by_type` is the entrywise sum of the outcomes' `hit_types`: it has a key
      exactly when some outcome has it, with the sum of their counts. */
  lemma {:induction false} ByTypeIsSum(outcomes: seq<ModuleOutcome>, k: string)
    ensures Get(ByType(outcomes), k) == TypeTotal(outcomes, k)
    ensures k in ByType(outcomes) <==> exists i :: 0 <= i < |outcomes| && k in outcomes[i].hitTypes
  {
    if outcomes != [] {
      var init := outcomes[..|outcomes| - 1];
      ByTypeIsSum(init, k);
      if exists i :: 0 <= i < |init| && k in init[i].hitTypes {
        var i :| 0 <= i < |init| && k in init[i].hitTypes;
        assert outcomes[i] == init[i];
      }
      if exists i :: 0 <= i < |outcomes| && k in outcomes[i].hitTypes {
        var i :| 0 <= i < |outcomes| && k in outcomes[i].hitTypes;
        if i < |init| {
          assert init[i] == outcomes[i];
        }
      }
    }
  }

  // ---------------------------------------------------------------------------
  // `sorted` on distinct strings.

  predicate StrictlySorted(s: seq<string>) {
    forall i, j :: 0 <= i < j < |s| ==> StrLt(s[i], s[j])
  }

  predicate IsMinimum(m: string, ks: set<string>) {
    m in ks && forall k :: k in ks && k != m ==> StrLt(m, k)
  }

  lemma {:induction false} MinimumExists(ks: set<string>)
    requires ks != {}
    ensures exists m :: IsMinimum(m, ks)
    decreases |ks|
  {
    var x :| x in ks;
    if ks != {x} {
      var rest := ks - {x};
      MinimumExists(rest);
      var m :| IsMinimum(m, rest);
      if StrLt(m, x) {
        forall k | k in ks && k != m ensures StrLt(m, k) {
          if k == x {
          }
        }
        assert IsMinimum(m, ks);
      } else {
        StrLtTotal(m, x);
        forall k | k in ks && k != x ensures StrLt(x, k) {
          if k != m {
            StrLtTransitive(x, m, k);
          }
        }
        assert IsMinimum(x, ks);
      }
    } else {
      assert IsMinimum(x, ks);
    }
  }

  lemma MinimumUnique(ks: set<string>)
    ensures forall m1, m2 :: IsMinimum(m1, ks) && IsMinimum(m2, ks) ==> m1 == m2
  {
    forall m1, m2 | IsMinimum(m1, ks) && IsMinimum(m2, ks) ensures m1 == m2 {
      if m1 != m2 {
        StrLtTransitive(m1, m2, m1);
        StrLtIrreflexive(m1);
      }
    }
  }

  /** `sorted(ks)`: the keys in increasing code-point order. */
  function SortedKeys(ks: set<string>): (r: seq<string>)
    ensures StrictlySorted(r)
    ensures forall k :: k in r <==> k in ks
    ensures |r| == |ks|
    decreases |ks|
  {
    if ks == {} then []
    else
      MinimumExists(ks);
      MinimumUnique(ks);
      var m :| IsMinimum(m, ks);
      var rest := SortedKeys(ks - {m});
      assert forall k :: k in rest ==> StrLt(m, k);
      [m] + rest
  }

  /** Two strictly increasing sequences with the same elements are equal, so any
      way of sorting the keys gives `SortedKeys`. */
  lemma {:induction false} SortedUnique(a: seq<string>, b: seq<string>)
    requires StrictlySorted(a) && StrictlySorted(b)
    requires forall k :: k in a <==> k in b
    ensures a == b
    decreases |a|
  {
    SameElementsEmpty(a, b);
    if a != [] {
      if a[0] != b[0] {
        assert b[0] in a;
        assert a[0] in b;
        var i :| 0 <= i < |a| && a[i] == b[0];
        var j :| 0 <= j < |b| && b[j] == a[0];
        assert StrLt(a[0], b[0]);
        assert StrLt(b[0], a[0]);
        StrLtTransitive(a[0], b[0], a[0]);
        StrLtIrreflexive(a[0]);
      }
      forall k ensures k in a[1..] <==> k in b[1..] {
        if k in a[1..] {
          var i :| 1 <= i < |a| && a[i] == k;
          StrLtIrreflexive(k);
          assert k in b;
          var j :| 0 <= j < |b| && b[j] == k;
          assert j != 0;
          assert b[1..][j - 1] == k;
        }
        if k in b[1..] {
          var j :| 1 <= j < |b| && b[j] == k;
          StrLtIrreflexive(k);
          assert k in a;
          var i :| 0 <= i < |a| && a[i] == k;
          assert i != 0;
          assert a[1..][i - 1] == k;
        }
      }
      SortedUnique(a[1..], b[1..]);
      assert a == [a[0]] + a[1..];
      assert b == [b[0]] + b[1..];
    }
  }

  lemma SameElementsEmpty(a: seq<string>, b: seq<string>)
    requires forall k :: k in a <==> k in b
    ensures a == [] <==> b == []
  {
    if a != [] {
      assert a[0] in a;
    }
    if b != [] {
      assert b[0] in b;
    }
  }

  // ---------------------------------------------------------------------------
  // The lines of `summary.txt`.

  const APP_SHORT: string := "Phone Guardian Pro"

  /** What `detect_mvt()` or `detect_adb()` reported. */
  datatype ToolState = ToolState(present: bool, version: string)

  function ToolLine(name: string, t: ToolState): string {
    name + ": " + (if t.present then "present" else "missing") + " (" + t.version + ")"
  }

  function PropLine(p: (string, string)): string {
    "  " + p.0 + ": " + p.1
  }

  /** The hits count for HITS, the reason for FAILED or SKIPPED when there is one. */
  function OutcomeSuffix(oc: ModuleOutcome): string {
    if oc.status == Hits then " \U{2014} hits: " + NatToString(oc.hitsTotal)
    else if (oc.status == Failed || oc.status == Skipped) && oc.reason != "" then " \U{2014} " + oc.reason
    else ""
  }

  function ModuleLine(oc: ModuleOutcome): string {
    "  " + oc.name + ": " + StatusName(oc.status) + OutcomeSuffix(oc)
  }

  function TypeLine(t: string, n: nat): string {
    "  " + t + ": " + NatToString(n)
  }

  function HeaderLines(stamp: string, mvt: ToolState, adb: ToolState): seq<string> {
    [APP_SHORT + " summary \U{2014} " + stamp, ToolLine("MVT", mvt), ToolLine("ADB", adb), "", "Device info:"]
  }

  function PropLines(props: seq<(string, string)>): (r: seq<string>)
    ensures |r| == |props| && forall i :: 0 <= i < |props| ==> r[i] == PropLine(props[i])
  {
    seq(|props|, i requires 0 <= i < |props| => PropLine(props[i]))
  }

  function ModuleLines(outcomes: seq<ModuleOutcome>): (r: seq<string>)
    ensures |r| == |outcomes| && forall i :: 0 <= i < |outcomes| ==> r[i] == ModuleLine(outcomes[i])
  {
    seq(|outcomes|, i requires 0 <= i < |outcomes| => ModuleLine(outcomes[i]))
  }

  /** The type block: a heading and one line per type in key order, or nothing. */
  function TypeBlock(byType: map<string, nat>): (r: seq<string>)
  {
    if byType == map[] then []
    else
      var ks := SortedKeys(byType.Keys);
      ["Hit counts by type:"] + TypeLines(byType, ks)
  }

  function TypeLines(byType: map<string, nat>, ks: seq<string>): (r: seq<string>)
    ensures |r| == |ks| && forall i :: 0 <= i < |ks| ==> r[i] == TypeLine(ks[i], Get(byType, ks[i]))
  {
    seq(|ks|, i requires 0 <= i < |ks| => TypeLine(ks[i], Get(byType, ks[i])))
  }

  function SummaryLines(stamp: string, mvt: ToolState, adb: ToolState, props: seq<(string, string)>,
                        outcomes: seq<ModuleOutcome>): seq<string> {
    HeaderLines(stamp, mvt, adb) + PropLines(props) + ["", "Modules run:"] + ModuleLines(outcomes) + [""]
      + TypeBlock(ByType(outcomes))
  }

  /** The text written to `summary.txt`. */
  function SummaryText(stamp: string, mvt: ToolState, adb: ToolState, props: seq<(string, string)>,
                       outcomes: seq<ModuleOutcome>): string {
    Join(SummaryLines(stamp, mvt, adb, props, outcomes), "\n") + "\n"
  }

  /** The layout of `summary.txt`: five header lines, one line per property in
      order, the "Modules run:" heading, one line per outcome in order, a blank
      line, then the type block. */
  lemma SummaryLayout(stamp: string, mvt: ToolState, adb: ToolState, props: seq<(string, string)>,
                      outcomes: seq<ModuleOutcome>)
    ensures var lines := SummaryLines(stamp, mvt, adb, props, outcomes);
      var n := |props|;
      var k := |outcomes|;
      && |lines| == 8 + n + k + |TypeBlock(ByType(outcomes))|
      && lines[..5] == HeaderLines(stamp, mvt, adb)
      && lines[5..5 + n] == PropLines(props)
      && lines[5 + n] == "" && lines[6 + n] == "Modules run:"
      && lines[7 + n..7 + n + k] == ModuleLines(outcomes)
      && lines[7 + n + k] == ""
      && lines[8 + n + k..] == TypeBlock(ByType(outcomes))
  {
    Sections(HeaderLines(stamp, mvt, adb), PropLines(props), ModuleLines(outcomes), TypeBlock(ByType(outcomes)));
  }

  /** Where each section sits in the concatenated lines. */
  lemma Sections(h: seq<string>, p: seq<string>, m: seq<string>, t: seq<string>)
    ensures var lines := h + p + ["", "Modules run:"] + m + [""] + t;
      var a := |h| + |p|;
      && |lines| == a + 3 + |m| + |t|
      && lines[..|h|] == h
      && lines[|h|..a] == p
      && lines[a] == "" && lines[a + 1] == "Modules run:"
      && lines[a + 2..a + 2 + |m|] == m
      && lines[a + 2 + |m|] == ""
      && lines[a + 3 + |m|..] == t
  {
    var hp := h + p;
    var hpm := hp + ["", "Modules run:"] + m;
    var pre := hpm + [""];
    ConcatPrefix(pre, t);
    ConcatPrefix(hpm, [""]);
    ConcatPrefix(hp + ["", "Modules run:"], m);
    ConcatPrefix(hp, ["", "Modules run:"]);
    ConcatPrefix(h, p);
    var lines := pre + t;
    assert lines[..|pre|] == pre;
    assert lines[|h|..|hp|] == pre[|h|..|hp|] == hp[|h|..] == p;
    assert lines[|hp| + 2..|hp| + 2 + |m|] == hpm[|hp| + 2..] == m;
  }

  /** Indexing into a concatenation. */
  lemma ConcatPrefix(a: seq<string>, b: seq<string>)
    ensures (a + b)[..|a|] == a && (a + b)[|a|..] == b
  {
  }

  /** The type block lists each summed type once, in increasing order, with its
      summed count; it is empty exactly when there is nothing to list. */
  lemma TypeBlockShape(byType: map<string, nat>)
    ensures TypeBlock(byType) == [] <==> byType == map[]
    ensures byType != map[] ==>
      var ks := SortedKeys(byType.Keys);
      && TypeBlock(byType)[0] == "Hit counts by type:"
      && |TypeBlock(byType)| == 1 + |byType.Keys|
      && StrictlySorted(ks) && (forall k :: k in ks <==> k in byType)
      && forall i :: 0 <= i < |ks| ==> TypeBlock(byType)[1 + i] == TypeLine(ks[i], byType[ks[i]])
  {
  }

  /** A HITS line carries " — hits: " and the hit count, which reads back as
      that count; FAILED and SKIPPED lines end in their reason when they have one;
      every other line is just the module name and status. */
  lemma ModuleLineShape(oc: ModuleOutcome)
    ensures oc.status == Hits ==>
      ModuleLine(oc) == "  " + oc.name + ": " + StatusName(oc.status) + " \U{2014} hits: " + NatToString(oc.hitsTotal)
    ensures oc.status == Hits ==>
      var n := NatToString(oc.hitsTotal);
      && |n| <= |ModuleLine(oc)| && ModuleLine(oc)[|ModuleLine(oc)| - |n|..] == n
      && (forall k :: 0 <= k < |n| ==> IsDigit(n[k])) && DigitsValue(n) == oc.hitsTotal
    ensures (oc.status == Failed || oc.status == Skipped) && oc.reason != "" ==>
      ModuleLine(oc) == "  " + oc.name + ": " + StatusName(oc.status) + " \U{2014} " + oc.reason
    ensures oc.status == Clean || (oc.reason == "" && oc.status != Hits) ==>
      ModuleLine(oc) == "  " + oc.name + ": " + StatusName(oc.status)
  {
    NatToStringRoundTrip(oc.hitsTotal);
    if oc.status == Hits {
      var n := NatToString(oc.hitsTotal);
      var p := "  " + oc.name + ": " + StatusName(oc.status) + " \U{2014} hits: ";
      assert ModuleLine(oc) == p + n;
    }
  }

  predicate AllUnbroken(ls: seq<string>) {
    forall l :: l in ls ==> Unbroken(l)
  }

  /** The inputs hold no line break, so every summary line is one line of text. */
  predicate InputsUnbroken(stamp: string, mvt: ToolState, adb: ToolState, props: seq<(string, string)>,
                           outcomes: seq<ModuleOutcome>) {
    && Unbroken(stamp) && Unbroken(mvt.version) && Unbroken(adb.version)
    && (forall i :: 0 <= i < |props| ==> Unbroken(props[i].0) && Unbroken(props[i].1))
    && (forall i :: 0 <= i < |outcomes| ==> OutcomeUnbroken(outcomes[i]))
  }

  predicate OutcomeUnbroken(oc: ModuleOutcome) {
    Unbroken(oc.name) && Unbroken(oc.reason) && forall k :: k in oc.hitTypes ==> Unbroken(k)
  }

  // The fixed pieces of the summary lines hold no line break.
  lemma HeadingsUnbroken()
    ensures Unbroken("Hit counts by type:") && Unbroken("Device info:") && Unbroken("Modules run:") && Unbroken("")
  {
  }

  lemma ToolPiecesUnbroken()
    ensures Unbroken(APP_SHORT) && Unbroken(" summary \U{2014} ") && Unbroken("MVT") && Unbroken("ADB")
  {
  }

  lemma SeparatorsUnbroken()
    ensures Unbroken(": ") && Unbroken("present") && Unbroken("missing") && Unbroken(" (") && Unbroken(")") && Unbroken("  ")
  {
  }

  lemma StatusPiecesUnbroken(st: Status)
    ensures Unbroken(" \U{2014} hits: ") && Unbroken(" \U{2014} ") && Unbroken(StatusName(st))
  {
  }

  lemma UnbrokenConcat(a: string, b: string)
    requires Unbroken(a) && Unbroken(b)
    ensures Unbroken(a + b)
  {
  }

  lemma ModuleLineUnbroken(oc: ModuleOutcome)
    requires Unbroken(oc.name) && Unbroken(oc.reason)
    ensures Unbroken(ModuleLine(oc))
  {
    NatToStringUnbroken(oc.hitsTotal);
    SeparatorsUnbroken();
    StatusPiecesUnbroken(oc.status);
    HeadingsUnbroken();
    UnbrokenConcat(" \U{2014} hits: ", NatToString(oc.hitsTotal));
    UnbrokenConcat(" \U{2014} ", oc.reason);
    var x := OutcomeSuffix(oc);
    assert Unbroken(x);
    UnbrokenConcat("  ", oc.name);
    UnbrokenConcat("  " + oc.name, ": ");
    UnbrokenConcat("  " + oc.name + ": ", StatusName(oc.status));
    UnbrokenConcat("  " + oc.name + ": " + StatusName(oc.status), x);
  }

  lemma TypeLineUnbroken(k: string, n: nat)
    requires Unbroken(k)
    ensures Unbroken(TypeLine(k, n))
  {
    NatToStringUnbroken(n);
    SeparatorsUnbroken();
    UnbrokenConcat("  ", k);
    UnbrokenConcat("  " + k, ": ");
    UnbrokenConcat("  " + k + ": ", NatToString(n));
  }

  lemma PropLineUnbroken(p: (string, string))
    requires Unbroken(p.0) && Unbroken(p.1)
    ensures Unbroken(PropLine(p))
  {
    SeparatorsUnbroken();
    UnbrokenConcat("  ", p.0);
    UnbrokenConcat("  " + p.0, ": ");
    UnbrokenConcat("  " + p.0 + ": ", p.1);
  }

  lemma ToolLineUnbroken(name: string, t: ToolState)
    requires Unbroken(name) && Unbroken(t.version)
    ensures Unbroken(ToolLine(name, t))
  {
    SeparatorsUnbroken();
    var w := if t.present then "present" else "missing";
    UnbrokenConcat(name, ": ");
    UnbrokenConcat(name + ": ", w);
    UnbrokenConcat(name + ": " + w, " (");
    UnbrokenConcat(name + ": " + w + " (", t.version);
    UnbrokenConcat(name + ": " + w + " (" + t.version, ")");
  }

  lemma HeaderUnbroken(stamp: string, mvt: ToolState, adb: ToolState)
    requires Unbroken(stamp) && Unbroken(mvt.version) && Unbroken(adb.version)
    ensures AllUnbroken(HeaderLines(stamp, mvt, adb))
  {
    ToolPiecesUnbroken();
    HeadingsUnbroken();
    UnbrokenConcat(APP_SHORT, " summary \U{2014} ");
    UnbrokenConcat(APP_SHORT + " summary \U{2014} ", stamp);
    ToolLineUnbroken("MVT", mvt);
    ToolLineUnbroken("ADB", adb);
  }

  lemma TypeBlockUnbroken(outcomes: seq<ModuleOutcome>)
    requires forall i :: 0 <= i < |outcomes| ==> OutcomeUnbroken(outcomes[i])
    ensures AllUnbroken(TypeBlock(ByType(outcomes)))
  {
    var bt := ByType(outcomes);
    if bt != map[] {
      var ks := SortedKeys(bt.Keys);
      var tl := TypeLines(bt, ks);
      forall i | 0 <= i < |ks| ensures Unbroken(tl[i]) {
        ByTypeIsSum(outcomes, ks[i]);
        var j :| 0 <= j < |outcomes| && ks[i] in outcomes[j].hitTypes;
        assert OutcomeUnbroken(outcomes[j]);
        TypeLineUnbroken(ks[i], Get(bt, ks[i]));
      }
      assert AllUnbroken(tl);
      HeadingsUnbroken();
    }
  }

  lemma SummaryLinesUnbroken(stamp: string, mvt: ToolState, adb: ToolState, props: seq<(string, string)>,
                             outcomes: seq<ModuleOutcome>)
    requires InputsUnbroken(stamp, mvt, adb, props, outcomes)
    ensures AllUnbroken(SummaryLines(stamp, mvt, adb, props, outcomes))
  {
    HeaderUnbroken(stamp, mvt, adb);
    var m := ModuleLines(outcomes);
    forall i | 0 <= i < |outcomes| ensures Unbroken(m[i]) {
      assert OutcomeUnbroken(outcomes[i]);
      ModuleLineUnbroken(outcomes[i]);
    }
    assert AllUnbroken(m);
    var p := PropLines(props);
    forall i | 0 <= i < |props| ensures Unbroken(p[i]) {
      PropLineUnbroken(props[i]);
    }
    assert AllUnbroken(p);
    TypeBlockUnbroken(outcomes);
    HeadingsUnbroken();
  }

  /** Reading `summary.txt` back with `splitlines()` gives exactly its lines. */
  lemma SummaryTextRoundTrip(stamp: string, mvt: ToolState, adb: ToolState, props: seq<(string, string)>,
                             outcomes: seq<ModuleOutcome>)
    requires InputsUnbroken(stamp, mvt, adb, props, outcomes)
    ensures SplitLines(SummaryText(stamp, mvt, adb, props, outcomes)) == SummaryLines(stamp, mvt, adb, props, outcomes)
  {
    var lines := SummaryLines(stamp, mvt, adb, props, outcomes);
    SummaryLinesUnbroken(stamp, mvt, adb, props, outcomes);
    JoinTerminated(lines);
    SplitLinesTerminated(lines);
  }

  /** `write_summary`, without the file write: sum the outcomes' hit types, then
      build the lines and join them. The clock stamp and the two tool checks are
      inputs. */
  method WriteSummary(stamp: string, mvt: ToolState, adb: ToolState, props: seq<(string, string)>,
                      outcomes: seq<ModuleOutcome>) returns (text: string)
    ensures text == SummaryText(stamp, mvt, adb, props, outcomes)
  {
    var byType := SumHitTypes(outcomes);
    var lines := HeaderLines(stamp, mvt, adb);
    lines := AppendPropLines(lines, props);
    lines := lines + ["", "Modules run:"];
    lines := AppendModuleLines(lines, outcomes);
    lines := lines + [""];
    lines := AppendTypeBlock(lines, byType);
    text := Join(lines, "\n") + "\n";
  }

  /** The loop that fills `by_type`. */
  method SumHitTypes(outcomes: seq<ModuleOutcome>) returns (byType: map<string, nat>)
    ensures byType == ByType(outcomes)
  {
    byType := map[];
    var i := 0;
    while i < |outcomes|
      invariant 0 <= i <= |outcomes|
      invariant byType == ByType(outcomes[..i])
    {
      assert outcomes[..i + 1][..i] == outcomes[..i];
      byType := AddInto(byType, outcomes[i].hitTypes);
      i := i + 1;
    }
    assert outcomes[..i] == outcomes;
  }

  method AppendPropLines(lines0: seq<string>, props: seq<(string, string)>) returns (lines: seq<string>)
    ensures lines == lines0 + PropLines(props)
  {
    lines := lines0;
    var j := 0;
    while j < |props|
      invariant 0 <= j <= |props|
      invariant lines == lines0 + PropLines(props[..j])
    {
      assert PropLines(props[..j + 1]) == PropLines(props[..j]) + [PropLine(props[j])];
      lines := lines + [PropLine(props[j])];
      j := j + 1;
    }
    assert props[..j] == props;
  }

  method AppendModuleLines(lines0: seq<string>, outcomes: seq<ModuleOutcome>) returns (lines: seq<string>)
    ensures lines == lines0 + ModuleLines(outcomes)
  {
    lines := lines0;
    var j := 0;
    while j < |outcomes|
      invariant 0 <= j <= |outcomes|
      invariant lines == lines0 + ModuleLines(outcomes[..j])
    {
      assert ModuleLines(outcomes[..j + 1]) == ModuleLines(outcomes[..j]) + [ModuleLine(outcomes[j])];
      lines := lines + [ModuleLine(outcomes[j])];
      j := j + 1;
    }
    assert outcomes[..j] == outcomes;
  }

  method AppendTypeBlock(lines0: seq<string>, byType: map<string, nat>) returns (lines: seq<string>)
    ensures lines == lines0 + TypeBlock(byType)
  {
    lines := lines0;
    if byType != map[] {
      lines := AppendTypeLines(lines + ["Hit counts by type:"], byType, SortedKeys(byType.Keys));
    }
  }

  /** `for t, n in sorted(by_type.items())`, given the sorted keys. */
  method AppendTypeLines(lines0: seq<string>, byType: map<string, nat>, ks: seq<string>) returns (lines: seq<string>)
    ensures lines == lines0 + TypeLines(byType, ks)
  {
    lines := lines0;
    var j := 0;
    while j < |ks|
      invariant 0 <= j <= |ks|
      invariant lines == lines0 + TypeLines(byType, ks[..j])
    {
      assert TypeLines(byType, ks[..j + 1]) == TypeLines(byType, ks[..j]) + [TypeLine(ks[j], Get(byType, ks[j]))];
      lines := lines + [TypeLine(ks[j], Get(byType, ks[j]))];
      j := j + 1;
    }
    assert ks[..j] == ks;
  }

  /** Entry by entry, `by_type[t] = by_type.get(t, 0) + n` for each item of `b`. */
  method AddInto(a: map<string, nat>, b: map<string, nat>) returns (r: map<string, nat>)
    ensures r == AddCounts(a, b)
  {
    r := a;
    var rest := b.Keys;
    while rest != {}
      invariant PartialSum(a, b, r, rest)
      decreases |rest|
    {
      var t :| t in rest;
      AddStep(a, b, r, rest, t);
      r := r[t := Get(r, t) + b[t]];
      rest := rest - {t};
    }
    AddCountsEqual(a, b, r);
  }

  /** `r` holds `a` plus the items of `b` outside `rest`. */
  predicate PartialSum(a: map<string, nat>, b: map<string, nat>, r: map<string, nat>, rest: set<string>) {
    && rest <= b.Keys
    && r.Keys == a.Keys + (b.Keys - rest)
    && forall k :: k in r ==> r[k] == Get(a, k) + (if k in b && k !in rest then b[k] else 0)
  }

  lemma AddStep(a: map<string, nat>, b: map<string, nat>, r: map<string, nat>, rest: set<string>, t: string)
    requires PartialSum(a, b, r, rest) && t in rest
    ensures PartialSum(a, b, r[t := Get(r, t) + b[t]], rest - {t})
  {
  }

  lemma AddCountsEqual(a: map<string, nat>, b: map<string, nat>, r: map<string, nat>)
    requires PartialSum(a, b, r, {})
    ensures r == AddCounts(a, b)
  {
  }
}
