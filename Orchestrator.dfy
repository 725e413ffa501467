/** The two scan flows: one `check-adb` run over the whole device, or one run
    per module. Each run invokes the scanner, classifies what it printed, and
    retries once after a reset when the result says the transport is busy; it
    then counts the hits in the files that appeared since the run began. After
    the runs, the device properties are read and the summary is written.

    Everything outside the program is an oracle of the environment: what each
    invocation prints, the return codes of the readiness probes, the clock, the
    output directory's listing, the files' contents and the property reads. */
module Orchestrator {
  import opened Text
  import opened Classifier
  import opened Transport
  import Parsers
  import HitAggregator
  import Report

  /** What the program observes of the world. Runs are numbered from 0 in the
      order they happen; `attempt` is 0 for the first invocation of a run and 1
      for its retry; `call` is 0 for the readiness loop before the whole-device
      run and 1 for the one before a retry. `read(run, path)` is what reading
      the file at `path` gives once run `run` has finished: its text, `None` when
      unreadable, and its CSV rows; a later module's run may find other content
      at the same path of the shared output directory. */
  datatype Env = Env(
    adbPresent: bool,
    listOutput: string,
    output: (nat, nat) -> string,
    probe: (nat, nat, nat) -> int,
    clockMs: nat -> int,
    listing: nat -> seq<HitAggregator.DirEntry>,
    read: (nat, string) -> (Option<string>, seq<seq<string>>),
    getprop: string -> (int, string),
    stamp: string,
    mvt: Report.ToolState,
    adb: Report.ToolState)

  /** What the program does to the outside, in order: an `adb` command, the
      `check-adb --list-modules` invocation, or a `check-adb` scan, for one
      module or for all of them. */
  datatype Event = Adb(cmd: AdbCmd) | ModuleList | CheckAdb(target: Option<string>)

  /** How a scan ends: it does not start (no scanner, or no modules listed)
      after the events it issued, or it records its outcomes and events and,
      unless reading the device properties raised, the text of `summary.txt`. */
  datatype Run = NotStarted(events: seq<Event>) | Finished(outcomes: seq<Report.ModuleOutcome>, events: seq<Event>, summary: Option<string>)

  function Adbs(cmds: seq<AdbCmd>): (r: seq<Event>)
    ensures |r| == |cmds| && forall j :: 0 <= j < |cmds| ==> r[j] == Adb(cmds[j])
  {
    seq(|cmds|, j requires 0 <= j < |cmds| => Adb(cmds[j]))
  }

  /** The probe codes one readiness loop sees. */
  function ProbeOf(env: Env, run: nat, call: nat): nat -> int {
    (k: nat) => env.probe(run, call, k)
  }

  /** The commands one `adb_ensure_ready()` call issues, with its default of two attempts. */
  function ReadyCmds(env: Env, run: nat, call: nat): seq<AdbCmd> {
    if env.adbPresent then Attempts(AttemptsMade(ProbeOf(env, run, call), 2)) else []
  }

  /** The first result of the run asks for the retry. */
  predicate Retried(env: Env, run: nat) {
    var v := ClassifyStdout(env.output(run, 0));
    IsAdbBusy(v.status, v.reason)
  }

  /** The output whose verdict and count the run records: the last invocation's. */
  function FinalOutput(env: Env, run: nat): string {
    if Retried(env, run) then env.output(run, 1) else env.output(run, 0)
  }

  /** The artifacts at the given paths. */
  function Artifacts(env: Env, run: nat, paths: seq<string>): (r: seq<HitAggregator.Artifact>)
    ensures |r| == |paths|
    ensures forall j :: 0 <= j < |paths| ==> r[j].path == paths[j] && (r[j].text, r[j].rows) == env.read(run, paths[j])
  {
    seq(|paths|, j requires 0 <= j < |paths| =>
      HitAggregator.Artifact(paths[j], env.read(run, paths[j]).0, env.read(run, paths[j]).1))
  }

  /** The files a run counts: those of the listing no older than the timestamp
      taken before its first invocation. */
  function RunFiles(env: Env, run: nat): seq<HitAggregator.Artifact> {
    Artifacts(env, run, HitAggregator.Recent(env.listing(run), env.clockMs(run)))
  }

  /** The outcome a run records under `name`. */
  function RunOutcome(env: Env, run: nat, name: string): Report.ModuleOutcome {
    var out := FinalOutput(env, run);
    var v := ClassifyStdout(out);
    var t := HitAggregator.Aggregate(RunFiles(env, run));
    Report.ModuleOutcome(name, v.status, v.reason, Parsers.ParseIndicatorDefs(out), t.total, t.perType)
  }

  /** What the event trace needs to know of one run: its target, whether it
      retried, and the commands of the readiness loop before the retry. */
  datatype RunPlan = RunPlan(target: Option<string>, retried: bool, ready: seq<AdbCmd>)

  function Plan(env: Env, run: nat, target: Option<string>): RunPlan {
    RunPlan(target, Retried(env, run), ReadyCmds(env, run, 1))
  }

  /** The events of a run from its first invocation on: the invocation, and for
      a retry the quick reset, the readiness loop and the second invocation. */
  function PlanEvents(adbPresent: bool, p: RunPlan): seq<Event> {
    [CheckAdb(p.target)]
      + (if p.retried then Adbs(QuickReset(adbPresent)) + Adbs(p.ready) + [CheckAdb(p.target)] else [])
  }

  function AttemptEvents(env: Env, run: nat, target: Option<string>): seq<Event> {
    PlanEvents(env.adbPresent, Plan(env, run, target))
  }

  /** One run after its preparation: invoke, classify, retry once if busy, then
      count the hits in the files that are new since the timestamp taken before
      the first invocation. That timestamp is not taken again for the retry. */
  method Attempt(env: Env, run: nat, target: Option<string>, name: string)
    returns (oc: Report.ModuleOutcome, events: seq<Event>)
    ensures oc == RunOutcome(env, run, name)
    ensures events == AttemptEvents(env, run, target)
  {
    var before := env.clockMs(run);
    var out;
    out, events := Invoke(env, run, target);
    var defs := Parsers.ParseIndicatorDefs(out);
    var v := ClassifyStdout(out);
    var total, perType := CountNewHits(env, run, before);
    oc := Report.ModuleOutcome(name, v.status, v.reason, defs, total, perType);
  }

  /** The invocations of one run: the first, and after a busy verdict a quick
      reset, a readiness loop whose verdict is ignored, and the second. */
  method Invoke(env: Env, run: nat, target: Option<string>) returns (out: string, events: seq<Event>)
    ensures out == FinalOutput(env, run)
    ensures events == AttemptEvents(env, run, target)
  {
    events := [CheckAdb(target)];
    out := env.output(run, 0);
    var v := ClassifyStdout(out);
    if IsAdbBusy(v.status, v.reason) {
      var _, cmds := AdbEnsureReady(env.adbPresent, 2, ProbeOf(env, run, 1));
      events := events + Adbs(QuickReset(env.adbPresent)) + Adbs(cmds) + [CheckAdb(target)];
      out := env.output(run, 1);
    }
  }

  /** `new_files_since` then `count_hits_in_files`, for the files of run `run`. */
  method CountNewHits(env: Env, run: nat, before: int) returns (total: nat, perType: map<string, nat>)
    requires before == env.clockMs(run)
    ensures HitAggregator.Tally(total, perType) == HitAggregator.Aggregate(RunFiles(env, run))
  {
    var paths := HitAggregator.NewFilesSince(env.listing(run), before);
    total, perType := HitAggregator.CountHitsInFiles(Artifacts(env, run, paths));
  }

  /** The summary text, or `None` when `get_device_props` raised. */
  function SummaryOf(env: Env, outcomes: seq<Report.ModuleOutcome>): Option<string> {
    match PropsFrom(env.adbPresent, env.getprop, PROP_KEYS)
    case IndexError => None
    case Props(entries) => Some(Report.SummaryText(env.stamp, env.mvt, env.adb, entries, outcomes))
  }

  method Summarize(env: Env, outcomes: seq<Report.ModuleOutcome>) returns (summary: Option<string>)
    ensures summary == SummaryOf(env, outcomes)
  {
    var props := GetDeviceProps(env.adbPresent, env.getprop);
    if props.IndexError? {
      return None;
    }
    var text := Report.WriteSummary(env.stamp, env.mvt, env.adb, props.entries, outcomes);
    return Some(text);
  }

  // ---------------------------------------------------------------------------
  // `scan_all_modules`.

  function AllModules(env: Env, mvtPresent: bool): Run {
    if !mvtPresent then NotStarted([])
    else
      var oc := RunOutcome(env, 0, "ALL");
      var events := Adbs(QuickReset(env.adbPresent)) + Adbs(ReadyCmds(env, 0, 0)) + AttemptEvents(env, 0, None);
      Finished([oc], events, SummaryOf(env, [oc]))
  }

  /** `scan_all_modules`: reset, run the readiness loop and ignore its verdict,
      then one run over the whole device recorded as the single outcome "ALL". */
  method ScanAllModules(env: Env, mvtPresent: bool) returns (run: Run)
    ensures run == AllModules(env, mvtPresent)
  {
    if !mvtPresent {
      return NotStarted([]);
    }
    var events := Adbs(QuickReset(env.adbPresent));
    var _, cmds := AdbEnsureReady(env.adbPresent, 2, ProbeOf(env, 0, 0));
    events := events + Adbs(cmds);
    var oc, rest := Attempt(env, 0, None, "ALL");
    events := events + rest;
    var summary := Summarize(env, [oc]);
    return Finished([oc], events, summary);
  }

  // ---------------------------------------------------------------------------
  // `scan_module_by_module`.

  /** The modules the listing announces. */
  function ListedModules(env: Env, mvtPresent: bool): seq<string> {
    if mvtPresent then Parsers.ModuleNames(SplitLines(env.listOutput)) else []
  }

  /** `f(i, xs[i])` for every position `i`. */
  function PerPosition<T>(xs: seq<string>, f: (nat, string) -> T): (r: seq<T>)
    ensures |r| == |xs| && forall i :: 0 <= i < |xs| ==> r[i] == f(i, xs[i])
  {
    seq(|xs|, i requires 0 <= i < |xs| => f(i, xs[i]))
  }

  lemma PerPositionStep<T>(xs: seq<string>, f: (nat, string) -> T, i: nat)
    requires i < |xs|
    ensures PerPosition(xs[..i + 1], f) == PerPosition(xs[..i], f) + [f(i, xs[i])]
  {
    assert PerPosition(xs[..i + 1], f)[..i] == PerPosition(xs[..i], f);
  }

  /** One outcome per module, run `i` for module `i`. */
  function ModuleOutcomes(env: Env, mods: seq<string>): (r: seq<Report.ModuleOutcome>)
    ensures |r| == |mods| && forall i :: 0 <= i < |mods| ==> r[i] == RunOutcome(env, i, mods[i])
  {
    PerPosition(mods, (i: nat, m: string) => RunOutcome(env, i, m))
  }

  /** Run `i` is for module `i`. */
  function ModulePlans(env: Env, mods: seq<string>): (r: seq<RunPlan>)
    ensures |r| == |mods| && forall i :: 0 <= i < |mods| ==> r[i] == Plan(env, i, Some(mods[i]))
  {
    seq(|mods|, i requires 0 <= i < |mods| => Plan(env, i, Some(mods[i])))
  }

  /** The events of the module runs in turn: each is a quick reset (and no
      readiness loop) followed by its invocations. */
  function Trace(adbPresent: bool, plans: seq<RunPlan>): seq<Event> {
    if plans == [] then []
    else Trace(adbPresent, plans[..|plans| - 1]) + Adbs(QuickReset(adbPresent)) + PlanEvents(adbPresent, plans[|plans| - 1])
  }

  function ModuleTrace(env: Env, mods: seq<string>): seq<Event> {
    Trace(env.adbPresent, ModulePlans(env, mods))
  }

  /** The listing invocation, issued whenever the scanner is present. */
  function ListingEvents(mvtPresent: bool): seq<Event> {
    if mvtPresent then [ModuleList] else []
  }

  function ModuleByModule(env: Env, mvtPresent: bool): Run {
    var mods := ListedModules(env, mvtPresent);
    var listing := ListingEvents(mvtPresent);
    if mods == [] then NotStarted(listing)
    else
      var outcomes := ModuleOutcomes(env, mods);
      Finished(outcomes, listing + ModuleTrace(env, mods), SummaryOf(env, outcomes))
  }

  /** `scan_module_by_module`: list the modules, then run each in turn and
      append its outcome, then write the summary. */
  method ScanModuleByModule(env: Env, mvtPresent: bool) returns (run: Run)
    ensures run == ModuleByModule(env, mvtPresent)
  {
    var mods, _ := Parsers.ListModules(mvtPresent, env.listOutput);
    var listing := if mvtPresent then [ModuleList] else [];
    if mods == [] || !mvtPresent {
      return NotStarted(listing);
    }
    var outcomes, events := RunModules(env, mods);
    var summary := Summarize(env, outcomes);
    return Finished(outcomes, listing + events, summary);
  }

  /** The loop of `scan_module_by_module`: a quick reset, then run `i` for the
      `i`-th module, appending its outcome. */
  method RunModules(env: Env, mods: seq<string>) returns (outcomes: seq<Report.ModuleOutcome>, events: seq<Event>)
    ensures outcomes == ModuleOutcomes(env, mods)
    ensures events == ModuleTrace(env, mods)
  {
    outcomes := [];
    events := [];
    for i := 0 to |mods|
      invariant outcomes == ModuleOutcomes(env, mods[..i])
      invariant events == ModuleTrace(env, mods[..i])
    {
      var oc, ev := Attempt(env, i, Some(mods[i]), mods[i]);
      OutcomesStep(env, mods, i);
      PlansStep(env, mods, i);
      outcomes := outcomes + [oc];
      events := events + Adbs(QuickReset(env.adbPresent)) + ev;
    }
    assert mods[..|mods|] == mods;
  }

  lemma OutcomesStep(env: Env, mods: seq<string>, i: nat)
    requires i < |mods|
    ensures ModuleOutcomes(env, mods[..i + 1]) == ModuleOutcomes(env, mods[..i]) + [RunOutcome(env, i, mods[i])]
  {
    PerPositionStep(mods, (i: nat, m: string) => RunOutcome(env, i, m), i);
  }

  lemma PlansStep(env: Env, mods: seq<string>, i: nat)
    requires i < |mods|
    ensures ModuleTrace(env, mods[..i + 1]) == ModuleTrace(env, mods[..i]) + Adbs(QuickReset(env.adbPresent)) + AttemptEvents(env, i, Some(mods[i]))
  {
    var p := ModulePlans(env, mods[..i + 1]);
    assert p[..i] == ModulePlans(env, mods[..i]);
  }

  // ---------------------------------------------------------------------------
  // Properties of the flows.

  /** Number of scanner invocations among the events, the listing included. */
  function Invocations(events: seq<Event>): nat {
    if events == [] then 0
    else Invocations(events[..|events| - 1]) + (if events[|events| - 1].Adb? then 0 else 1)
  }

  lemma {:induction false} InvocationsAppend(a: seq<Event>, b: seq<Event>)
    ensures Invocations(a + b) == Invocations(a) + Invocations(b)
    decreases |b|
  {
    if b == [] {
      assert a + b == a;
    } else {
      assert (a + b)[..|a + b| - 1] == a + b[..|b| - 1];
      InvocationsAppend(a, b[..|b| - 1]);
    }
  }

  lemma {:induction false} AdbsInvokeNothing(cmds: seq<AdbCmd>)
    ensures Invocations(Adbs(cmds)) == 0
    decreases |cmds|
  {
    if cmds != [] {
      assert Adbs(cmds)[..|cmds| - 1] == Adbs(cmds[..|cmds| - 1]);
      AdbsInvokeNothing(cmds[..|cmds| - 1]);
    }
  }

  /** A run invokes the scanner once, or twice when its first result is busy;
      both invocations have the run's target. */
  lemma RunInvocations(env: Env, run: nat, target: Option<string>)
    ensures Invocations(AttemptEvents(env, run, target)) == (if Retried(env, run) then 2 else 1)
    ensures AttemptEvents(env, run, target)[0] == CheckAdb(target)
    ensures forall e :: e in AttemptEvents(env, run, target) && e.CheckAdb? ==> e.target == target
  {
    PlanInvocations(env.adbPresent, Plan(env, run, target));
  }

  lemma PlanInvocations(adbPresent: bool, p: RunPlan)
    ensures Invocations(PlanEvents(adbPresent, p)) == (if p.retried then 2 else 1)
    ensures PlanEvents(adbPresent, p)[0] == CheckAdb(p.target)
    ensures forall e :: e in PlanEvents(adbPresent, p) && e.CheckAdb? ==> e.target == p.target
  {
    var one := [CheckAdb(p.target)];
    var tail := if p.retried then Adbs(QuickReset(adbPresent)) + Adbs(p.ready) + one else [];
    assert Invocations(one) == 1 by {
      assert one[..0] == [];
    }
    InvocationsAppend(one, tail);
    if p.retried {
      var a := Adbs(QuickReset(adbPresent));
      var b := Adbs(p.ready);
      InvocationsAppend(a + b, one);
      InvocationsAppend(a, b);
      AdbsInvokeNothing(QuickReset(adbPresent));
      AdbsInvokeNothing(p.ready);
    }
  }

  /** The retry happens exactly when the first output mentions "device is busy". */
  lemma RetryIffBusy(env: Env, run: nat)
    ensures Retried(env, run) <==> Contains(Lower(env.output(run, 0)), BUSY_MARKER)
  {
    BusyRetryExactly(env.output(run, 0));
  }

  /** The recorded status, reason and count are those of the last invocation;
      a busy failure is recorded only when the retry was busy as well. */
  lemma RunRecordsLastAttempt(env: Env, run: nat, name: string)
    ensures var oc := RunOutcome(env, run, name);
      var last := if Retried(env, run) then env.output(run, 1) else env.output(run, 0);
      && Verdict(oc.status, oc.reason) == ClassifyStdout(last)
      && oc.defs == Parsers.ParseIndicatorDefs(last)
      && oc.name == name
    ensures var oc := RunOutcome(env, run, name);
      IsAdbBusy(oc.status, oc.reason) ==>
        Retried(env, run) && Contains(Lower(env.output(run, 1)), BUSY_MARKER)
  {
    BusyRetryExactly(env.output(run, 1));
  }

  /** The hits of a run are the sums over the files no older than half a second
      before the first invocation, whichever of the two invocations wrote them. */
  lemma RunHits(env: Env, run: nat, name: string, c: HitAggregator.Category)
    ensures var oc := RunOutcome(env, run, name);
      var files := RunFiles(env, run);
      && oc.hitsTotal == HitAggregator.SumTotals(files)
      && HitAggregator.Get(oc.hitTypes, HitAggregator.CategoryName(c)) == HitAggregator.SumHits(files, c)
      && HitAggregator.WellFormed(oc.hitTypes)
    ensures forall p :: p in HitAggregator.Recent(env.listing(run), env.clockMs(run)) <==>
      exists e :: e in env.listing(run) && e.path == p && HitAggregator.IsRecent(e, env.clockMs(run))
  {
    HitAggregator.AggregateIsSum(RunFiles(env, run), c);
    HitAggregator.RecentMembers(env.listing(run), env.clockMs(run));
  }

  /** The module-by-module flow records one outcome per listed module, in the
      listing's order, whatever each status is. */
  lemma OutcomePerModule(env: Env, mvtPresent: bool)
    ensures var mods := ListedModules(env, mvtPresent);
      var r := ModuleByModule(env, mvtPresent);
      && (r.NotStarted? <==> mods == [])
      && (r.Finished? ==> |r.outcomes| == |mods| && forall i :: 0 <= i < |mods| ==> r.outcomes[i].name == mods[i])
  {
  }

  /** Number of runs whose first result was busy. */
  function RetriedCount(plans: seq<RunPlan>): nat {
    if plans == [] then 0 else RetriedCount(plans[..|plans| - 1]) + (if plans[|plans| - 1].retried then 1 else 0)
  }

  /** In the module loop, every module run invokes the scanner once, plus once
      when its first result was busy, so never more than twice per module. */
  lemma {:induction false} TraceInvocations(adbPresent: bool, plans: seq<RunPlan>)
    ensures Invocations(Trace(adbPresent, plans)) == |plans| + RetriedCount(plans)
    ensures |plans| <= Invocations(Trace(adbPresent, plans)) <= 2 * |plans|
  {
    if plans != [] {
      var init := plans[..|plans| - 1];
      TraceInvocations(adbPresent, init);
      var a := Trace(adbPresent, init);
      var b := Adbs(QuickReset(adbPresent));
      var c := PlanEvents(adbPresent, plans[|plans| - 1]);
      InvocationsAppend(a + b, c);
      InvocationsAppend(a, b);
      AdbsInvokeNothing(QuickReset(adbPresent));
      PlanInvocations(adbPresent, plans[|plans| - 1]);
    }
  }

  /** A module-by-module scan opens with the listing invocation exactly when the
      scanner is present; a scan that runs modules invokes the scanner once for
      the listing, then once per module plus once per retry. */
  lemma ScanInvocations(env: Env, mvtPresent: bool)
    ensures var mods := ListedModules(env, mvtPresent);
      var r := ModuleByModule(env, mvtPresent);
      && (mvtPresent <==> r.events != [] && r.events[0] == ModuleList)
      && (r.NotStarted? ==> Invocations(r.events) == if mvtPresent then 1 else 0)
      && (r.Finished? ==>
          && Invocations(r.events) == 1 + |mods| + RetriedCount(ModulePlans(env, mods))
          && 1 + |mods| <= Invocations(r.events) <= 1 + 2 * |mods|)
  {
    var mods := ListedModules(env, mvtPresent);
    var listing := ListingEvents(mvtPresent);
    if mvtPresent {
      assert listing[..0] == [];
    }
    if mods != [] {
      InvocationsAppend(listing, ModuleTrace(env, mods));
      TraceInvocations(env.adbPresent, ModulePlans(env, mods));
    }
  }

  /** The readiness loops' verdicts are ignored: the probe codes change the
      commands a run issues, never what it records. */
  lemma OutcomeIgnoresProbes(env: Env, probe: (nat, nat, nat) -> int, run: nat, name: string)
    ensures RunOutcome(env.(probe := probe), run, name) == RunOutcome(env, run, name)
  {
  }

  /** Module by module, the probe codes change neither the outcomes nor the summary. */
  lemma ProbesIgnoredByModule(env: Env, mvtPresent: bool, probe: (nat, nat, nat) -> int)
    ensures var other := env.(probe := probe);
      && (ModuleByModule(env, mvtPresent).Finished? <==> ModuleByModule(other, mvtPresent).Finished?)
      && (ModuleByModule(env, mvtPresent).Finished? ==>
          && ModuleByModule(other, mvtPresent).outcomes == ModuleByModule(env, mvtPresent).outcomes
          && ModuleByModule(other, mvtPresent).summary == ModuleByModule(env, mvtPresent).summary)
  {
    var other := env.(probe := probe);
    var mods := ListedModules(env, mvtPresent);
    assert ListedModules(other, mvtPresent) == mods;
    var a, b := ModuleOutcomes(other, mods), ModuleOutcomes(env, mods);
    forall i | 0 <= i < |mods|
      ensures a[i] == b[i]
    {
      OutcomeIgnoresProbes(env, probe, i, mods[i]);
    }
    assert a == b;
  }

  /** Over the whole device, the probe codes change neither the outcome nor the summary. */
  lemma ProbesIgnoredAll(env: Env, mvtPresent: bool, probe: (nat, nat, nat) -> int)
    ensures var other := env.(probe := probe);
      && (AllModules(env, mvtPresent).Finished? <==> AllModules(other, mvtPresent).Finished?)
      && (AllModules(env, mvtPresent).Finished? ==>
          && AllModules(other, mvtPresent).outcomes == AllModules(env, mvtPresent).outcomes
          && AllModules(other, mvtPresent).summary == AllModules(env, mvtPresent).summary)
  {
    OutcomeIgnoresProbes(env, probe, 0, "ALL");
  }

  /** Two modules, the first busy and then clean on its retry, the second
      skipped: two outcomes in order, four invocations (the listing, two for the
      first module, one for the second), and hit counts by type
      from the first module's files alone when the second adds none. */
  lemma TwoModulesOneRetry(env: Env, mvtPresent: bool)
    requires ListedModules(env, mvtPresent) == ["A", "B"]
    requires ClassifyStdout(env.output(0, 0)) == Verdict(Failed, BUSY_REASON)
    requires ClassifyStdout(env.output(0, 1)).status == Clean
    requires ClassifyStdout(env.output(1, 0)).status == Skipped
    requires HitAggregator.Recent(env.listing(1), env.clockMs(1)) == []
    ensures var r := ModuleByModule(env, mvtPresent);
      && r.Finished? && |r.outcomes| == 2
      && r.outcomes[0].name == "A" && r.outcomes[0].status == Clean
      && r.outcomes[1].name == "B" && r.outcomes[1].status == Skipped
      && Invocations(r.events) == 4
      && Report.ByType(r.outcomes) == r.outcomes[0].hitTypes
  {
    var mods := ["A", "B"];
    TwoModulesRetries(env);
    ScanInvocations(env, mvtPresent);
    TwoPlansRetriedOnce(ModulePlans(env, mods));
    var oc := ModuleOutcomes(env, mods);
    assert oc[1].hitTypes == map[] by {
      assert RunFiles(env, 1) == [];
    }
    ByTypeTwo(oc[0], oc[1]);
    assert oc == [oc[0], oc[1]];
  }

  lemma TwoModulesRetries(env: Env)
    requires ClassifyStdout(env.output(0, 0)) == Verdict(Failed, BUSY_REASON)
    requires ClassifyStdout(env.output(1, 0)).status == Skipped
    ensures Retried(env, 0) && !Retried(env, 1)
  {
    BusyReasonIsBusy();
  }

  lemma TwoPlansRetriedOnce(plans: seq<RunPlan>)
    requires |plans| == 2 && plans[0].retried && !plans[1].retried
    ensures RetriedCount(plans) == 1
  {
    assert plans[..1][..0] == [];
    assert RetriedCount(plans[..1]) == 1;
    assert plans[..2 - 1] == plans[..1];
  }

  lemma ByTypeTwo(a: Report.ModuleOutcome, b: Report.ModuleOutcome)
    requires b.hitTypes == map[]
    ensures Report.ByType([a, b]) == a.hitTypes
  {
    assert [a, b][..1] == [a];
    assert [a][..0] == [];
    var m := Report.ByType([a]);
    assert m == Report.AddCounts(Report.ByType([]), a.hitTypes);
    assert m == a.hitTypes;
    assert Report.ByType([a, b]) == Report.AddCounts(m, map[]);
  }
}
