/** The output classifier: a first-match-wins list of rules over the lowercased
    text that one `mvt-android check-adb` invocation printed, and the test that
    decides whether that result calls for the single busy-retry. */
module Classifier {
  import opened Text
  import opened Patterns

  datatype Status = Clean | Hits | Skipped | Failed

  /** The status strings the program prints and compares. */
  function StatusName(st: Status): string {
    match st
    case Clean => "CLEAN"
    case Hits => "HITS"
    case Skipped => "SKIPPED"
    case Failed => "FAILED"
  }

  /** The `(status, reason)` pair the classifier returns. */
  datatype Verdict = Verdict(status: Status, reason: string)

  // The longer reasons are spelled in pieces so that the verifier can index them.
  const BUSY_REASON: string := "ADB busy; run 'adb " + "kill-server" + "' and 'adb " + "start-server" + "'."
  const UNAUTHORIZED_REASON: string :=
    "Device unauthorized \U{2014} " + "unlock phone and " + "accept RSA fingerprint."
  const OFFLINE_REASON: string :=
    "Device offline \U{2014} " + "reconnect cable and " + "ensure USB debugging is enabled."
  const NO_PERMISSION_REASON: string := "not rooted/no permission"
  const TOOL_ERROR_REASON: string := "unexpected tool error"

  const BUSY_MARKER: string := "device is busy"
  const UNAUTHORIZED_MARKER: string := "unauthorized"
  const OFFLINE_MARKER: string := "device offline"
  const PERMISSION_MARKERS: seq<string> :=
    ["permission denied", "not permitted", "root", "access denied", "no such table: history"]
  const ERROR_MARKERS: seq<string> := ["error:", "traceback", "exception", "failed", "critical"]
  /** `\bmatch|indicator hit|suspicious|ioc\b` */
  const HITS_PATTERN: Pattern := Alternatives([
    Alt(true, "match", false), Alt(false, "indicator hit", false),
    Alt(false, "suspicious", false), Alt(false, "ioc", true)])

  lemma HitsPatternValid()
    ensures ValidPattern(HITS_PATTERN)
  {
  }

  /** One of `markers` occurs in `s`, as a `re.search` over `a|b|...` does. */
  predicate ContainsAny(s: string, markers: seq<string>) {
    exists k | 0 <= k < |markers| :: Contains(s, markers[k])
  }

  predicate HasHitMarker(s: string) {
    HitsPatternValid();
    Search(s, HITS_PATTERN)
  }

  /** `classify_stdout`: the seven rules in their priority order. */
  function ClassifyStdout(stdout: string): Verdict {
    var s := Lower(stdout);
    if Contains(s, BUSY_MARKER) then Verdict(Failed, BUSY_REASON)
    else if Contains(s, UNAUTHORIZED_MARKER) then Verdict(Failed, UNAUTHORIZED_REASON)
    else if Contains(s, OFFLINE_MARKER) then Verdict(Failed, OFFLINE_REASON)
    else if ContainsAny(s, PERMISSION_MARKERS) then Verdict(Skipped, NO_PERMISSION_REASON)
    else if ContainsAny(s, ERROR_MARKERS) then Verdict(Failed, TOOL_ERROR_REASON)
    else if HasHitMarker(s) then Verdict(Hits, "")
    else Verdict(Clean, "")
  }

  /** `_is_adb_busy`: a FAILED result whose `"status reason"` text mentions "busy". */
  predicate IsAdbBusy(status: Status, reason: string) {
    var s := Lower(StatusName(status) + " " + reason);
    status == Failed && (Contains(s, "busy") || Contains(s, "device is busy"))
  }

  /** No recognised marker of any rule occurs in the lowercased text. */
  predicate NoMarker(s: string) {
    && !Contains(s, BUSY_MARKER) && !Contains(s, UNAUTHORIZED_MARKER) && !Contains(s, OFFLINE_MARKER)
    && !ContainsAny(s, PERMISSION_MARKERS) && !ContainsAny(s, ERROR_MARKERS) && !HasHitMarker(s)
  }

  /** Busy text fails with the kill-server/start-server remedy whatever else it holds. */
  lemma BusyDominates(stdout: string)
    requires Contains(Lower(stdout), BUSY_MARKER)
    ensures ClassifyStdout(stdout) == Verdict(Failed, BUSY_REASON)
    ensures Contains(ClassifyStdout(stdout).reason, "kill-server")
    ensures Contains(ClassifyStdout(stdout).reason, "start-server")
  {
    assert OccursAt(BUSY_REASON, "kill-server", 19);
    assert OccursAt(BUSY_REASON, "start-server", 41);
  }

  lemma BusyReasonIsBusy()
    ensures IsAdbBusy(Failed, BUSY_REASON)
  {
    var x := "FAILED" + " " + BUSY_REASON;
    assert x[11] == 'b';
    assert x[12] == 'u';
    assert x[13] == 's';
    assert x[14] == 'y';
    assert Lower(x)[11..15] == "busy";
    assert OccursAt(Lower(x), "busy", 11);
  }

  /** The other FAILED reasons lack a letter of "busy" in either case. */
  lemma UnauthorizedNotBusy()
    ensures !IsAdbBusy(Failed, UNAUTHORIZED_REASON)
  {
    var x := "FAILED" + " " + UNAUTHORIZED_REASON;
    LowerLacks(x, 'b', 'B');
    NotContainsChar(Lower(x), "busy", 'b');
    NotContainsChar(Lower(x), "device is busy", 'b');
  }

  lemma OfflineNotBusy()
    ensures !IsAdbBusy(Failed, OFFLINE_REASON)
  {
    var x := "FAILED" + " " + OFFLINE_REASON;
    OfflineLacksY();
    LowerLacks(x, 'y', 'Y');
    NotContainsChar(Lower(x), "busy", 'y');
    NotContainsChar(Lower(x), "device is busy", 'y');
  }

  lemma OfflineLacksY()
    ensures var x := "FAILED" + " " + OFFLINE_REASON; 'y' !in x && 'Y' !in x
  {
    OfflinePieceLacksY("Device offline \U{2014} ");
    OfflinePieceLacksY("reconnect cable and ");
    OfflinePieceLacksY("ensure USB ");
    OfflinePieceLacksY("debugging is enabled.");
    assert OFFLINE_REASON == "Device offline \U{2014} " + "reconnect cable and " + ("ensure USB " + "debugging is enabled.");
  }

  lemma OfflinePieceLacksY(p: string)
    requires p in {"Device offline \U{2014} ", "reconnect cable and ", "ensure USB ", "debugging is enabled."}
    ensures 'y' !in p && 'Y' !in p
  {
  }

  lemma ToolErrorNotBusy()
    ensures !IsAdbBusy(Failed, TOOL_ERROR_REASON)
  {
    var x := "FAILED" + " " + TOOL_ERROR_REASON;
    LowerLacks(x, 'b', 'B');
    NotContainsChar(Lower(x), "busy", 'b');
    NotContainsChar(Lower(x), "device is busy", 'b');
  }

  /** The retry trigger fires on exactly the busy results: no other reason the
      classifier produces mentions "busy". */
  lemma BusyRetryExactly(stdout: string)
    ensures var v := ClassifyStdout(stdout);
            IsAdbBusy(v.status, v.reason) <==> Contains(Lower(stdout), BUSY_MARKER)
  {
    BusyReasonIsBusy();
    UnauthorizedNotBusy();
    OfflineNotBusy();
    ToolErrorNotBusy();
  }

  /** The permission rule outranks the generic-error rule. */
  lemma PermissionOutranksError(stdout: string, k: nat, j: nat)
    requires var s := Lower(stdout);
             !Contains(s, BUSY_MARKER) && !Contains(s, UNAUTHORIZED_MARKER) && !Contains(s, OFFLINE_MARKER)
    requires k < |PERMISSION_MARKERS| && Contains(Lower(stdout), PERMISSION_MARKERS[k])
    requires j < |ERROR_MARKERS| && Contains(Lower(stdout), ERROR_MARKERS[j])
    ensures ClassifyStdout(stdout) == Verdict(Skipped, NO_PERMISSION_REASON)
  {
  }

  /** CLEAN is exactly the absence of every marker, and it carries no reason. */
  lemma CleanIffNoMarker(stdout: string)
    ensures ClassifyStdout(stdout).status == Clean <==> NoMarker(Lower(stdout))
    ensures ClassifyStdout(stdout).status == Clean ==> ClassifyStdout(stdout).reason == ""
  {
  }

  lemma EmptyIsClean()
    ensures ClassifyStdout("") == Verdict(Clean, "")
  {
    HitsPatternValid();
    assert !HasHitMarker("");
  }

  /** The verdict depends only on the lowercased text. */
  lemma ClassifyIgnoresCase(stdout: string)
    ensures ClassifyStdout(Lower(stdout)) == ClassifyStdout(stdout)
  {
    LowerIdempotent(stdout);
  }

  /** A reason is given exactly for FAILED and SKIPPED results. */
  lemma ReasonIffNotOk(stdout: string)
    ensures var v := ClassifyStdout(stdout);
            v.reason != "" <==> v.status == Failed || v.status == Skipped
  {
  }

  /** The self-test's busy text. */
  lemma BusySample()
    ensures ClassifyStdout("Error: Device is busy. Try again.") == Verdict(Failed, BUSY_REASON)
  {
    var a, b, c := "Error: ", "Device is busy", ". Try again.";
    assert a + b + c == "Error: Device is busy. Try again.";
    LowerConcat(a + b, c);
    LowerConcat(a, b);
    assert Lower(a) == "error: ";
    assert Lower(b) == "device is busy";
    ContainsMiddle("error: ", "device is busy", Lower(c));
  }

  /** The permission rule applies once none of the three connection rules does. */
  lemma PermissionRule(stdout: string)
    requires var s := Lower(stdout);
             !Contains(s, BUSY_MARKER) && !Contains(s, UNAUTHORIZED_MARKER) && !Contains(s, OFFLINE_MARKER)
    requires ContainsAny(Lower(stdout), PERMISSION_MARKERS)
    ensures ClassifyStdout(stdout) == Verdict(Skipped, NO_PERMISSION_REASON)
  {
  }

  /** Which markers the self-test's permission text holds: it lacks a letter of
      each connection marker and starts with "permission denied". */
  lemma PermissionSampleNotBusy(s: string)
    requires s == "permission denied for history db"
    ensures !Contains(s, BUSY_MARKER)
  {
    NotContainsChar(s, BUSY_MARKER, 'u');
  }

  lemma PermissionSampleNotUnauthorized(s: string)
    requires s == "permission denied for history db"
    ensures !Contains(s, UNAUTHORIZED_MARKER)
  {
    NotContainsChar(s, UNAUTHORIZED_MARKER, 'z');
  }

  lemma PermissionSampleNotOffline(s: string)
    requires s == "permission denied for history db"
    ensures !Contains(s, OFFLINE_MARKER)
  {
    NotContainsChar(s, OFFLINE_MARKER, 'v');
  }

  lemma PermissionSampleMarker(s: string)
    requires s == "permission denied for history db"
    ensures ContainsAny(s, PERMISSION_MARKERS)
  {
    assert OccursAt(s, PERMISSION_MARKERS[0], 0);
  }

  /** The self-test's permission text is SKIPPED. */
  lemma PermissionSample(stdout: string)
    requires stdout == "permission denied for history db"
    ensures ClassifyStdout(stdout) == Verdict(Skipped, NO_PERMISSION_REASON)
  {
    assert Lower(stdout) == stdout;
    PermissionSampleNotBusy(stdout);
    PermissionSampleNotUnauthorized(stdout);
    PermissionSampleNotOffline(stdout);
    PermissionSampleMarker(stdout);
    PermissionRule(stdout);
  }

  /** Output in which no connection, permission or error marker occurs but a word
      starts with "match" is HITS: `\bmatch` only asks for a word start, so the
      "matches" of "No matches found." counts as a hit. */
  lemma WordStartMatchIsHits(stdout: string, i: nat)
    requires var s := Lower(stdout);
      && !Contains(s, BUSY_MARKER) && !Contains(s, UNAUTHORIZED_MARKER) && !Contains(s, OFFLINE_MARKER)
      && !ContainsAny(s, PERMISSION_MARKERS) && !ContainsAny(s, ERROR_MARKERS)
    requires OccursAt(Lower(stdout), "match", i) && (i == 0 || !IsWordChar(Lower(stdout)[i - 1]))
    ensures ClassifyStdout(stdout) == Verdict(Hits, "")
  {
    HitsPatternValid();
    var s := Lower(stdout);
    assert IsWordChar(s[i]) by { assert s[i..i + 5][0] == s[i]; }
    assert AltMatchesAt(s, HITS_PATTERN.alts[0], i);
    assert MatchEnd(s, HITS_PATTERN, i).Some?;
  }
}
