/** The device-debugging transport as the scanner drives it: the quick reset,
    the readiness loop and the read of five device properties. Commands are
    recorded rather than run; the return codes and outputs they produce are
    supplied as oracles. */
module Transport {
  import opened Text

  /** The `adb` invocations the scanner issues. */
  datatype AdbCmd = Devices | KillServer | StartServer | WaitForDevice | Reconnect | Usb | ShellEcho | GetProp(key: string)

  /** `adb_quick_reset`: restart the server and wait for the device. */
  const QUICK_RESET: seq<AdbCmd> := [KillServer, StartServer, WaitForDevice]

  function QuickReset(adbPresent: bool): seq<AdbCmd> {
    if adbPresent then QUICK_RESET else []
  }

  /** One attempt of `adb_ensure_ready`: list, reset, reconnect, then probe the shell. */
  const ATTEMPT: seq<AdbCmd> := [Devices, KillServer, StartServer, WaitForDevice, Reconnect, Usb, ShellEcho]

  /** `n` attempts one after another. */
  function Attempts(n: nat): seq<AdbCmd> {
    if n == 0 then [] else Attempts(n - 1) + ATTEMPT
  }

  /** Index of the first successful probe among attempts `k`, ..., `maxAttempts - 1`
      (counted from 0), where `probe(k)` is the return code of the k-th probe. */
  function FirstSuccess(probe: nat -> int, maxAttempts: int, k: nat): (r: Option<nat>)
    ensures r.Some? ==> k <= r.value < maxAttempts && probe(r.value) == 0
    ensures r.Some? ==> forall j :: k <= j < r.value ==> probe(j) != 0
    ensures r.None? ==> forall j :: k <= j < maxAttempts ==> probe(j) != 0
    decreases maxAttempts - k
  {
    if k >= maxAttempts then None
    else if probe(k) == 0 then Some(k)
    else FirstSuccess(probe, maxAttempts, k + 1)
  }

  /** The attempts `adb_ensure_ready` makes: up to the first success, or all of them. */
  function AttemptsMade(probe: nat -> int, maxAttempts: int): nat {
    match FirstSuccess(probe, maxAttempts, 0)
    case Some(k) => k + 1
    case None => if maxAttempts > 0 then maxAttempts else 0
  }

  /** `adb_ensure_ready(max_attempts)`: without adb it fails at once and issues
      nothing; otherwise it repeats the attempt block until a shell probe returns
      0, at most `maxAttempts` times, and reports whether one did. */
  method AdbEnsureReady(adbPresent: bool, maxAttempts: int, probe: nat -> int) returns (ready: bool, cmds: seq<AdbCmd>)
    ensures !adbPresent ==> !ready && cmds == []
    ensures adbPresent ==> ready == FirstSuccess(probe, maxAttempts, 0).Some?
    ensures adbPresent ==> cmds == Attempts(AttemptsMade(probe, maxAttempts))
  {
    cmds := [];
    if !adbPresent {
      return false, cmds;
    }
    var attempt := 1;
    while attempt <= maxAttempts
      invariant 1 <= attempt
      invariant maxAttempts >= 0 ==> attempt <= maxAttempts + 1
      invariant maxAttempts < 0 ==> attempt == 1
      invariant forall j :: 0 <= j < attempt - 1 ==> probe(j) != 0
      invariant cmds == Attempts(attempt - 1)
    {
      cmds := cmds + [Devices, KillServer, StartServer, WaitForDevice, Reconnect, Usb, ShellEcho];
      var rc := probe(attempt - 1);
      if rc == 0 {
        FirstSuccessAt(probe, maxAttempts, attempt - 1);
        return true, cmds;
      }
      attempt := attempt + 1;
    }
    NoSuccess(probe, maxAttempts);
    return false, cmds;
  }

  lemma FirstSuccessAt(probe: nat -> int, maxAttempts: int, k: nat)
    requires k < maxAttempts && probe(k) == 0
    requires forall j :: 0 <= j < k ==> probe(j) != 0
    ensures FirstSuccess(probe, maxAttempts, 0) == Some(k)
  {
    var r := FirstSuccess(probe, maxAttempts, 0);
    assert r != None;
  }

  lemma NoSuccess(probe: nat -> int, maxAttempts: int)
    requires forall j :: 0 <= j < maxAttempts ==> probe(j) != 0
    ensures FirstSuccess(probe, maxAttempts, 0) == None
  {
  }

  /** Number of shell probes among the commands. */
  function ProbeCount(cmds: seq<AdbCmd>): nat {
    multiset(cmds)[ShellEcho]
  }

  /** Every attempt ends in exactly one shell probe. */
  lemma {:induction false} ProbesPerAttempt(n: nat)
    ensures ProbeCount(Attempts(n)) == n
    ensures |Attempts(n)| == 7 * n
  {
    if n > 0 {
      ProbesPerAttempt(n - 1);
      assert multiset(Attempts(n)) == multiset(Attempts(n - 1)) + multiset(ATTEMPT);
    }
  }

  /** The readiness loop probes at most `maxAttempts` times, reports success
      exactly when some probe among the first `maxAttempts` returns 0, and stops
      at the first probe that does. */
  lemma EnsureReadyProbes(probe: nat -> int, maxAttempts: int)
    ensures AttemptsMade(probe, maxAttempts) <= (if maxAttempts > 0 then maxAttempts else 0)
    ensures FirstSuccess(probe, maxAttempts, 0).Some? <==> exists j :: 0 <= j < maxAttempts && probe(j) == 0
    ensures FirstSuccess(probe, maxAttempts, 0).Some? ==>
      probe(AttemptsMade(probe, maxAttempts) - 1) == 0
      && forall j :: 0 <= j < AttemptsMade(probe, maxAttempts) - 1 ==> probe(j) != 0
    ensures ProbeCount(Attempts(AttemptsMade(probe, maxAttempts))) == AttemptsMade(probe, maxAttempts)
  {
    ProbesPerAttempt(AttemptsMade(probe, maxAttempts));
  }

  /** With the default two attempts and a device that never answers, the loop
      probes twice and gives up. */
  lemma DefaultAttemptsFail(probe: nat -> int)
    requires probe(0) != 0 && probe(1) != 0
    ensures AttemptsMade(probe, 2) == 2 && FirstSuccess(probe, 2, 0).None?
  {
  }

  // ---------------------------------------------------------------------------
  // Device properties.

  /** The five properties, in the dictionary's order. */
  const PROP_KEYS: seq<string> := [
    "ro.product.manufacturer", "ro.product.model", "ro.build.version.release",
    "ro.build.version.sdk", "ro.build.fingerprint"
  ]

  /** The property map, or the `IndexError` that whitespace-only output raises. */
  datatype PropsResult = Props(entries: seq<(string, string)>) | IndexError

  /** The value stored for one key, given the return code and output of its
      `getprop`; `None` is the raise of `"".splitlines()[0]`. */
  function PropValue(rc: int, out: string): Option<string> {
    if rc != 0 then Some("")
    else if out == "" then Some("")
    else
      var lines := SplitLines(Strip(out));
      if lines == [] then None else Some(lines[0])
  }

  /** A value is read only from a successful `getprop`; it is the first line of
      the stripped output, so it holds no line break, does not start with
      whitespace and is non-empty when the output holds anything but whitespace;
      the read fails exactly for non-empty all-whitespace output. */
  lemma PropValueShape(rc: int, out: string)
    ensures PropValue(rc, out).None? <==>
      rc == 0 && out != "" && forall k :: 0 <= k < |out| ==> IsSpace(out[k])
    ensures rc != 0 ==> PropValue(rc, out) == Some("")
    ensures PropValue(rc, out).Some? ==>
      var v := PropValue(rc, out).value;
      Unbroken(v) && (v == "" || !IsSpace(v[0]))
    ensures rc == 0 && (exists k :: 0 <= k < |out| && !IsSpace(out[k])) ==>
      PropValue(rc, out).Some? && PropValue(rc, out).value != ""
  {
    var t := Strip(out);
    StripShape(out);
    SplitLinesShape(t);
    if rc == 0 && t != [] {
      var lines := SplitLines(t);
      var k := NextBreak(t, 0);
      assert lines[0] in lines;
      assert lines[0] == t[..k];
      assert !IsLineBreak(t[0]);
      assert lines[0][0] == t[0];
    }
  }

  /** The value recorded for each key, or the first failure. */
  function PropsFrom(adbPresent: bool, getprop: string -> (int, string), keys: seq<string>): PropsResult {
    if keys == [] then Props([])
    else
      match PropsFrom(adbPresent, getprop, keys[..|keys| - 1])
      case IndexError => IndexError
      case Props(entries) =>
        var k := keys[|keys| - 1];
        if !adbPresent then Props(entries + [(k, "")])
        else
          var (rc, out) := getprop(k);
          match PropValue(rc, out)
          case None => IndexError
          case Some(v) => Props(entries + [(k, v)])
  }

  /** `get_device_props`: each of the five keys maps to the first line of its
      `getprop` output when the read succeeds, and to "" otherwise or without adb. */
  method GetDeviceProps(adbPresent: bool, getprop: string -> (int, string)) returns (r: PropsResult)
    ensures r == PropsFrom(adbPresent, getprop, PROP_KEYS)
  {
    var entries: seq<(string, string)> := [];
    var i := 0;
    while i < |PROP_KEYS|
      invariant 0 <= i <= |PROP_KEYS|
      invariant PropsFrom(adbPresent, getprop, PROP_KEYS[..i]) == Props(entries)
    {
      var k := PROP_KEYS[i];
      assert PROP_KEYS[..i + 1][..i] == PROP_KEYS[..i];
      if !adbPresent {
        entries := entries + [(k, "")];
      } else {
        var (rc, out) := getprop(k);
        var v := "";
        if rc == 0 {
          if out != "" {
            var lines := SplitLines(Strip(out));
            if lines == [] {
              assert PropsFrom(adbPresent, getprop, PROP_KEYS[..i + 1]) == IndexError;
              IndexErrorPersists(adbPresent, getprop, PROP_KEYS, i + 1);
              assert PROP_KEYS[..|PROP_KEYS|] == PROP_KEYS;
              return IndexError;
            }
            v := lines[0];
          }
        }
        entries := entries + [(k, v)];
      }
      i := i + 1;
    }
    assert PROP_KEYS[..i] == PROP_KEYS;
    return Props(entries);
  }

  lemma {:induction false} IndexErrorPersists(adbPresent: bool, getprop: string -> (int, string), keys: seq<string>, i: nat)
    requires i <= |keys| && PropsFrom(adbPresent, getprop, keys[..i]) == IndexError
    ensures PropsFrom(adbPresent, getprop, keys[..|keys|]) == IndexError
    decreases |keys| - i
  {
    if i < |keys| {
      assert keys[..i + 1][..i] == keys[..i];
      IndexErrorPersists(adbPresent, getprop, keys, i + 1);
    }
  }

  /** The property block lists the keys in order, each once, with the value its
      `getprop` gives; without adb every value is empty. */
  lemma {:induction false} PropsFromShape(adbPresent: bool, getprop: string -> (int, string), keys: seq<string>)
    ensures PropsFrom(adbPresent, getprop, keys).Props? ==>
      var e := PropsFrom(adbPresent, getprop, keys).entries;
      |e| == |keys| && forall j :: 0 <= j < |keys| ==> (e[j].0 == keys[j]
        && (if adbPresent then PropValue(getprop(keys[j]).0, getprop(keys[j]).1) == Some(e[j].1) else e[j].1 == ""))
    ensures !adbPresent ==> PropsFrom(adbPresent, getprop, keys).Props?
    ensures PropsFrom(adbPresent, getprop, keys).IndexError? <==>
      adbPresent && exists j :: 0 <= j < |keys| && PropValue(getprop(keys[j]).0, getprop(keys[j]).1).None?
  {
    if keys != [] {
      var init := keys[..|keys| - 1];
      PropsFromShape(adbPresent, getprop, init);
      var k := keys[|keys| - 1];
      if PropsFrom(adbPresent, getprop, keys).IndexError? && PropsFrom(adbPresent, getprop, init).Props? {
        assert PropValue(getprop(keys[|keys| - 1]).0, getprop(keys[|keys| - 1]).1).None?;
      }
      if adbPresent && PropsFrom(adbPresent, getprop, init).IndexError? {
        var j :| 0 <= j < |init| && PropValue(getprop(init[j]).0, getprop(init[j]).1).None?;
        assert keys[j] == init[j];
      }
      if adbPresent && exists j :: 0 <= j < |keys| && PropValue(getprop(keys[j]).0, getprop(keys[j]).1).None? {
        var j :| 0 <= j < |keys| && PropValue(getprop(keys[j]).0, getprop(keys[j]).1).None?;
        if j < |init| {
          assert init[j] == keys[j];
        }
      }
    }
  }

  /** The five fixed keys always appear, in order, when the read does not fail. */
  lemma DevicePropsKeys(adbPresent: bool, getprop: string -> (int, string))
    ensures PropsFrom(adbPresent, getprop, PROP_KEYS).Props? ==>
      var e := PropsFrom(adbPresent, getprop, PROP_KEYS).entries;
      |e| == 5 && forall j :: 0 <= j < 5 ==> e[j].0 == PROP_KEYS[j]
  {
    PropsFromShape(adbPresent, getprop, PROP_KEYS);
  }
}
