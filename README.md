# Phone Guardian Pro: scan core

This project models the scanning core of `PhoneGuardianPro.py` in Dafny. That
program drives the Mobile Verification Toolkit (`mvt-android check-adb`) against
a phone connected over `adb`. It then reads what the scanner printed and the
files it wrote, and produces a per-module verdict and a `summary.txt`.

The model covers these parts:

- **Text** (`Text.dfy`):
  - ASCII lower-casing;
  - `str.strip` over Python's whitespace set;
  - `str.splitlines`;
  - decimal rendering and reading of naturals;
  - the code-point order that `sorted` uses on strings.
- **Patterns** (`Patterns.dfy`): the regular expressions of the hit keywords and the
  hits rule. Each is a set of literal alternatives with optional `\b` word
  boundaries, matched case-insensitively. Also the JSON "matched" marker.
  `re.search` and the counting of `len(re.findall(...))` are both modelled.
- **Classifier** (`Classifier.dfy`): `classify_stdout`, the ordered rule list
  that maps scanner output to CLEAN, HITS, SKIPPED or FAILED with a reason.
  Also `_is_adb_busy`, which decides the retry.
- **Parsers** (`Parsers.dfy`):
  - `parse_indicator_defs`;
  - `parse_mvt_version`;
  - the module-list parsing of `mvt_list_modules`.
  Each is modelled as a leftmost regular-expression search.
- **HitAggregator** (`HitAggregator.dfy`):
  - `HIT_KEYWORDS`;
  - `count_hits_in_files`, with JSON, CSV/TSV and plain-text artifacts;
  - `new_files_since`, with its 0.5 s tolerance.
- **IocNames** (`IocNames.dfy`):
  - `KNOWN_NAME_MAP`;
  - `friendly_ioc_name`, with its pathlib `stem`/`suffix`;
  - `header_known_sets`: de-duplicated in order, capped, with the built-in fallback list.
- **Transport** (`Transport.dfy`):
  - `adb_quick_reset`;
  - `adb_ensure_ready`, as a retry loop over probe return codes;
  - `get_device_props`.
- **Report** (`Report.dfy`): `ModuleOutcome` and `write_summary`. This covers
  the aggregation of hit types, the line layout, the sorted type block, and the
  text written to `summary.txt`.
- **Orchestrator** (`Orchestrator.dfy`): `scan_all_modules` and
  `scan_module_by_module`. Each run invokes the scanner, classifies its output,
  and retries once after a reset if the transport is busy. It then counts the
  hits in the files created since the run began, and finally writes the summary.

The program's contact with the outside world is passed in as parameters
(oracles) of an `Env` value:

- the scanner's output for each run and attempt;
- the return codes of the readiness probes;
- the clock, in integer milliseconds;
- the output directory listing, with each file's `is_file` and `mtime`;
- the files' contents as each run reads them (a later module may find new content at a path of the shared output directory), with CSV rows already split into fields;
- the `getprop` results;
- the timestamp string;
- the detected tool versions.

Each `adb` command and each scanner invocation is recorded as an event in a
trace, not executed. The model never runs anything.

Where the program's documented behaviour and its code disagree, the model follows the
code:

- **"No matches found." counts as HITS.** Output containing "No matches found."
  is classified HITS, not CLEAN, because the hits rule `\bmatch` also matches
  the start of "matches" (`Classifier.WordStartMatchIsHits`). The indicator
  count on the same output is still read (`Parsers.DefsBeforeNoMatches`).
- **The readiness verdict is ignored.** The flows discard the result of
  `adb_ensure_ready` and invoke the scanner regardless. Outcomes and the
  summary do not depend on the probe results
  (`Orchestrator.ProbesIgnoredAll`, `Orchestrator.ProbesIgnoredByModule`).
- **Reason texts and per-type counts follow the code.** The reason texts are
  the literal strings in `classify_stdout`. A table's per-type counts count
  matching rows, one per row and category, not keyword occurrences.
- **`get_device_props` can crash.** If a successful `getprop` prints only
  whitespace, the code raises `IndexError` (the first line of an empty
  `splitlines()`). The model keeps this: `PropsResult.IndexError`, after which
  no summary is written (`Transport.PropValueShape`,
  `Transport.PropsFromShape`).
- **The scanner's return code is ignored.** The flows classify only the
  scanner's output and never look at `rc`. An invocation that fails with empty
  output is therefore CLEAN (`Classifier.EmptyIsClean`). This includes the
  `(1, "")` that `run_cmd` returns when starting the command raises
  (PhoneGuardianPro.py:228-233). The scanner oracle accordingly gives output only.

## Model

| member | source | states |
|---|---|---|
| Classifier.BusyDominates | PhoneGuardianPro.py:515-518 | Whenever the lower-cased output contains "device is busy", the verdict is FAILED with the busy reason, whatever else the output holds. The reason names both `adb kill-server` and `adb start-server`. |
| Classifier.BusyRetryExactly | PhoneGuardianPro.py:515-533 | The retry test holds for a classification exactly when the lower-cased output contains "device is busy". |
| Classifier.BusyReasonIsBusy | PhoneGuardianPro.py:531-533 | The busy verdict triggers the retry. |
| Classifier.UnauthorizedNotBusy | PhoneGuardianPro.py:519-520 | The unauthorized verdict does not trigger the retry, although it is FAILED. |
| Classifier.OfflineNotBusy | PhoneGuardianPro.py:521-522 | The offline verdict does not trigger the retry. |
| Classifier.ToolErrorNotBusy | PhoneGuardianPro.py:525-526 | The generic tool-error verdict does not trigger the retry. |
| Classifier.PermissionRule | PhoneGuardianPro.py:523-524 | With no busy, unauthorized or offline marker, any permission marker gives SKIPPED, "not rooted/no permission". |
| Classifier.PermissionOutranksError | PhoneGuardianPro.py:523-526 | Output holding both a permission marker and an error marker is SKIPPED, not FAILED. |
| Classifier.WordStartMatchIsHits | PhoneGuardianPro.py:527-528 | If no earlier rule fires, "match" at a word start gives HITS with an empty reason. |
| Classifier.CleanIffNoMarker | PhoneGuardianPro.py:515-529 | The verdict is CLEAN exactly when no rule's marker occurs in the lower-cased text. A CLEAN verdict has an empty reason. |
| Classifier.EmptyIsClean | PhoneGuardianPro.py:529 | Empty output is CLEAN with an empty reason. |
| Classifier.ClassifyIgnoresCase | PhoneGuardianPro.py:516 | Classifying the lower-cased output gives the same verdict as classifying the output itself. |
| Classifier.ReasonIffNotOk | PhoneGuardianPro.py:515-529 | A verdict carries a non-empty reason exactly when it is FAILED or SKIPPED. |
| Classifier.BusySample | PhoneGuardianPro.py:1049-1051 | "Error: Device is busy. Try again." is FAILED with the busy reason. |
| Classifier.PermissionSample | PhoneGuardianPro.py:1052-1054 | "permission denied for history db" is SKIPPED. |
| Patterns.SearchIffFindAll | PhoneGuardianPro.py:544-574 | `re.search` finds a keyword pattern exactly when `re.findall` counts at least one match. |
| Patterns.CountFromBound | PhoneGuardianPro.py:544-546 | The number of non-overlapping matches from position i is at most the length of the rest of the text. |
| Parsers.DefsOfSentence | PhoneGuardianPro.py:511-513 | Output in which "Loaded a total of N unique indicators" follows text holding no l or L yields N, for every natural N written in decimal. |
| Parsers.DefsAbsent | PhoneGuardianPro.py:513 | Output with no match of the pattern at any position yields 0. |
| Parsers.DefsLeftmost | PhoneGuardianPro.py:512-513 | When the leftmost match is at p, the count is the decimal value of that match's digit group. |
| Parsers.DefsBeforeNoMatches | PhoneGuardianPro.py:511-513 | "Loaded a total of 42 unique indicators" followed by "No matches found." yields 42. |
| Parsers.ParseMvtVersion | PhoneGuardianPro.py:341-343 | The result is absent exactly when "Version:" followed by spaces and at least one digit or dot matches nowhere, case-insensitively. A present result is a non-empty run of digits and dots. |
| Parsers.VersionLeftmost | PhoneGuardianPro.py:342-343 | When the leftmost match is at p, the result is that match's group, taken from the original, not lower-cased, text. |
| Parsers.VersionOfLine | PhoneGuardianPro.py:341-343 | A "Version: v" line with no match of the pattern starting before it yields v, whatever follows a non-version character. |
| Parsers.VersionSample | PhoneGuardianPro.py:1034-1036 | The sample help banner yields "2.7.1". |
| Parsers.ModuleName | PhoneGuardianPro.py:428-430 | A module name taken from a line is a non-empty run of letters, digits and underscores. |
| Parsers.ModuleNameOfItem | PhoneGuardianPro.py:428-430 | The line "- name" yields name, for any non-empty word name. |
| Parsers.ModuleNamesAreWords | PhoneGuardianPro.py:427-430 | Every listed module name is a non-empty word. |
| Parsers.ModuleNamesBound | PhoneGuardianPro.py:427-430 | A listing yields at most one module per line. |
| Parsers.ModuleNamesAppend | PhoneGuardianPro.py:427-430 | Lines are parsed independently: the names of two listings concatenated are the concatenation of their names. |
| Parsers.ListModules | PhoneGuardianPro.py:421-431 | Without the scanner, both the list and the raw text are empty. Otherwise the list holds the names of the output's lines, in order, and the raw output is returned. |
| Parsers.ModuleListOfFour | PhoneGuardianPro.py:427-430 | A newline-terminated listing of four "- name" items yields those four names in order. |
| Parsers.ModuleListSample | PhoneGuardianPro.py:1039-1046 | The sample listing yields ChromeHistory, Dumpsys, Packages and Processes. |
| HitAggregator.CategoryNameInjective | PhoneGuardianPro.py:493-500 | The six hit categories have distinct names. |
| HitAggregator.KeywordPattern | PhoneGuardianPro.py:493-500 | Every category's pattern is a well-formed set of literal alternatives. |
| HitAggregator.CountHitsInFiles | PhoneGuardianPro.py:535-575 | The loop's total and per-type map equal the aggregate of the files. |
| HitAggregator.CountRows | PhoneGuardianPro.py:562-567 | The row loop equals the row step of the tally. |
| HitAggregator.CountKeywords | PhoneGuardianPro.py:545-548 | The keyword loop over a text equals the bumps of the categories' `findall` counts. |
| HitAggregator.CountRowKeywords | PhoneGuardianPro.py:565-567 | The keyword loop over a row equals the bumps of one per matching category. |
| HitAggregator.AggregateIsSum | PhoneGuardianPro.py:535-575 | The total is the sum of the per-file totals. Each category's count is the sum of its per-file hits. A category is a key of the map exactly when that sum is positive. |
| HitAggregator.AggregateKeys | PhoneGuardianPro.py:547-548 | Every key of the per-type map is a category name with a positive count. |
| HitAggregator.TableContribution | PhoneGuardianPro.py:549-567 | A CSV/TSV file adds one to the total per row after the header. No category counts more hits than that. |
| HitAggregator.ThreeRowTable | PhoneGuardianPro.py:561-563 | A table of a header and three rows adds 3 to the total. |
| HitAggregator.PlainAndUnreadable | PhoneGuardianPro.py:539-542 | A plain-text file adds nothing to the total. An unreadable JSON or plain file adds nothing at all. |
| HitAggregator.KindIgnoresCase | PhoneGuardianPro.py:543 | A listed path whose file name ends in ".JSON" is treated as JSON, in any directory. The kind comes from the listed path itself. |
| HitAggregator.FileStepCount | PhoneGuardianPro.py:538-574 | One file adds its own total and, per category, its own hits. |
| HitAggregator.RowsStepCount | PhoneGuardianPro.py:562-567 | Rows add their number to the total and, per category, the number of rows it matches. |
| HitAggregator.TextBumpsCount | PhoneGuardianPro.py:545-548 | Each category's entry grows by the `findall` count of its pattern in the text. |
| HitAggregator.RowBumpsCount | PhoneGuardianPro.py:565-567 | Each category's entry grows by one if its pattern is found in the joined row. |
| HitAggregator.NewFilesSince | PhoneGuardianPro.py:577-585 | The loop's result equals the recent files of the listing. |
| HitAggregator.RecentMembers | PhoneGuardianPro.py:579-584 | A path is kept exactly when some listed entry is a readable regular file with mtime no earlier than 500 ms before the mark. |
| HitAggregator.RecentOrder | PhoneGuardianPro.py:579-584 | The kept paths are those of the recent regular files, listed at strictly increasing positions of the listing, an entry's position among them exactly when it is recent. |
| HitAggregator.PicksInOrder | PhoneGuardianPro.py:579-584 | The witness positions are strictly increasing, each one of a recent regular file whose path is the kept path at that place. |
| HitAggregator.PicksComplete | PhoneGuardianPro.py:579-584 | A position is among the witness positions exactly when its entry is a recent regular file. |
| IocNames.LastDot | PhoneGuardianPro.py:305 | The position found is the last dot in the name. |
| IocNames.BaseNameShape | PhoneGuardianPro.py:543 | `Path.name` of a POSIX path is the part after its last '/': a '/'-free tail of the path, preceded by a '/' unless it is the whole path. |
| IocNames.BaseNameInDir | PhoneGuardianPro.py:543 | A file's name is its own name, whatever the directory it sits in. |
| IocNames.StemSuffixSplit | PhoneGuardianPro.py:305 | The stem and suffix concatenate back to the name. A non-empty suffix is a dot and at least one non-dot character, after a non-empty stem. |
| IocNames.FirstKnown | PhoneGuardianPro.py:302-304 | The index found is the first table key contained in the name. |
| IocNames.FriendlyIocNameCases | PhoneGuardianPro.py:300-305 | A name containing a known key gets the label of the first such key in table order. Otherwise the result is a contiguous slice of the stem with underscores turned to spaces, cut only of whitespace at either end, with no underscore and no whitespace at its ends. |
| IocNames.FriendlyPegasus | PhoneGuardianPro.py:263-264 | "pegasus.stix2" is "NSO Group Pegasus". |
| IocNames.DedupShape | PhoneGuardianPro.py:310-313 | De-duplication keeps exactly the elements of the input, each once. |
| IocNames.DedupOrder | PhoneGuardianPro.py:310-313 | De-duplication keeps the order of first occurrence. |
| IocNames.DedupPrefix | PhoneGuardianPro.py:311-315 | De-duplicating a prefix gives a prefix of the de-duplication of a longer prefix. |
| IocNames.SliceTo | PhoneGuardianPro.py:322 | `out[:n]` is a prefix of length n clamped to the list, counted from the end for negative n. |
| IocNames.HeaderKnownSets | PhoneGuardianPro.py:307-322 | The loop's result equals the header names of the installed files. |
| IocNames.HeaderNamesDistinct | PhoneGuardianPro.py:310-322 | The header names hold no duplicate. For a non-negative cap there are at most that many. |
| IocNames.HeaderNamesFallback | PhoneGuardianPro.py:316-322 | With no installed file, the names are the built-in list, capped. |
| IocNames.HeaderNamesFromFiles | PhoneGuardianPro.py:308-315 | With installed files, the names are a prefix of the de-duplicated friendly names. Each comes from some file. |
| IocNames.HeaderWithoutFiles | PhoneGuardianPro.py:307-321 | With no file and the default cap of 8, all eight built-in names appear. |
| IocNames.FallbackDistinct | PhoneGuardianPro.py:317-321 | The built-in list holds no duplicate. |
| Transport.FirstSuccess | PhoneGuardianPro.py:604-618 | The attempt found is the first one whose probe returns 0. |
| Transport.AdbEnsureReady | PhoneGuardianPro.py:599-620 | Without adb: not ready and no command. Otherwise: ready exactly when some probe within the attempts succeeds. The commands are the seven-command attempts made up to and including the first success. |
| Transport.FirstSuccessAt | PhoneGuardianPro.py:616-618 | A probe that succeeds after failures only ends the loop at that attempt. |
| Transport.NoSuccess | PhoneGuardianPro.py:619-620 | If every probe fails, the loop reports no success. |
| Transport.ProbesPerAttempt | PhoneGuardianPro.py:605-616 | n attempts issue 7n commands, n of them shell probes. |
| Transport.EnsureReadyProbes | PhoneGuardianPro.py:599-620 | At most the maximum number of attempts is made. The loop succeeds exactly when some probe succeeds, and then its last probe is the first success. It probes once per attempt. |
| Transport.DefaultAttemptsFail | PhoneGuardianPro.py:599-620 | With the default two attempts and both probes failing, both attempts run and the result is not ready. |
| Transport.PropValueShape | PhoneGuardianPro.py:634-636 | A failed `getprop` leaves "". Otherwise the value is the first line of the stripped output: no line break and no leading whitespace, and non-empty if the output has a non-space character. The read raises exactly for non-empty all-whitespace output. |
| Transport.GetDeviceProps | PhoneGuardianPro.py:622-637 | The loop's result equals the property map read key by key. |
| Transport.PropsFromShape | PhoneGuardianPro.py:623-637 | A successful read has one entry per key, in order. Each value is the key's read, or "" without adb. Without adb nothing raises. A read raises exactly when some key's output does. |
| Transport.IndexErrorPersists | PhoneGuardianPro.py:633-636 | Once a key's read raises, the whole read raises. |
| Transport.DevicePropsKeys | PhoneGuardianPro.py:623-629 | A successful read holds the five property keys in their declared order. |
| Report.ByTypeIsSum | PhoneGuardianPro.py:640-643 | Each type's count is the sum of that type over the outcomes. A type is a key exactly when some outcome lists it. |
| Report.SumHitTypes | PhoneGuardianPro.py:640-643 | The loop's map equals the summed map of the outcomes. |
| Report.AddInto | PhoneGuardianPro.py:642-643 | Adding one outcome's map into the running map gives their key-wise sum. |
| Report.SortedKeys | PhoneGuardianPro.py:666 | The keys are listed in strictly increasing code-point order, each key once, and nothing else. |
| Report.SortedUnique | PhoneGuardianPro.py:666 | Only one strictly sorted sequence has a given set of elements. |
| Report.SummaryLayout | PhoneGuardianPro.py:644-667 | The summary is, in this order: five header lines, one line per property, a blank line, "Modules run:", one line per outcome, a blank line, and the type block. |
| Report.ModuleLineShape | PhoneGuardianPro.py:656-662 | A HITS line is the name, the status and " — hits: " followed by the hit total in decimal, which reads back as that total. A FAILED or SKIPPED line with a reason ends with a dash and the reason. Any other line is the module name and status alone. |
| Report.TypeBlockShape | PhoneGuardianPro.py:664-667 | The block is empty exactly when no hit type was counted. Otherwise it is a heading and one line per type, in sorted order. |
| Report.SummaryTextRoundTrip | PhoneGuardianPro.py:668 | If no input piece holds a line break, splitting the written text into lines gives back exactly the summary lines. |
| Report.WriteSummary | PhoneGuardianPro.py:639-668 | The text built step by step equals the summary text. |
| Report.AppendPropLines | PhoneGuardianPro.py:652-653 | The property loop appends one line per property. |
| Report.AppendModuleLines | PhoneGuardianPro.py:656-662 | The module loop appends one line per outcome. |
| Report.AppendTypeBlock | PhoneGuardianPro.py:664-667 | The type block is appended only when some type was counted. |
| Orchestrator.Attempt | PhoneGuardianPro.py:724-735 | One run records the outcome of its last invocation, with the run's hits, and emits its invocation events. |
| Orchestrator.Invoke | PhoneGuardianPro.py:724-732 | Invoke, classify, and repeat after a reset and a readiness loop exactly when the first verdict is busy. |
| Orchestrator.CountNewHits | PhoneGuardianPro.py:733-734 | The hits are the aggregate over the files that are new since the run's timestamp. |
| Orchestrator.Summarize | PhoneGuardianPro.py:752-753 | The summary is written from the property read, or not at all when that read raises. |
| Orchestrator.ScanAllModules | PhoneGuardianPro.py:671-709 | Without the scanner nothing happens. Otherwise: a reset, a readiness loop, one run recorded as "ALL", and then the summary. |
| Orchestrator.ScanModuleByModule | PhoneGuardianPro.py:711-754 | The module listing is invoked whenever the scanner is present. With no listed module or no scanner, the scan stops after that. Otherwise each module is run in turn and then the summary is written. |
| Orchestrator.RunModules | PhoneGuardianPro.py:720-736 | One outcome per listed module, run i for module i. Before each run, the trace holds a quick reset. |
| Orchestrator.RetryIffBusy | PhoneGuardianPro.py:726-727 | A run retries exactly when its first output contains "device is busy". |
| Orchestrator.RunRecordsLastAttempt | PhoneGuardianPro.py:724-735 | The outcome's verdict and indicator count come from the last invocation's output, under the module's name. A recorded busy verdict means the retry was busy too. |
| Orchestrator.RunHits | PhoneGuardianPro.py:723-735 | The outcome's hit total and per-type counts are the sums over the files that are new since the run's timestamp. |
| Orchestrator.RunInvocations | PhoneGuardianPro.py:724-732 | A run invokes the scanner twice if it retried and once otherwise, always with its own target first. |
| Orchestrator.PlanInvocations | PhoneGuardianPro.py:724-732 | A run's events hold one invocation, or two with a retry, all with its target. |
| Orchestrator.TraceInvocations | PhoneGuardianPro.py:720-732 | The module loop invokes the scanner once per module plus once per retry: between one and two times the number of modules. |
| Orchestrator.ScanInvocations | PhoneGuardianPro.py:711-736 | A module-by-module scan opens with the listing invocation exactly when the scanner is present. A scan that runs modules invokes the scanner 1 + modules + retries times: the listing, then one call per module, plus one per retry. |
| Orchestrator.InvocationsAppend | PhoneGuardianPro.py:720-732 | Invocation counts add over concatenated traces. |
| Orchestrator.OutcomePerModule | PhoneGuardianPro.py:713-736 | The scan does not start exactly when no module is listed. Otherwise it records one outcome per listed module, in order. |
| Orchestrator.OutcomeIgnoresProbes | PhoneGuardianPro.py:729 | A run's outcome does not depend on the readiness probes. |
| Orchestrator.ProbesIgnoredByModule | PhoneGuardianPro.py:728-732 | Module-by-module outcomes and the summary are the same whatever the readiness probes return. |
| Orchestrator.ProbesIgnoredAll | PhoneGuardianPro.py:678-691 | Whole-device outcomes and the summary are the same whatever the readiness probes return. |
| Orchestrator.TwoModulesOneRetry | PhoneGuardianPro.py:720-753 | Two modules, the first busy and then clean, the second skipped: two outcomes A CLEAN and B SKIPPED, four invocations (the listing, two for A, one for B), and the first module's hit types in the summary. |

## Left out

- **Subprocess execution:** `run_cmd` is not modelled, and neither are the environment built for the scanner (`env_for_mvt`) or the binary lookup (`find_adb_bin`, `find_mvt_bin`). The scanner's output for each run and attempt is an oracle; its return code is not, since the flows never read it. The readiness probes and `getprop` are oracles giving a return code and, for `getprop`, its output. The lookups become presence flags.
- **Tool detection:** `detect_mvt` and `detect_adb`, as `write_summary` calls them, are not modelled. Their results enter as tool states, each a presence flag and a version string.
- **Waiting:** `time.sleep` is left out, because waiting changes no state of the model.
- **Commands that never return:** the model covers only runs in which every command returns. `run_cmd` passes no timeout (PhoneGuardianPro.py:200, 220), and `adb wait-for-device` (PhoneGuardianPro.py:597, 611) blocks while no device is attached. A run that hangs in either has no counterpart here.
- **Time:** `time.time` becomes an integer-millisecond clock oracle, with the 0.5 s tolerance as 500 ms. Sub-millisecond timestamps are not modelled.
- **The summary timestamp:** `datetime.now().isoformat(...)` is a timestamp-string parameter.
- **The report directory:** the name `_nowstamp()` gives it and its creation are outside the model.
- **Filesystem access:** `rglob`, `stat`, `read_text` and the writing of `summary.txt` are oracles. The directory listing gives each entry's path and an optional stat, where an absent stat is one that raised. `read` gives a file's optional text, where absent means unreadable, and its CSV rows. Writing the file is modelled as returning its text.
- **CSV parsing:** `csv.Sniffer` dialect detection and the `csv.reader` tokenisation are left out. Rows are supplied already split into fields, header row included. A reader that fails part-way is given as the rows it yielded before failing.
- **Console output:** all of it is left out, including the `rich` panels, colours, headlines and the `hit_mode` type lists. It affects no recorded state.
- **Installed indicator files:** `list_installed_iocs` and `ioc_dirs` are not modelled. `IocNames.HeaderKnownSets` takes the file names in the order `list_installed_iocs` returns them: sorted within each directory, directories in turn, with duplicate paths dropped. The same name can therefore appear once per directory.
- **Case and character classes:** case folding is ASCII-only. `\w` and `\d` are their ASCII forms, and `\s` and `strip` use Python's whitespace set. Non-ASCII case pairs are not modelled.
- **`getprop` commands in the trace:** those issued by `get_device_props` are not recorded in the summary-phase event trace. Only their results enter, through the `getprop` oracle.
- **Logging of the scanner call:** the trace records each scanner invocation, the module listing included, with its target. It does not record the full argument list or environment.
- **IocNames.BaseName:** a path ending in '/' gives an empty name here, whereas pathlib ignores a trailing slash. Listed files never end in one.
- **IocNames.BaseName:** listed paths are POSIX paths, split on '/' only. On Windows, where the program also runs, `Path.name` splits on `\` too. The Windows path flavour is not modelled: for a listed `C:\rep\.json` the model takes the suffix ".json", where pathlib gives none.
- **Text.DigitValue:** this is total, giving 0 for a non-digit. It is only applied to the `\d+` group, which holds digits only, so `int(...)` cannot fail there.
- **The rest of the program:** the menu, setup wizard, IOC download, self-test runner, report-folder opener and other interactive commands are not part of this model.
- **Parsers.DefsOfSentence:** this states the count only when the text before the sentence holds no `l`/`L`, which guarantees that no earlier match exists. The general leftmost-match statement is `Parsers.DefsLeftmost`.
- **Parsers.VersionOfLine:** this requires that no match of the pattern starts before the line (an earlier "version:" not followed by a version is allowed), and that the character after the version is not a digit or dot. The general statement is `Parsers.VersionLeftmost`.
