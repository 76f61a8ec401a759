# Swift source compatibility suite: orchestration core in Dafny

The Swift source compatibility suite builds a list of open-source Swift
projects against a Swift compiler. It reads an index (`projects.json`), where
each project names its repository, the commits that are compatible with each
Swift version, and its build actions. It checks out each commit, runs each
action, and classifies every action result as one of four kinds:

- PASS;
- FAIL;
- XFAIL (an expected failure that has a bug identifier);
- UPASS (an unexpected pass of an action expected to fail).

The run then folds the action results into a result tree and exits with 0 or 1.

This project models that orchestration core in Dafny. It covers
`project_future.py` (the current generation of builders), `project.py` (the
older one) and the command helpers of `common.py`. It also covers
`utils/format_projects_list.py`, the tool that keeps the index sorted and tidy.

Modules:

- `Wrappers`: `Option` and `Result` (`Err` models a raised exception).
- `Text`: the string primitives the source uses (`split()[0]`, `strip`, `lower`, `'%03d'`, `'%.7s'`).
- `Json`: index values, with `in`, `[]` and `.get` on them, and the exceptions these raise.
- `Xfail`: `is_xfailed` of both generations. This is the lookup that decides whether an action is expected to fail, and under which bug.
- `Selection`: `included_element` (the include and exclude predicates) and `dict_get`.
- `Results`:
  - the result tree: `ActionResult` leaves and `ListResult` composites with four buckets;
  - `ListResult` as a class whose `add` updates its buckets in place;
  - `result` precedence, `recursive_all` and `__add__`;
  - the summary printed by `ProjectListResult.__str__`;
  - the exit status of `runner.py`.
- `Classify`: how an action builder turns a build outcome into a result. This covers `ActionBuilder.failed`/`succeeded` and `CompatActionBuilder.failed`/`succeeded`/`build` of both generations.
- `Dispatch`: `ListBuilder.build` of both generations (the loop over sub-targets, log renaming, propagation of exceptions) and `ProjectListBuilder.included`.
- `Logs`: the log file names that `VersionBuilder.output_fd` and the older `ProjectBuilder.output_fd` derive.
- `Command`:
  - `shell_join`;
  - `execute`, `check_execute_output` and `check_execute` with its retry loop;
  - the git helpers (`git_clone`, `git_checkout`, `git_update`, …), over an abstract executor.
- `Incremental`: `IncrementalActionBuilder`, which covers:
  - `have_same_trees`;
  - the build-state paths;
  - `excluded_by_limit`;
  - the loop over commits of `build_incremental` and the loop over sets of `build`;
  - `check_full_vs_incr`;
  - the Python 2 argument binding of two of its calls.
- `Formatter`: `utils/format_projects_list.py`, which sorts the index by `path` (stable) and strips trailing whitespace line by line.

Processes, the file system and the clock are not modelled directly. A command's
outcome comes from an executor function given as a parameter: position in the
session and command → exit status and output, or a timeout. Each function returns
the trace of commands it ran.

## Model

| member | source | states |
|---|---|---|
| Json.FirstWord | project_future.py:503 | `split()[0]` succeeds on a string that has a non-space character and gives a non-empty word with no spaces in it. It raises IndexError on an all-space string and AttributeError on a non-string. |
| Json.Index | project_future.py:503 | `d[key]` succeeds exactly on a dictionary holding `key`. It raises KeyError on a dictionary without the key. |
| Json.Contains | project_future.py:510 | `key in c` tests the keys of a dictionary and the elements of a list. It raises on anything but a dictionary, a list or a string. |
| Text.ZeroPadRoundTrip | project_future.py:1397 | `'%03d'` never loses the number: reading the padded digits back gives `n`. |
| Text.Strip | project_future.py:1021 | `strip()` gives a slice of the input that neither starts nor ends with a space, with only spaces cut on either side. |
| Text.StripChar | project_future.py:1025-1027 | `s.strip(c)` cuts exactly the leading and trailing runs of `c`: the result is a slice of `s` with only `c` outside it, and neither starts nor ends with `c`. |
| Xfail.Matches | project_future.py:502-519 | `matches(spec)`: a non-dictionary raises TypeError, a spec without `issue` KeyError, a bad issue its own error before anything is compared, and a `configuration` key without a build configuration Unreachable. Otherwise the answer is the issue's first word exactly when every present key among `compatibility`, `branch`, `platform` and `job` (and `configuration`, against the lower-cased build configuration) equals or contains the current value, and `None` otherwise. |
| Xfail.Specs | project_future.py:496-497 | A dictionary is scanned as a one-element list and a list as itself. Any other non-iterable raises. |
| Xfail.IsXfailedScansInOrder | project_future.py:521-525 | `is_xfailed` answers `None` exactly when no spec matches or raises. Otherwise it answers what the first deciding spec answers. |
| Xfail.IssueOnlyMatchesEverything | project_future.py:502-519 | A spec with only `issue` matches under any version, branch, platform, job and configuration. |
| Xfail.ListMeansAnyOf | project_future.py:499-500 | A list on a key matches exactly the values among its elements. |
| Xfail.ConfigurationIgnoresCase | project_future.py:515 | Two build configurations that are equal up to case get the same answer. |
| Xfail.ConfigurationWithoutBuildConfig | project_future.py:510-514 | The first spec that reaches a `configuration` check without a build configuration makes `is_xfailed` raise. |
| Xfail.FirstFoundNone | project.py:345-358 | The older lookup answers `None` exactly when none of its five probes finds an entry. |
| Xfail.LegacyWildcardWins | project.py:347-349 | A version-wide `*` entry wins over every branch and platform entry. |
| Xfail.LegacyBranchWildcardWins | project.py:350-351 | Without a version-wide wildcard, a branch `*` entry wins over the platform entries and the exact ones. |
| Xfail.LegacyBranchBeforePlatform | project.py:354-357 | An exact branch entry wins over an exact platform entry. |
| Xfail.LegacyNothingMatches | project.py:345-358 | With none of the five keys present, the older lookup answers `None`. |
| Xfail.ProbeStringTable | project.py:348-357 | A probe on a dictionary of strings finds the first word of the entry. An all-space entry raises IndexError. |
| Selection.IncludedElement | project_future.py:748-754 | An element is kept iff no exclude predicate holds and (there are no includes or some include holds). |
| Selection.ExcludeWins | project_future.py:750-751 | One exclude predicate that holds drops the element, whatever the includes say. |
| Selection.SelectionIsMonotone | project_future.py:748-754 | Adding an exclude predicate never lets more elements in. Adding an include predicate to a non-empty include list never drops any. |
| Selection.DictGet | project_future.py:765-775 | Gives the value of the first present key, else the default. It raises KeyError exactly when no key is present and no default is given. |
| Results.Insert | project_future.py:814-816 | `add` appends to the bucket of the child's kind and leaves the other three buckets alone. |
| Results.ListResult.constructor | project_future.py:811-812 | A new `ListResult` has four empty buckets. |
| Results.ListResult.Add | project_future.py:814-816 | `add` drops `None` and otherwise inserts the child. The buckets stay well formed. |
| Results.ListResult.AddUnguarded | project.py:568-569 | The older `add` crashes exactly on `None` and otherwise inserts the child. |
| Results.ListResult.RecursiveAll | project_future.py:833-843 | The work-list loop emits exactly the leaves under the list's children, in the order `LeavesOf` walks them. |
| Results.PushFront | project_future.py:841-842 | Inserting each child at the front of the work list leaves the children reversed in front of the old list. |
| Results.LeavesAreActions | project_future.py:836-843 | Every element `recursive_all` emits is an action result. |
| Results.PrecedenceIsStrongestChild | project_future.py:845-856 | `result` of a list is the strongest kind among its children: FAIL > UPASS > XFAIL > PASS, and PASS when empty. |
| Results.KindIsDominantLeafKind | project_future.py:845-856 | The kind of a well-formed tree is the strongest kind among all of its leaves. |
| Results.OfKind | project_future.py:872-879 | A filtered bucket holds as many results as `rs` has of that kind, each of that kind. |
| Results.OfKindPicksInOrder | project_future.py:872-879 | The filtered bucket is picked from `rs` at increasing positions, so it is exactly the results of that kind in the order of `rs`. |
| Results.ExitCode | runner.py:71-72 | The run exits with 0 exactly when the final kind is PASS or XFAIL, and with 1 otherwise. |
| Results.ExitCodeReflectsLeaves | runner.py:71-72 | A well-formed tree exits with 0 exactly when no leaf is FAIL or UPASS. |
| Results.SummaryIsConsistent | project_future.py:869-915 | The printed action count is the number of leaves. The printed result is FAIL iff some leaf failed, and PASS iff no leaf is FAIL, UPASS or XFAIL. |
| Results.Section | project_future.py:881-897 | A non-empty titled list starts with the rule line. |
| Results.Render | project_future.py:870-915 | The report starts with a rule line and ends with the verdict line of the result's kind. |
| Results.Gather | project.py:613-616 | The older bucket gathering fails exactly when a child of the list is a leaf, since a leaf has no `xfails()`. |
| Results.SummarizeLegacy | project.py:610-652 | The older summary counts the repositories and gives the list's own result. Its total is the sum of the four counts. |
| Results.LegacySummaryAgrees | project.py:610-652 | On project-over-action trees the older summary succeeds and agrees with the newer one on every count and on the result. |
| Results.Merge | project_future.py:858-865 | The intended `__add__`: each bucket of the sum is the bucket of the left operand followed by that of the right. |
| Results.MergeKind | project_future.py:858-865 | The sum of two well-formed lists is well formed, and its kind is the stronger of the two kinds. |
| Results.MergeAssociative | project_future.py:858-865 | The intended `__add__` is associative. |
| Results.MergeLeaves | project_future.py:858-865 | The leaves under a sum are the leaves under both operands, as a multiset. |
| Results.MergeAsWrittenLosesEverything | project_future.py:858-865 | As written, `__add__` returns an empty dictionary for all operands, and reading its result raises. |
| Classify.ActionTarget | project_future.py:1245 | The action target is `scheme`, else `target`, else `"Swift Package"`. |
| Classify.KindFor | project_future.py:1130-1149 | The kind is XFAIL or UPASS iff the action was expected to fail, and FAIL or XFAIL iff the build failed. |
| Classify.ExitCodeMeansAsExpected | project_future.py:1130-1149 | An action leaves the exit status at 0 iff its build failed exactly when a failure was expected. |
| Classify.EffectiveConfig | project_future.py:1231 | `--build-config` wins when non-empty. Otherwise the action's `configuration` is used, and `None` only when neither is given. |
| Classify.Bug | project_future.py:1230-1238 | An action without `xfail` never has a bug identifier. |
| Classify.Classified | project_future.py:1228-1296 | `failed`/`succeeded`: raise exactly when the xfail lookup raises; otherwise the kind is XFAIL or UPASS iff a bug identifier is found, and FAIL or XFAIL iff the build failed; the text is the tagged message. |
| Classify.NoXfailIsPlain | project_future.py:1228-1296 | An action without `xfail` is classified FAIL or PASS, never XFAIL or UPASS. |
| Classify.MessageLayout | project_future.py:1239-1262 | The message starts with the tag and then the bug identifier if there is one. It ends with the destination if there is one, else with the action target. |
| Classify.ClassificationReadsShortCommit | project_future.py:1229 | The classification only sees the first six characters of the commit. |
| Classify.CompatBuild | project_future.py:1181-1226 | `build` with `dispatch`: a commit that is not 40 characters exits with status 1; `None` is returned exactly when only the latest versions are built and this one is not the latest; a returned result is the classification of the build outcome. |
| Classify.BaseClassified | project_future.py:1130-1149 | The base `failed`/`succeeded` key the kind on the presence of `xfail` only. The text starts with the tag and the identifier. |
| Classify.BaseBuild | project_future.py:1070-1128 | The base `build` returns a result exactly when the checkout succeeded and the build did not crash. The result's kind follows `KindFor`. |
| Classify.LegacyBug | project.py:885-890 | An older action without `xfail` never has a bug identifier. |
| Classify.LegacyClassified | project.py:879-938 | The older `failed`/`succeeded` raise exactly when the older lookup raises. Otherwise they give the kind from the bug and the failure, and the tagged message. |
| Classify.LegacyErrorOnlyOnFailure | project.py:899-905 | Only an unexpected failure's message carries the error text. |
| Classify.LegacyBuild | project.py:861-877 | The loop over versions computes `LegacyOutcome` of the per-version steps: the first step that raises or is neither PASS nor XFAIL, else the last result; an empty dictionary leaves `action_result` unbound. |
| Classify.LegacyReportsFirstUnacceptable | project.py:874-876 | The older build returns the first version whose result is FAIL or UPASS. |
| Classify.LegacyAllAcceptable | project.py:867-877 | When every version passes or xfails, the older build returns the last version's result, whose exit status is 0. |
| Classify.LegacyStopsAtFault | project.py:867-873 | The first checkout or build that raises ends the older loop with that exception. |
| Dispatch.OutcomeName | project_future.py:957-960 | `'%s' % subbuilder_result` is `None` exactly when the sub-builder raised or returned `None`. |
| Dispatch.Build | project_future.py:943-962 | `ListBuilder.build` computes `BuildFrom` on a fresh `ListResult`: the buckets, the exception that escaped and the log renames. |
| Dispatch.BuildGathersByKind | project_future.py:943-962 | Each bucket of the built list holds exactly the returned results of that kind, in sub-target order. |
| Dispatch.BuildAddsGathered | project_future.py:945-953 | The built buckets are the starting ones with each gathered result added in turn. |
| Dispatch.InsertAllByKind | project_future.py:814-816 | Adding results in order appends each to the bucket of its kind. |
| Dispatch.BuildRaisesFirst | project_future.py:943-962 | The build raises exactly when an included sub-target raises, and then raises the first such exception. |
| Dispatch.RenamesPrefixOutcome | project_future.py:954-960 | The build renames, in order, the log of every included sub-target it reaches (up to and including the first that raises) from `<log>` to `<outcome>_<log>`, where the outcome is what that sub-target returned (`None` when nothing or a raise). It renames nothing else. |
| Dispatch.NonePrefixMeansNoResult | project_future.py:957-960 | A sub-target that returned a result never gets a `None_` log name. |
| Dispatch.LegacyBuild | project.py:677-689 | The older `ListBuilder.build` computes `LegacyBuildFrom`: the buckets, or the first exception, including the one `add(None)` raises. |
| Dispatch.GenerationsAgree | project.py:677-689 | When no sub-builder raises or returns `None`, both generations build the same buckets. |
| Dispatch.ProjectIncluded | project_future.py:972-976 | A project is included iff it lists no platforms or lists the current system, no exclude predicate holds, and the includes are empty or one of them holds. |
| Dispatch.OtherPlatformLeftOut | project_future.py:972-976 | A project limited to other platforms is left out, whatever the predicates say. |
| Logs.RunLength | project_future.py:1025-1027 | Measures the run of characters at the front that the substitution replaces. |
| Logs.Sanitize | project_future.py:1025-1027 | `re.sub(r"[^\w\_\.]+", "-", s)` yields only kept characters and dashes, keeps the first character when it is kept, and is empty iff the input is. |
| Logs.SanitizeKeepsKept | project_future.py:1025-1027 | The substitution keeps every kept character, in order, and adds none. |
| Logs.SanitizeNoDoubleDash | project_future.py:1025-1027 | Each run of replaced characters becomes exactly one dash. |
| Logs.Stem | project_future.py:1025-1027 | The stem is the substituted identifier with its leading and trailing runs of `-` cut, and then those of `_`. It holds only kept characters and dashes and does not end with `_`. |
| Logs.Truthy | project_future.py:1016-1017 | `dict_get(..., default=False)` used as a truth value: the value of the first key present when it is non-empty, and nothing when that value is empty or no key is present. |
| Logs.FutureLogName | project_future.py:1015-1032 | The log name raises KeyError exactly when the action has no `action`. Otherwise it is a flat stem followed by `.log`. |
| Logs.FutureNameLayout | project_future.py:1015-1032 | With every field made of ASCII letters, digits and dots, the name is the path, `-` and the `project` (when there is one), then `_` and each of the version, the action, the scheme or target and the destination (when present), then `.log`. |
| Logs.LegacyLogName | project.py:723-740 | The same for the older `output_fd`, where `.` is not kept. |
| Logs.LegacyNameLayout | project.py:723-733 | With every field made of ASCII letters and digits, the older name is the action, `_`, the path, `-` and the `project`, then `_` and the scheme or target, then `.log`. Without a project the space after the path leaves `-_` before the target, and without either the trailing `-` is cut. |
| Logs.LogNamesStayInPlace | project_future.py:1025-1027 | No log name holds a `/`, so every log file is created in the working directory. |
| Command.Quote | common.py:309 | `pipes.quote` never gives an empty word, so an empty argument does not vanish from the joined line. |
| Command.QuoteReadsBack | common.py:309 | A POSIX shell reads a quoted argument back as the argument itself, up to the next separator. |
| Command.QuoteWraps | common.py:303-309 | An unsafe argument without a single quote is wrapped in single quotes. |
| Command.ShellJoinQuotesSecond | common.py:303-309 | `shell_join(['echo', 'Hello, World!'])` is `echo 'Hello, World!'`, the documented example. |
| Command.ShellJoinRoundTrip | common.py:303-309 | A POSIX shell reads the joined line back as exactly the original arguments. |
| Command.ShellJoinInjective | common.py:303-309 | Different commands are never logged as the same line. |
| Command.Status | common.py:348-357 | `execute` reports the exit status, or 124 when the alarm fired. |
| Command.Execute | common.py:337-357 | `execute` runs the command once, under the given timeout or the default one, and reports its status. |
| Command.CheckExecuteOutput | common.py:360-378 | Runs the command once. It returns the output exactly when the command exits with 0, raises on a non-zero status and raises on a timeout. |
| Command.SandboxCommand | common.py:390-399 | With a non-empty profile, Darwin puts `sandbox-exec -f <profile>` in front of the command and Linux puts `firejail --quiet --profile=<profile> --private=. --overlay-tmpfs --dns=8.8.8.8`. Any other case leaves the command unchanged. |
| Command.CheckExecute | common.py:381-407 | The retry loop computes `CheckExecuteSpec`: the status and the commands it ran. |
| Command.AttemptsSpec | common.py:400-407 | The retry loop stops at the first attempt whose status is 0 and returns 0. If no attempt succeeds, it raises `ExecuteCommandFailure` with the last status. |
| Command.CheckExecuteContract | common.py:381-407 | `check_execute` runs only the sandboxed command, under the effective timeout, at most `max_retries` times, and not at all when `max_retries <= 0`. It returns only 0, and does so iff a run within the retries exits 0, after failed runs only. Otherwise it raises ExecuteCommandFailure with the last status, or with -1 when nothing ran. |
| Command.RetryScenario | common.py:400-407 | With three retries, two failures and then a success give 0 after exactly three runs. |
| Command.AllZero | common.py:444 | `0 if all(rc == 0 ...) else 1` is 0 exactly when every status is 0. |
| Command.CheckoutForcePlacement | common.py:447-453 | With `force`, `-f` comes right before the tree. |
| Command.InsertAt | common.py:451-452 | `list.insert` puts the element at the index and shifts the rest. |
| Command.GitCloneNeverReportsFailure | common.py:431-444 | `git_clone` only ever returns 0: each status it collects comes from `check_execute`. |
| Command.GitCloneSucceeds | common.py:431-444 | When every command succeeds, `git_clone` runs clone, checkout and submodule update once each and returns 0. |
| Command.GitUpdatePlan | common.py:462-495 | When every command succeeds, `git_update` cleans, fetches when stale, checks out the sha and updates submodules, and returns 0. |
| Command.GitUpdateNeverReportsFailure | common.py:462-495 | `git_update` only ever returns 0. |
| Command.TryFailsInClean | common.py:467-469 | When the `k`-th cleaning command is the first to fail, the update stops right there with that command's ExecuteCommandFailure. |
| Command.TryFailsAfterSha | common.py:470-488 | When the cleaning passes and `rev-parse` prints the head, the first failing fetch, checkout or submodule command stops the update with its ExecuteCommandFailure. |
| Command.FallbackAfterCleanFails | common.py:462-495 | In a full update, whichever cleaning command fails first, `git_update` runs the commands up to it, then `rm -rf <path>`, then `git_clone` at the sha. |
| Command.FallbackAfterUpdateFails | common.py:462-495 | In an incremental or a full update, whichever of the fetch, checkout and submodule commands fails first after `rev-parse`, `git_update` runs the commands up to it, then `rm -rf <path>`, then `git_clone` at the sha. |
| Command.FallbackCloneSucceeds | common.py:431-444 | The fallback clone succeeds when only the fetch fails. |
| Incremental.CheckNames | project_future.py:1318-1337 | The loop over one list answers true iff every name is ignored, and logs exactly the reported names. |
| Incremental.HaveSameTrees | project_future.py:1316-1341 | `have_same_trees` is true exactly when the trees are the same at every depth. Its log is every reported difference, subdirectories included. |
| Incremental.CompareSubdirs | project_future.py:1339-1340 | Every subdirectory is compared, even after a mismatch. |
| Incremental.CleanIffSilent | project_future.py:1316-1341 | The trees are the same exactly when nothing is logged. |
| Incremental.SubdirectoriesAlwaysWalked | project_future.py:1339-1340 | Whatever a subdirectory logs appears in the log of its parent. |
| Incremental.IgnoredMissingChangesNothing | project_future.py:1304-1308 | A diagnostics file or backup present only in the full tree changes neither the log nor the verdict. |
| Incremental.CurrBuildStatePath | project_future.py:1368-1378 | A package keeps its state in `.build`. A missing key raises KeyError naming that key. |
| Incremental.XcodeStateBesideProject | project_future.py:1368-1378 | An Xcode action keeps its state in `build`, beside its workspace or project. |
| Incremental.IgnoredDifferences | project_future.py:1380-1388 | The ignored names are always the module cache and the dependency files, and the function fails exactly when the action is unknown. |
| Incremental.SavedBuildStatePath | project_future.py:1395-1397 | A saved state lives at `<path>-incr/build-state-%03d-%s-%.7s`: the incremental directory, `/`, and the state name. |
| Incremental.StateNamesDistinct | project_future.py:1395-1397 | Two state names are equal exactly for the same sequence number, flavour and seven-character sha prefix. |
| Incremental.Bind | project_future.py:1409 | Python 2 call binding: too many positional arguments, an unknown or repeated keyword, or a required parameter left unbound each raise TypeError. |
| Incremental.SaveCallAsWritten | project_future.py:1504 | The full-build save call binds `stdout` twice and raises TypeError. |
| Incremental.SaveCallIntended | project_future.py:1512 | Three positional arguments and `stdout` by keyword bind. |
| Incremental.IncrementalInitAsWritten | project_future.py:1346-1366 | The base constructor call lacks two required arguments and raises TypeError. |
| Incremental.IncrementalInitCorrected | project_future.py:1346-1366 | With the two missing keywords, every parameter binds. |
| Incremental.InitKeywordsPlaced | project_future.py:1353-1364 | Each corrected keyword names a distinct parameter past the positional ones. |
| Incremental.BuildIncremental | project_future.py:1488-1515 | The loop over commits computes `IncrementalRun`: the events and the outcome. |
| Incremental.AllAsExpected | project_future.py:1488-1515 | When every commit checks out and builds as the action expects, the loop clears the state directory and then builds and saves each commit in turn. It returns the classification of the last commit's build, which is XFAIL with `xfail` and PASS without, and the initial PASS when there is no commit. |
| Incremental.FirstRaiseEndsLoop | project_future.py:1477-1515 | The first commit whose step raises ends the loop with that exception, after the earlier commits' builds and saves. |
| Incremental.EarlyExitStopsBuilds | project_future.py:1483-1485 | A build that does not go as expected stops the set with EarlyExit after two events per commit before it. |
| Incremental.TraceOrdered | project_future.py:1495-1514 | Builds are numbered upward from 0, only the first is full, and the saves are in strictly increasing order. |
| Incremental.SnapshotsDistinct | project_future.py:1495-1514 | No two saves of a set write the same state path. |
| Incremental.AsWrittenFirstSaveRaises | project_future.py:1504 | As written, every set with a commit raises TypeError right after its first build. |
| Incremental.ExcludedByLimit | project_future.py:1435-1439 | An action is excluded iff it disagrees with some limit. |
| Incremental.MoreLimitsExcludeMore | project_future.py:1435-1439 | Adding limits never brings an excluded action back. |
| Incremental.SetsRun | project_future.py:1443-1455 | EarlyExit never escapes the loop over sets. |
| Incremental.Build | project_future.py:1441-1455 | A project without `incremental` gives PASS with no events. Otherwise `build` walks the sets, skipping excluded ones, catches EarlyExit and returns its value. |
| Incremental.ExcludedSetSkipped | project_future.py:1447-1448 | A set whose limits the action does not meet leaves no trace. |
| Incremental.CheckFullVsIncr | project_future.py:1419-1433 | `check_full_vs_incr` raises exactly when the action is unknown. Otherwise it reports a mismatch exactly when the trees differ, and the log is the reported differences. |
| Incremental.BasenameOfSavedState | project_future.py:1427-1429 | The message names the incremental state by its own state name. |
| Formatter.LastField | utils/format_projects_list.py:45-47 | Reading a field of an `OrderedDict` gives the value of the last occurrence of the key, and `None` exactly when the key is absent. |
| Formatter.PathKeyErrors | utils/format_projects_list.py:48 | `repo['path']` raises KeyError on an object without `path` and TypeError on a non-object or a non-string path. |
| Formatter.FirstKeyError | utils/format_projects_list.py:44-49 | The sort raises iff some entry has no usable `path`. The error is the first such entry's. |
| Formatter.SortSorted | utils/format_projects_list.py:44-49 | The sorted index is in ascending order of `path`. |
| Formatter.SortStable | utils/format_projects_list.py:44-49 | Entries with equal paths keep their original order. |
| Formatter.FormatIndexSorts | utils/format_projects_list.py:44-49 | The sort: succeeds iff every entry has a string `path`; otherwise raises the first entry's error; on success returns a permutation of the index, sorted by `path` and stable. |
| Formatter.SortSortedIsIdentity | utils/format_projects_list.py:44-49 | An index already sorted by `path` is left unchanged. |
| Formatter.FormatIndexIdempotent | utils/format_projects_list.py:44-49 | Sorting a sorted index changes nothing. |
| Formatter.MatchEnd | utils/format_projects_list.py:24-26 | The match of `\s+$` at a position is a run of whitespace ending at the last line end that run reaches. |
| Formatter.StripLeavesNoTrailing | utils/format_projects_list.py:24-26 | After stripping, no whitespace character is left at the end of a line or of the text. |
| Formatter.StripKeepsVisible | utils/format_projects_list.py:24-26 | Stripping deletes only whitespace: every other character stays, in order. |
| Formatter.StripFixedPoint | utils/format_projects_list.py:24-26 | Stripping changes a text iff some line has trailing whitespace. |
| Formatter.StripIdempotent | utils/format_projects_list.py:24-26 | Stripping twice is stripping once. |
| Formatter.IndentationKept | utils/format_projects_list.py:24-26 | Indentation (whitespace without a newline) in front of a visible character at the head of the text survives stripping. |
| Formatter.StripSplits | utils/format_projects_list.py:24-26 | Cut right after a visible character, a text is stripped piece by piece. |
| Formatter.StripLineBoundary | utils/format_projects_list.py:24-26 | After a line that ends in a visible character, the newline and the next line's indentation survive, and each side is stripped on its own. |
| Formatter.Main | utils/format_projects_list.py:40-57 | The tool produces text iff the sort succeeds. The text has no trailing whitespace and the same non-whitespace characters, in order, as the dump of the sorted index. |

## Left out

- The exec/eval of `evaluate_predicate` (project_future.py:739-745) is abstracted into a predicate `holds` passed to `Selection.IncludedElement`.
- `platform.system()`, `os.path.exists`, file system changes (`rmtree`, `copytree`, `makedirs`, `rename`, opening log files), sleeps and the clock. These are parameters or recorded events, not effects.
- The processes `execute` starts: an executor function given as a parameter stands in for them. Only the command's status, output or timeout are modelled.
- `debug_print` and `shell_debug_print` output, and the `stdout`/`stderr` streams passed around.
- The `dispatch` function that runs xcodebuild and `swift build` (project_future.py:~360-490) is outside the orchestration core. It is modelled only as a build outcome (pass, fail with error text, crash).
- Classify.CompatBuild: `only_latest_versions` sorts versions by their float components. The model takes "this version is the latest" as a parameter instead of parsing the numbers.
- The index is already decoded. Dictionary iteration order is a sequence given with the data (for `compatibility` in project.py and for `incremental` sets).
- Results: the report's `str(error)` and `str(action)` are carried as text given by the caller.
- Results: parents store a snapshot of a child's buckets, not a reference. The source never changes a child after adding it, so nothing observable is lost.
- Incremental: `restore_saved_build_state` is not modelled as a separate operation because nothing calls it. `check_full_vs_incr` is modelled on its own, since `build_incremental` never calls it.
- Incremental: `IncrementalActionBuilder` of project_future.py is never constructed by the repository's scripts, and its constructor cannot bind (see Findings). The loop is therefore modelled from an already-built builder.
- Incremental.BuildIncremental: the git checkout of each commit is reduced to a flag "checked out" or "raised", and a `Saved` event does not record the copied directory.
- Incremental.CheckFullVsIncr: `filecmp.dircmp` is given as its result tree, and `os.path.relpath` is approximated by joining relative names.
- Formatter.Main: JSON decoding and `json.dumps(..., indent=2)` are a parameter `dump`. Only what is stripped from its output is modelled.
- Formatter.PathKey: a top-level index that is not a list is not modelled. A non-string `path` is modelled as TypeError, while Python 2 would compare mixed types.
- Formatter.Le: strings compare by code point, which is how Python 2 orders the `unicode` paths `json.load` yields.
- Text: `split()`, `strip()` and `lower()` on the `unicode` index values also know non-ASCII whitespace (such as U+00A0 or U+2028) and non-ASCII case mappings; the model uses the ASCII classes for them. The `\w` and `\s` of the regular expressions are ASCII in the source too.
- Logs.LegacyLogName: project.py:725 adds `" "` to `dict_get(self.target, 'path', default=False)`, which raises TypeError when `path` is absent; the model takes the path as a string, so that error is not modelled.
- Json: index values used as strings (`version`, `action`, `path` and the other action fields) are typed as strings, so the AttributeError of `.strip()` or `.split()` on, say, a numeric `version` is not modelled.
- Xfail.IsOrContains: Python's `True == 1` (and `False == 0`) equality between booleans and numbers is not modelled; a boolean never equals a number in the model.
- Incremental.XcodeContainer: the action-name regular expressions end in `$`, which also matches before a trailing newline; action names with a trailing newline are not modelled.
- `ActionBuilder.checkout` (project_future.py:1084-1109) is reduced to whether the checkout succeeded; the git helpers it calls are modelled in `Command` on their own.
- The signal-based `Timeout`, `clone_repos` and its parallel clones, and the module-level branch tables and setters of common.py are not part of this model; the values they provide are parameters.
- The factories in runner.py and build_incremental.py pass argument lists that do not match the constructors; behaviour is taken from the builders' methods, not from that wiring.
- project.py's `included_element`, `dict_get` and `ProjectListBuilder.included` are identical to those of project_future.py, so one definition models both.
- `str2bool`, argument parsing, `Factory.factory`, `reproduce.py`, `build_incremental.py`'s driver and `analyze_request_durations.py` are not part of this model.

## Findings

| source | as written | input that shows it | evidently intended | confidence | as-written member | corrected member |
|---|---|---|---|---|---|---|
| project_future.py:858-865 | `ListResult.__add__` iterates over the attributes of class `Result` that are not dunder names. The class defines none, so the sum is an empty dictionary and reading its result raises. | any two lists, e.g. two empty `ListResult`s | the bucket-wise concatenation of the two lists | not executed | Results.MergeAsWrittenLosesEverything | Results.MergeKind |
| project_future.py:1504 | the save after the full build passes four positional arguments plus `stdout=` to `save_build_state(self, seq, flav, sha, stdout)`, so `stdout` gets two values | any set with at least one commit whose first build goes as expected | `save_build_state(seq, 'full', sha, stdout=stdout)` as at line 1512 | not executed | Incremental.AsWrittenFirstSaveRaises | Incremental.SaveCallIntended |
| project_future.py:1353-1364 | `IncrementalActionBuilder.__init__` calls the base constructor without `added_xcodebuild_flags` and `project_cache_path`, which are required | any construction of the builder | pass both on to the base constructor | not executed | Incremental.IncrementalInitAsWritten | Incremental.IncrementalInitCorrected |
