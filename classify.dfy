/** How one action run becomes a result: the expected-failure lookup picks
    XFAIL or UPASS over FAIL or PASS, and the message names the bug, the
    project, the compatibility version, the commit and the target. Both
    builder generations are here: `CompatActionBuilder` and `ActionBuilder`
    of project_future.py and of project.py, with the leaf `build` flows
    around them. */
module Classify {
  import opened Wrappers
  import opened Text
  import opened Json
  import Xfail
  import Results
  import Selection

  /** An action entry of the index: its string-valued keys (`action`,
      `scheme`, `target`, `destination`, `project`, ...) and its
      `configuration` and `xfail` values when present. */
  datatype Action = Action(strings: map<string, string>, configuration: Option<Value>, xfail: Option<Value>)

  /** One entry of a project's `compatibility` list. */
  datatype Version = Version(version: string, commit: string)

  /** What the run was started with: `--build-config`, the platform the
      runner is on, `--swift-branch` and `--job-type`. */
  datatype Settings = Settings(buildConfig: Option<string>, platform: string, branch: string, job: Option<string>)

  /** How the build of an action went: it passed, it failed with an
      `ExecuteCommandFailure` whose text is `error`, or it raised anything
      else. */
  datatype BuildRun = BuildPassed | BuildFailed(error: string) | BuildCrashed

  /** Why a builder did not return. */
  datatype Fault =
    | SystemExit(code: int)
    | CheckoutFailed
    | Crashed
    | XfailError(error: PyError)
    | MissingKey
    | UnboundLocal

  /** What a builder's `build` does: return a result (or `None`), or
      raise. */
  datatype Outcome = Returned(result: Option<Results.Result>) | Raised(fault: Fault)

  /** `dict_get(action, 'scheme', 'target', default="Swift Package")`. */
  function ActionTarget(a: Action): (t: string)
    ensures "scheme" in a.strings ==> t == a.strings["scheme"]
    ensures "scheme" !in a.strings && "target" in a.strings ==> t == a.strings["target"]
    ensures "scheme" !in a.strings && "target" !in a.strings ==> t == "Swift Package"
  {
    var keys := ["scheme", "target"];
    var r := Selection.DictGet(a.strings, keys, Some("Swift Package"));
    assert keys[0] == "scheme" && keys[1] == "target";
    r.value
  }

  /** The suffix naming the destination, when the action has one. */
  function DestinationSuffix(a: Action): string {
    if "destination" in a.strings then ", " + a.strings["destination"] else ""
  }

  /** The kind of a finished action: whether it was expected to fail
      against whether it failed. */
  function KindFor(expected: bool, failed: bool): (k: Results.Kind)
    ensures k == Results.XFAIL || k == Results.UPASS <==> expected
    ensures k == Results.FAIL || k == Results.XFAIL <==> failed
  {
    if expected then (if failed then Results.XFAIL else Results.UPASS)
    else (if failed then Results.FAIL else Results.PASS)
  }

  /** A run exits with 0 on an action exactly when the action did what was
      expected of it. */
  lemma ExitCodeMeansAsExpected(expected: bool, failed: bool)
    ensures Results.ExitCode(KindFor(expected, failed)) == 0 <==> (expected <==> failed)
  {
  }

  // ---------------------------------------------------------------------
  // project_future.py

  /** The build configuration `is_xfailed` is given: `--build-config`
      when it is a non-empty string, else the action's `configuration`,
      else `None`. */
  function EffectiveConfig(s: Settings, a: Action): (c: Value)
    ensures s.buildConfig.Some? && s.buildConfig.value != "" ==> c == Str(s.buildConfig.value)
    ensures (s.buildConfig.None? || s.buildConfig.value == "") && a.configuration.Some? ==> c == a.configuration.value
    ensures c.Null? ==> (s.buildConfig.None? || s.buildConfig.value == "") && (a.configuration.None? || a.configuration.value.Null?)
  {
    if s.buildConfig.Some? && s.buildConfig.value != "" then Str(s.buildConfig.value)
    else if a.configuration.Some? then a.configuration.value
    else Null
  }

  /** The values an xfail specification is compared with. */
  function CurrentOf(s: Settings, v: Version): Xfail.Current {
    Xfail.Current(Str(v.version), Str(s.branch), Str(s.platform), if s.job.Some? then Str(s.job.value) else Null)
  }

  /** The bug identifier: looked up only when the action has `xfail`. */
  function Bug(s: Settings, v: Version, a: Action): (r: Wrappers.Result<Option<string>, PyError>)
    ensures a.xfail.None? ==> r == Ok(None)
  {
    if a.xfail.None? then Ok(None)
    else Xfail.IsXfailed(a.xfail.value, CurrentOf(s, v), EffectiveConfig(s, a))
  }

  /** The message of `CompatActionBuilder.failed` and `.succeeded`. */
  function Message(tag: string, bug: Option<string>, path: string, v: Version, a: Action): string {
    Head(tag, bug) + (path + ", " + v.version + ", " + Prefix(v.commit, 6)) + Tail(a)
  }

  /** The tag, then the bug identifier when there is one. */
  function Head(tag: string, bug: Option<string>): string {
    tag + ": " + (if bug.Some? then bug.value + ", " else "")
  }

  /** The target, then the destination when the action has one. */
  function Tail(a: Action): string {
    ", " + ActionTarget(a) + DestinationSuffix(a)
  }

  /** `CompatActionBuilder.failed` (when `failed`) or `.succeeded`: the
      lookup of the bug may raise, and then no result is made. */
  function Classified(s: Settings, path: string, v: Version, a: Action, failed: bool): (r: Wrappers.Result<Results.Result, PyError>)
    ensures r.Err? <==> Bug(s, v, a).Err?
    ensures r.Ok? ==> r.value.Action?
    ensures r.Ok? ==> (r.value.kind == Results.XFAIL || r.value.kind == Results.UPASS <==> Bug(s, v, a).value.Some?)
    ensures r.Ok? ==> (r.value.kind == Results.FAIL || r.value.kind == Results.XFAIL <==> failed)
    ensures r.Ok? ==> r.value.text == Message(Results.KindName(r.value.kind), Bug(s, v, a).value, path, v, a)
  {
    match Bug(s, v, a)
    case Err(e) => Err(e)
    case Ok(bug) =>
      var k := KindFor(bug.Some?, failed);
      Ok(Results.Action(k, Message(Results.KindName(k), bug, path, v, a)))
  }

  /** An action without `xfail` is never expected to fail and its
      classification never raises. */
  lemma NoXfailIsPlain(s: Settings, path: string, v: Version, a: Action, failed: bool)
    requires a.xfail.None?
    ensures Classified(s, path, v, a, failed).Ok?
    ensures Classified(s, path, v, a, failed).value.kind == (if failed then Results.FAIL else Results.PASS)
  {
  }

  /** The message of a compatibility result starts with its tag and the
      bug identifier, and always ends with the target or the destination. */
  lemma MessageLayout(tag: string, bug: Option<string>, path: string, v: Version, a: Action)
    ensures StartsWith(Message(tag, bug, path, v, a), tag + ": " + (if bug.Some? then bug.value + ", " else ""))
    ensures EndsWith(Message(tag, bug, path, v, a), if "destination" in a.strings then ", " + a.strings["destination"] else ", " + ActionTarget(a))
  {
    var head, mid, tail := Head(tag, bug), path + ", " + v.version + ", " + Prefix(v.commit, 6), Tail(a);
    assert Message(tag, bug, path, v, a) == head + (mid + tail);
    StartsWithConcat(head, mid + tail);
    EndsWithConcat(head + mid, tail);
    TailEnds(a);
    EndsWithTrans(head + mid + tail, tail, if "destination" in a.strings then ", " + a.strings["destination"] else ", " + ActionTarget(a));
  }

  lemma TailEnds(a: Action)
    ensures EndsWith(Tail(a), if "destination" in a.strings then ", " + a.strings["destination"] else ", " + ActionTarget(a))
  {
    if "destination" in a.strings {
      EndsWithConcat(", " + ActionTarget(a), DestinationSuffix(a));
    } else {
      assert Tail(a) == ", " + ActionTarget(a) + "";
    }
  }

  lemma EndsWithTrans(s: string, t: string, u: string)
    requires EndsWith(s, t) && EndsWith(t, u)
    ensures EndsWith(s, u)
  {
    assert s[|s| - |u|..] == t[|t| - |u|..];
  }

  lemma StartsWithConcat(a: string, b: string)
    ensures StartsWith(a + b, a)
  {
    assert (a + b)[..|a|] == a;
  }

  lemma EndsWithConcat(a: string, b: string)
    ensures EndsWith(a + b, b)
  {
    assert (a + b)[|a|..] == b;
  }

  /** The classification answers the same for every compatibility entry
      with the same version and the same first six characters of commit:
      the full commit never reaches the message. */
  lemma ClassificationReadsShortCommit(s: Settings, path: string, v: Version, w: Version, a: Action, failed: bool)
    requires v.version == w.version && Prefix(v.commit, 6) == Prefix(w.commit, 6)
    ensures Classified(s, path, v, a, failed) == Classified(s, path, w, a, failed)
  {
    assert CurrentOf(s, v) == CurrentOf(s, w);
  }

  /** `CompatActionBuilder.build` with its `dispatch`: the action name is
      read first (for an identifier that is never used), a commit that is
      not 40 characters long ends the program with status 1, the checkout
      may raise, a version that is not the latest is skipped when only the
      latest versions are wanted, and a finished build is classified.
      `isLatest` says whether `v` sorts first among the project's versions. */
  function CompatBuild(s: Settings, path: string, v: Version, a: Action, onlyLatest: bool, isLatest: bool,
                       checkedOut: bool, run: BuildRun): (o: Outcome)
    ensures o.Returned? && o.result.Some? ==>
      |v.commit| == 40 && checkedOut && (!onlyLatest || isLatest) && !run.BuildCrashed? &&
      Ok(o.result.value) == Classified(s, path, v, a, run.BuildFailed?)
    ensures o == Returned(None) <==>
      "action" in a.strings && |v.commit| == 40 && checkedOut && onlyLatest && !isLatest
    ensures "action" in a.strings && |v.commit| != 40 ==> o == Raised(SystemExit(1))
  {
    if "action" !in a.strings then Raised(MissingKey)
    else if |v.commit| != 40 then Raised(SystemExit(1))
    else if !checkedOut then Raised(CheckoutFailed)
    else if onlyLatest && !isLatest then Returned(None)
    else if run.BuildCrashed? then Raised(Crashed)
    else
      match Classified(s, path, v, a, run.BuildFailed?)
      case Err(e) => Raised(XfailError(e))
      case Ok(r) => Returned(Some(r))
  }

  /** `ActionBuilder.failed` and `.succeeded`: an action with `xfail` is
      expected to fail, whatever the key holds. `detail` is the error's
      text for a failure and the action's text for a success. */
  function BaseClassified(a: Action, identifier: string, failed: bool, detail: string): (r: Results.Result)
    ensures r.Action?
    ensures r.kind == KindFor(a.xfail.Some?, failed)
    ensures StartsWith(r.text, Results.KindName(r.kind) + ": " + identifier + ": ")
  {
    var k := KindFor(a.xfail.Some?, failed);
    var t := Results.KindName(k) + ": " + identifier + ": " + detail;
    StartsWithConcat(Results.KindName(k) + ": " + identifier + ": ", detail);
    Results.Action(k, t)
  }

  /** `ActionBuilder.build`: check out the project's branch, then build
      and classify under the branch name. `errorText` and `actionText`
      stand for the exception's and the action's printed forms. */
  function BaseBuild(branch: string, a: Action, checkedOut: bool, run: BuildRun, actionText: string): (o: Outcome)
    ensures o.Returned? <==> checkedOut && !run.BuildCrashed?
    ensures o.Returned? ==> o.result.Some? && Results.KindOf(o.result.value) == KindFor(a.xfail.Some?, run.BuildFailed?)
  {
    if !checkedOut then Raised(CheckoutFailed)
    else
      match run
      case BuildCrashed => Raised(Crashed)
      case BuildFailed(e) => Returned(Some(BaseClassified(a, branch, true, e)))
      case BuildPassed => Returned(Some(BaseClassified(a, branch, false, actionText)))
  }

  // ---------------------------------------------------------------------
  // project.py

  /** The older bug lookup, by compatibility version, platform and
      branch; only when the action has `xfail`. */
  function LegacyBug(s: Settings, compat: string, a: Action): (r: Wrappers.Result<Option<string>, PyError>)
    ensures a.xfail.None? ==> r == Ok(None)
  {
    if a.xfail.None? then Ok(None)
    else Xfail.IsXfailedLegacy(a.xfail.value, compat, s.platform, s.branch)
  }

  /** The message of the older `CompatActionBuilder`: an unexpected
      failure ends with the error, nothing names a commit. */
  function LegacyMessage(k: Results.Kind, bug: Option<string>, path: string, compat: string, a: Action, error: string): string {
    Results.KindName(k) + ": " + (if bug.Some? then bug.value + ", " else "") +
    path + ", " + compat + ", " + ActionTarget(a) + (if k == Results.FAIL then ", " + error else "")
  }

  /** The older `CompatActionBuilder.failed` (when `failed`) or
      `.succeeded`. */
  function LegacyClassified(s: Settings, path: string, compat: string, a: Action, failed: bool, error: string): (r: Wrappers.Result<Results.Result, PyError>)
    ensures r.Err? <==> LegacyBug(s, compat, a).Err?
    ensures r.Ok? ==> r.value.Action? && r.value.kind == KindFor(LegacyBug(s, compat, a).value.Some?, failed)
    ensures r.Ok? ==> r.value.text == LegacyMessage(r.value.kind, LegacyBug(s, compat, a).value, path, compat, a, error)
  {
    match LegacyBug(s, compat, a)
    case Err(e) => Err(e)
    case Ok(bug) =>
      var k := KindFor(bug.Some?, failed);
      Ok(Results.Action(k, LegacyMessage(k, bug, path, compat, a, error)))
  }

  /** Only an unexpected failure carries the error text. */
  lemma LegacyErrorOnlyOnFailure(s: Settings, path: string, compat: string, a: Action, failed: bool, e1: string, e2: string)
    requires LegacyClassified(s, path, compat, a, failed, e1).Ok?
    ensures LegacyClassified(s, path, compat, a, failed, e1).value.kind != Results.FAIL ==>
      LegacyClassified(s, path, compat, a, failed, e1) == LegacyClassified(s, path, compat, a, failed, e2)
  {
  }

  /** One version of the older build: the checkout, then the build, then
      the classification under the version's name. */
  datatype VersionRun = VersionRun(compat: string, checkedOut: bool, run: BuildRun)

  function LegacyStep(s: Settings, path: string, a: Action, x: VersionRun): Wrappers.Result<Results.Result, Fault> {
    if !x.checkedOut then Err(CheckoutFailed)
    else
      match x.run
      case BuildCrashed => Err(Crashed)
      case _ =>
        match LegacyClassified(s, path, x.compat, a, x.run.BuildFailed?, if x.run.BuildFailed? then x.run.error else "")
        case Err(e) => Err(XfailError(e))
        case Ok(r) => Ok(r)
  }

  /** A step that lets the loop go on: PASS or XFAIL. */
  predicate Acceptable(step: Wrappers.Result<Results.Result, Fault>) {
    step.Ok? && (Results.KindOf(step.value) == Results.PASS || Results.KindOf(step.value) == Results.XFAIL)
  }

  /** The older `CompatActionBuilder.build`, over the versions in the
      order the dictionary yields them: the first result that is neither
      PASS nor XFAIL, or else the last one; an empty compatibility
      dictionary leaves `action_result` unbound. */
  function LegacyOutcome(steps: seq<Wrappers.Result<Results.Result, Fault>>): Outcome {
    if steps == [] then Raised(UnboundLocal)
    else if steps[0].Err? then Raised(steps[0].error)
    else if |steps| == 1 || !Acceptable(steps[0]) then Returned(Some(steps[0].value))
    else LegacyOutcome(steps[1..])
  }

  /** The older build reports the first version that failed or passed
      unexpectedly, having seen only acceptable versions before it. */
  lemma {:induction false} LegacyReportsFirstUnacceptable(steps: seq<Wrappers.Result<Results.Result, Fault>>, i: nat)
    requires i < |steps| && steps[i].Ok? && !Acceptable(steps[i])
    requires forall j :: 0 <= j < i ==> Acceptable(steps[j])
    ensures LegacyOutcome(steps) == Returned(Some(steps[i].value))
    decreases i
  {
    if i > 0 {
      assert Acceptable(steps[0]);
      LegacyReportsFirstUnacceptable(steps[1..], i - 1);
    }
  }

  /** When every version is acceptable, the older build reports the last
      one; its exit status is then 0. */
  lemma {:induction false} LegacyAllAcceptable(steps: seq<Wrappers.Result<Results.Result, Fault>>)
    requires steps != [] && forall j :: 0 <= j < |steps| ==> Acceptable(steps[j])
    ensures var last := steps[|steps| - 1]; last.Ok? && LegacyOutcome(steps) == Returned(Some(last.value))
    ensures Results.ExitCode(Results.KindOf(LegacyOutcome(steps).result.value)) == 0
    decreases |steps|
  {
    assert Acceptable(steps[0]);
    if |steps| > 1 {
      LegacyAllAcceptable(steps[1..]);
    }
  }

  /** The older build stops at the first version whose checkout, build or
      lookup raised, having seen only acceptable versions before it. */
  lemma {:induction false} LegacyStopsAtFault(steps: seq<Wrappers.Result<Results.Result, Fault>>, i: nat)
    requires i < |steps| && steps[i].Err?
    requires forall j :: 0 <= j < i ==> Acceptable(steps[j])
    ensures LegacyOutcome(steps) == Raised(steps[i].error)
    decreases i
  {
    if i > 0 {
      assert Acceptable(steps[0]);
      LegacyStopsAtFault(steps[1..], i - 1);
    }
  }

  /** What each version of the compatibility dictionary yields, in the
      order the dictionary is iterated. */
  function LegacySteps(s: Settings, path: string, a: Action, versions: seq<VersionRun>): seq<Wrappers.Result<Results.Result, Fault>>
  {
    seq(|versions|, i requires 0 <= i < |versions| => LegacyStep(s, path, a, versions[i]))
  }

  /** The loop of the older `CompatActionBuilder.build`. */
  method LegacyBuild(s: Settings, path: string, a: Action, versions: seq<VersionRun>) returns (o: Outcome)
    ensures o == LegacyOutcome(LegacySteps(s, path, a, versions))
  {
    ghost var steps := LegacySteps(s, path, a, versions);
    var last: Option<Results.Result> := None;
    var i := 0;
    while i < |versions|
      invariant 0 <= i <= |versions|
      invariant forall j :: 0 <= j < i ==> Acceptable(steps[j])
      invariant last == if i == 0 then None else Some(steps[i - 1].value)
    {
      var step := LegacyStep(s, path, a, versions[i]);
      if step.Err? {
        LegacyStopsAtFault(steps, i);
        return Raised(step.error);
      }
      if !Acceptable(step) {
        LegacyReportsFirstUnacceptable(steps, i);
        return Returned(Some(step.value));
      }
      last := Some(step.value);
      i := i + 1;
    }
    if last.None? {
      return Raised(UnboundLocal);
    }
    LegacyAllAcceptable(steps);
    return Returned(last);
  }
}
