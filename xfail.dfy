/** Resolving whether a failure was expected: the `is_xfailed` of
    project_future.py, which scans a list of xfail specifications, and the
    older `is_xfailed` of project.py, which looks up a per-version table
    with wildcard priorities. Both answer with the bug identifier (the
    first word of the entry) or `None`. */
module Xfail {
  import opened Wrappers
  import opened Text
  import opened Json

  /** Answer `i` is the first that finds an entry or raises. */
  predicate Decides(answers: seq<Wrappers.Result<Option<string>, PyError>>, i: int) {
    0 <= i < |answers| && answers[i] != Ok(None) && forall j :: 0 <= j < i ==> answers[j] == Ok(None)
  }

  /** The first answer that finds an entry or raises; `None` when every
      answer is `None`. */
  function FirstFound(probes: seq<Wrappers.Result<Option<string>, PyError>>): Wrappers.Result<Option<string>, PyError> {
    if probes == [] then Ok(None)
    else if probes[0] != Ok(None) then probes[0]
    else FirstFound(probes[1..])
  }

  /** The scan answers `None` exactly when every answer is `None`. */
  lemma {:induction false} FirstFoundNone(probes: seq<Wrappers.Result<Option<string>, PyError>>)
    ensures FirstFound(probes) == Ok(None) <==> forall i :: 0 <= i < |probes| ==> probes[i] == Ok(None)
    decreases |probes|
  {
    if probes != [] && probes[0] == Ok(None) {
      FirstFoundNone(probes[1..]);
      assert forall i :: 1 <= i < |probes| ==> probes[i] == probes[1..][i - 1];
    }
  }

  /** The scan answers what the first answer other than `None` says. */
  lemma {:induction false} FirstFoundDecides(probes: seq<Wrappers.Result<Option<string>, PyError>>, i: int)
    requires Decides(probes, i)
    ensures FirstFound(probes) == probes[i]
    decreases i
  {
    if i > 0 {
      assert Decides(probes[1..], i - 1) by {
        assert forall j :: 0 <= j < i - 1 ==> probes[1..][j] == probes[j + 1];
      }
      FirstFoundDecides(probes[1..], i - 1);
    }
  }

  // ---------------------------------------------------------------------
  // project_future.py

  /** The values a specification is compared with: the compatibility
      version, the Swift branch, the platform and the job type (`Null` for
      no job type). */
  datatype Current = Current(compatibility: Value, branch: Value, platform: Value, job: Value)

  /** The keys compared with `Current`, besides `configuration`. */
  const CurrentKeys: seq<string> := ["compatibility", "branch", "platform", "job"]

  function CurrentValue(cur: Current, key: string): Value {
    if key == "compatibility" then cur.compatibility
    else if key == "branch" then cur.branch
    else if key == "platform" then cur.platform
    else cur.job
  }

  /** `is_or_contains(spec, arg)`: a list constrains to its elements, any
      other value to itself. */
  predicate IsOrContains(spec: Value, arg: Value) {
    if spec.Arr? then arg in spec.items else spec == arg
  }

  /** A specification lets `arg` through on `key` when it does not mention
      `key`, or when its value there is or contains `arg`. */
  predicate KeyAllows(fields: map<string, Value>, key: string, arg: Value) {
    key !in fields || IsOrContains(fields[key], arg)
  }

  /** Every compared key lets the current value through. `config` is the
      lowercased build configuration when the specification names one. */
  predicate Agrees(fields: map<string, Value>, cur: Current, config: Option<string>) {
    (forall key :: key in CurrentKeys ==> KeyAllows(fields, key, CurrentValue(cur, key))) &&
    (config.Some? ==> KeyAllows(fields, "configuration", Str(config.value)))
  }

  /** `matches(spec)`: the issue's first word is read before anything is
      compared, so a malformed issue raises even when the specification
      would not match. A specification naming a configuration needs a build
      configuration (`Null` stands for `None`); the configuration is
      compared in lower case. */
  function Matches(spec: Value, cur: Current, buildConfig: Value): (r: Wrappers.Result<Option<string>, PyError>)
    ensures r.Ok? && r.value.Some? ==>
      spec.Obj? && "issue" in spec.fields && FirstWord(spec.fields["issue"]) == Ok(r.value.value)
    ensures spec.Obj? && "issue" in spec.fields && FirstWord(spec.fields["issue"]).Err? ==>
      r == Err(FirstWord(spec.fields["issue"]).error)
    ensures r == Err(Unreachable) <==>
      spec.Obj? && "issue" in spec.fields && FirstWord(spec.fields["issue"]).Ok? &&
      "configuration" in spec.fields && buildConfig.Null?
    ensures !spec.Obj? ==> r == Err(TypeError)
    ensures spec.Obj? && "issue" !in spec.fields ==> r == Err(KeyError)
    ensures r.Ok? <==> (spec.Obj? && "issue" in spec.fields && FirstWord(spec.fields["issue"]).Ok? &&
      ("configuration" in spec.fields ==> buildConfig.Str?))
    ensures r.Ok? ==> (r.value.Some? <==>
      ("compatibility" in spec.fields ==> IsOrContains(spec.fields["compatibility"], cur.compatibility)) &&
      ("branch" in spec.fields ==> IsOrContains(spec.fields["branch"], cur.branch)) &&
      ("platform" in spec.fields ==> IsOrContains(spec.fields["platform"], cur.platform)) &&
      ("job" in spec.fields ==> IsOrContains(spec.fields["job"], cur.job)) &&
      ("configuration" in spec.fields ==> IsOrContains(spec.fields["configuration"], Str(Lower(buildConfig.s)))))
  {
    if !spec.Obj? then Err(TypeError)
    else if "issue" !in spec.fields then Err(KeyError)
    else
      match FirstWord(spec.fields["issue"])
      case Err(e) => Err(e)
      case Ok(issue) =>
        if "configuration" in spec.fields then
          match buildConfig
          case Null => Err(Unreachable)
          case Str(c) =>
            AgreesKeyByKey(spec.fields, cur, Some(Lower(c)));
            Ok(if Agrees(spec.fields, cur, Some(Lower(c))) then Some(issue) else None)
          case _ => Err(AttributeError)
        else
          AgreesKeyByKey(spec.fields, cur, None);
          Ok(if Agrees(spec.fields, cur, None) then Some(issue) else None)
  }

  /** `Agrees` taken key by key. */
  lemma AgreesKeyByKey(fields: map<string, Value>, cur: Current, config: Option<string>)
    ensures Agrees(fields, cur, config) <==>
      KeyAllows(fields, "compatibility", cur.compatibility) && KeyAllows(fields, "branch", cur.branch) &&
      KeyAllows(fields, "platform", cur.platform) && KeyAllows(fields, "job", cur.job) &&
      (config.Some? ==> KeyAllows(fields, "configuration", Str(config.value)))
  {
    assert CurrentKeys == ["compatibility", "branch", "platform", "job"];
    assert CurrentValue(cur, "compatibility") == cur.compatibility;
    assert CurrentValue(cur, "branch") == cur.branch;
    assert CurrentValue(cur, "platform") == cur.platform;
    assert CurrentValue(cur, "job") == cur.job;
  }

  /** The specifications `is_xfailed` scans: a dictionary is wrapped in a
      one-element list, a list is taken as it is, and iterating a string
      yields its one-character strings. Other values are not iterable. */
  function Specs(xfail: Value): (r: Wrappers.Result<seq<Value>, PyError>)
    ensures xfail.Obj? ==> r == Ok([xfail])
    ensures xfail.Arr? ==> r == Ok(xfail.items)
    ensures r.Err? <==> xfail.Null? || xfail.Bool? || xfail.Num?
  {
    match xfail
    case Obj(_) => Ok([xfail])
    case Arr(items) => Ok(items)
    case Str(s) => Ok(seq(|s|, i requires 0 <= i < |s| => Str([s[i]])))
    case _ => Err(TypeError)
  }

  /** What each specification answers, in order; the loop of
      `is_xfailed` stops at the first one that is not `None`. */
  function Answers(specs: seq<Value>, cur: Current, buildConfig: Value): (r: seq<Wrappers.Result<Option<string>, PyError>>)
    ensures |r| == |specs|
  {
    seq(|specs|, i requires 0 <= i < |specs| => Matches(specs[i], cur, buildConfig))
  }

  /** `is_xfailed` of project_future.py. */
  function IsXfailed(xfail: Value, cur: Current, buildConfig: Value): Wrappers.Result<Option<string>, PyError> {
    match Specs(xfail)
    case Err(e) => Err(e)
    case Ok(specs) => FirstFound(Answers(specs, cur, buildConfig))
  }

  /** A specification holding only an issue matches whatever is current,
      and the answer is the first word of its issue. */
  lemma IssueOnlyMatchesEverything(issue: string, cur: Current, buildConfig: Value)
    requires !AllSpace(issue)
    ensures IsXfailed(Obj(map["issue" := Str(issue)]), cur, buildConfig) == Ok(FirstToken(issue))
  {
    var spec := Obj(map["issue" := Str(issue)]);
    assert forall key :: key in CurrentKeys ==> key !in spec.fields;
    assert Matches(spec, cur, buildConfig) == Ok(FirstToken(issue));
  }

  /** A list value on a key matches exactly its elements. */
  lemma ListMeansAnyOf(fields: map<string, Value>, key: string, options: seq<Value>, arg: Value)
    requires key in fields && fields[key] == Arr(options)
    ensures KeyAllows(fields, key, arg) <==> exists i :: 0 <= i < |options| && options[i] == arg
  {
    if arg in options {
      var i :| 0 <= i < |options| && options[i] == arg;
    }
  }

  /** The configuration is compared case-insensitively: two build
      configurations with the same lower case give the same answer. */
  lemma ConfigurationIgnoresCase(xfail: Value, cur: Current, c1: string, c2: string)
    requires Lower(c1) == Lower(c2)
    ensures IsXfailed(xfail, cur, Str(c1)) == IsXfailed(xfail, cur, Str(c2))
  {
    match Specs(xfail)
    case Err(_) =>
    case Ok(specs) =>
      var a1, a2 := Answers(specs, cur, Str(c1)), Answers(specs, cur, Str(c2));
      forall i | 0 <= i < |specs| ensures a1[i] == a2[i] {
        assert a1[i] == Matches(specs[i], cur, Str(c1));
        assert a2[i] == Matches(specs[i], cur, Str(c2));
      }
      assert a1 == a2;
  }

  /** A specification that names a configuration, met without any build
      configuration, stops the scan with `Unreachable` as soon as it is
      reached. */
  lemma ConfigurationWithoutBuildConfig(specs: seq<Value>, cur: Current, i: nat)
    requires i < |specs| && specs[i].Obj? && "configuration" in specs[i].fields
    requires "issue" in specs[i].fields && FirstWord(specs[i].fields["issue"]).Ok?
    requires forall j :: 0 <= j < i ==> Matches(specs[j], cur, Null) == Ok(None)
    ensures IsXfailed(Arr(specs), cur, Null) == Err(Unreachable)
  {
    var a := Answers(specs, cur, Null);
    assert a[i] == Err(Unreachable) by {
      assert a[i] == Matches(specs[i], cur, Null);
    }
    assert Decides(a, i) by {
      forall j | 0 <= j < i ensures a[j] == Ok(None) {
        assert a[j] == Matches(specs[j], cur, Null);
      }
    }
    assert Specs(Arr(specs)) == Ok(specs);
    FirstFoundDecides(a, i);
  }

  /** For a list of specifications, `is_xfailed` answers `None` exactly when
      no specification matches or raises, and otherwise answers what the
      first such specification answers. */
  lemma IsXfailedScansInOrder(specs: seq<Value>, cur: Current, buildConfig: Value)
    ensures IsXfailed(Arr(specs), cur, buildConfig) == Ok(None) <==>
      forall i :: 0 <= i < |specs| ==> Matches(specs[i], cur, buildConfig) == Ok(None)
    ensures forall i :: Decides(Answers(specs, cur, buildConfig), i) ==>
      IsXfailed(Arr(specs), cur, buildConfig) == Matches(specs[i], cur, buildConfig)
  {
    var a := Answers(specs, cur, buildConfig);
    assert forall i :: 0 <= i < |specs| ==> a[i] == Matches(specs[i], cur, buildConfig);
    FirstFoundNone(a);
    forall i | Decides(a, i) ensures FirstFound(a) == a[i] {
      FirstFoundDecides(a, i);
    }
  }

  // ---------------------------------------------------------------------
  // project.py

  /** One step of the older lookup: when `key in container`, the first
      word of `container[key]`; `Ok(None)` to go on with the next step. */
  function Probe(container: Value, key: string): (r: Wrappers.Result<Option<string>, PyError>)
    ensures r.Ok? && r.value.Some? ==>
      container.Obj? && key in container.fields && FirstWord(container.fields[key]) == Ok(r.value.value)
    ensures container.Obj? && key !in container.fields ==> r == Ok(None)
  {
    match Contains(container, key)
    case Err(e) => Err(e)
    case Ok(present) =>
      if !present then Ok(None)
      else
        match Index(container, key)
        case Err(e) => Err(e)
        case Ok(v) =>
          match FirstWord(v)
          case Err(e) => Err(e)
          case Ok(w) => Ok(Some(w))
  }

  /** `xfail.get(name, {})`, raising when `xfail` is not a dictionary. */
  function Section(xfail: Value, name: string): Wrappers.Result<Value, PyError> {
    Get(xfail, name, EmptyObj)
  }

  /** The five lookups of the older `is_xfailed`, in priority order:
      `'*'` for every branch and platform, then `branch['*']`, then
      `platform['*']`, then the exact branch, then the exact platform. */
  function LegacyProbes(xfail: Value, platform: string, branch: string): seq<Wrappers.Result<Option<string>, PyError>> {
    var branches := Section(xfail, "branch");
    var platforms := Section(xfail, "platform");
    [ Probe(xfail, "*"),
      if branches.Err? then Err(branches.error) else Probe(branches.value, "*"),
      if platforms.Err? then Err(platforms.error) else Probe(platforms.value, "*"),
      if branches.Err? then Err(branches.error) else Probe(branches.value, branch),
      if platforms.Err? then Err(platforms.error) else Probe(platforms.value, platform) ]
  }

  /** `is_xfailed` of project.py: the entry for the compatible version
      (an empty one when there is none) is searched in priority order. */
  function IsXfailedLegacy(xfailArgs: Value, version: string, platform: string, branch: string): Wrappers.Result<Option<string>, PyError> {
    match Index(xfailArgs, "compatibility")
    case Err(e) => Err(e)
    case Ok(table) =>
      match Get(table, version, EmptyObj)
      case Err(e) => Err(e)
      case Ok(xfail) => FirstFound(LegacyProbes(xfail, platform, branch))
  }

  /** A well-shaped entry: a dictionary whose `branch` and `platform`
      sections, when present, are dictionaries of strings, and whose `'*'`
      is a string. */
  predicate WellShaped(xfail: Value) {
    xfail.Obj? &&
    ("*" in xfail.fields ==> xfail.fields["*"].Str?) &&
    (forall name :: name in ["branch", "platform"] && name in xfail.fields ==> StringTable(xfail.fields[name]))
  }

  predicate StringTable(v: Value) {
    v.Obj? && forall k :: k in v.fields ==> v.fields[k].Str?
  }

  /** A wildcard for every branch and platform wins over any branch or
      platform entry. */
  lemma LegacyWildcardWins(xfailArgs: Value, version: string, platform: string, branch: string, issue: string)
    requires xfailArgs.Obj? && "compatibility" in xfailArgs.fields
    requires xfailArgs.fields["compatibility"].Obj? && version in xfailArgs.fields["compatibility"].fields
    requires var xfail := xfailArgs.fields["compatibility"].fields[version];
      xfail.Obj? && "*" in xfail.fields && xfail.fields["*"] == Str(issue) && !AllSpace(issue)
    ensures IsXfailedLegacy(xfailArgs, version, platform, branch) == Ok(FirstToken(issue))
  {
    var xfail := xfailArgs.fields["compatibility"].fields[version];
    var probes := LegacyProbes(xfail, platform, branch);
    assert probes[0] == Ok(FirstToken(issue));
  }

  /** The section `name` of a well-shaped entry, empty when absent. */
  function SectionOf(xfail: Value, name: string): (v: Value)
    requires WellShaped(xfail) && name in ["branch", "platform"]
    ensures StringTable(v)
    ensures name in xfail.fields ==> v == xfail.fields[name]
  {
    if name in xfail.fields then xfail.fields[name] else EmptyObj
  }

  /** On a well-shaped entry, reading the sections never raises: the five
      lookups are plain probes of the entry and of its two sections. */
  lemma LegacyProbesOfWellShaped(xfail: Value, platform: string, branch: string)
    requires WellShaped(xfail)
    ensures LegacyProbes(xfail, platform, branch) ==
      [Probe(xfail, "*"), Probe(SectionOf(xfail, "branch"), "*"), Probe(SectionOf(xfail, "platform"), "*"),
       Probe(SectionOf(xfail, "branch"), branch), Probe(SectionOf(xfail, "platform"), platform)]
  {
    assert Section(xfail, "branch") == Ok(SectionOf(xfail, "branch"));
    assert Section(xfail, "platform") == Ok(SectionOf(xfail, "platform"));
  }

  /** Looking up a key of a dictionary of strings finds the first word of
      its string, raises IndexError when that string is blank, and answers
      `None` when the key is absent. */
  lemma ProbeStringTable(v: Value, key: string)
    requires StringTable(v)
    ensures key !in v.fields ==> Probe(v, key) == Ok(None)
    ensures key in v.fields && !AllSpace(v.fields[key].s) ==> Probe(v, key) == Ok(FirstToken(v.fields[key].s))
    ensures key in v.fields && AllSpace(v.fields[key].s) ==> Probe(v, key) == Err(IndexError)
  {
  }

  /** On a well-shaped entry without a global wildcard, a wildcard in the
      branch section wins over the platform wildcard and over every exact
      branch or platform entry. */
  lemma LegacyBranchWildcardWins(xfail: Value, platform: string, branch: string, issue: string)
    requires WellShaped(xfail) && "*" !in xfail.fields
    requires "branch" in xfail.fields && "*" in xfail.fields["branch"].fields
    requires xfail.fields["branch"].fields["*"] == Str(issue) && !AllSpace(issue)
    ensures FirstFound(LegacyProbes(xfail, platform, branch)) == Ok(FirstToken(issue))
  {
    LegacyProbesOfWellShaped(xfail, platform, branch);
    ProbeStringTable(SectionOf(xfail, "branch"), "*");
    FirstFoundDecides(LegacyProbes(xfail, platform, branch), 1);
  }

  /** On a well-shaped entry without wildcards, an exact branch entry wins
      over an exact platform entry; the answer is the first word of the
      branch entry. */
  lemma LegacyBranchBeforePlatform(xfail: Value, platform: string, branch: string, issue: string)
    requires WellShaped(xfail) && "*" !in xfail.fields
    requires "branch" in xfail.fields && branch in xfail.fields["branch"].fields
    requires xfail.fields["branch"].fields[branch] == Str(issue) && !AllSpace(issue)
    requires "*" !in xfail.fields["branch"].fields
    requires "platform" in xfail.fields ==> "*" !in xfail.fields["platform"].fields
    ensures FirstFound(LegacyProbes(xfail, platform, branch)) == Ok(FirstToken(issue))
  {
    var b := SectionOf(xfail, "branch");
    var p := SectionOf(xfail, "platform");
    LegacyProbesOfWellShaped(xfail, platform, branch);
    ProbeStringTable(b, "*");
    ProbeStringTable(p, "*");
    ProbeStringTable(b, branch);
    var ps := LegacyProbes(xfail, platform, branch);
    assert ps[0] == Ok(None) && ps[1] == Ok(None) && ps[2] == Ok(None);
    assert ps[3] == Ok(FirstToken(issue));
    FirstFoundDecides(ps, 3);
  }

  /** An entry without any of the five keys answers `None`. */
  lemma LegacyNothingMatches(xfail: Value, platform: string, branch: string)
    requires WellShaped(xfail) && "*" !in xfail.fields
    requires "branch" in xfail.fields ==> "*" !in xfail.fields["branch"].fields && branch !in xfail.fields["branch"].fields
    requires "platform" in xfail.fields ==> "*" !in xfail.fields["platform"].fields && platform !in xfail.fields["platform"].fields
    ensures FirstFound(LegacyProbes(xfail, platform, branch)) == Ok(None)
  {
    var b := SectionOf(xfail, "branch");
    var p := SectionOf(xfail, "platform");
    LegacyProbesOfWellShaped(xfail, platform, branch);
    ProbeStringTable(b, "*");
    ProbeStringTable(b, branch);
    ProbeStringTable(p, "*");
    ProbeStringTable(p, platform);
    FirstFoundNone(LegacyProbes(xfail, platform, branch));
  }
}
