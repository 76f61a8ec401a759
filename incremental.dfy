/** The incremental determinism checker of project_future.py
    (`IncrementalActionBuilder`): an action is built once in full at the
    first commit of a set and incrementally at each later commit, the
    build state after each build is saved under a numbered name, and the
    saved states of a full and an incremental build can be compared file
    by file. A build whose result is neither PASS nor XFAIL ends the whole
    run through `EarlyExit`. */
module Incremental {
  import opened Wrappers
  import opened Text
  import Results
  import Classify

  // ---------------------------------------------------------------------
  // Comparing two saved build states

  /** `ignore_missing`: a file present on one side only is not reported
      when it is a diagnostics file or a backup. */
  predicate IgnoreMissing(f: string) {
    EndsWith(f, ".dia") || EndsWith(f, "~")
  }

  /** `ignore_diff`: a file whose contents differ is not reported when it
      is a dependency record that always changes. */
  predicate IgnoreDiff(f: string) {
    EndsWith(f, "-master.swiftdeps") || EndsWith(f, "dependency_info.dat")
  }

  /** What `filecmp.dircmp` reports for one pair of directories: `dir`, the
      path of both below the two roots (empty at the roots); the names only
      in the full tree, the names only in the incremental tree, the common
      files that differ, and the comparisons of the common subdirectories
      in the order `subdirs.values()` yields them. */
  datatype DirCmp = DirCmp(dir: string, leftOnly: seq<string>, rightOnly: seq<string>, diffFiles: seq<string>, subdirs: seq<DirCmp>)

  /** The three lists a comparison reports. */
  datatype Side = LeftOnly | RightOnly | Different

  /** One line `have_same_trees` logs: `Missing 'incr' file`, `Missing
      'full' file` or `File difference`, with the file's path below the
      roots. */
  datatype Report = Report(side: Side, name: string)

  predicate Ignored(side: Side, f: string) {
    if side == Different then IgnoreDiff(f) else IgnoreMissing(f)
  }

  /** `os.path.relpath(os.path.join(d.left, f), full)`. */
  function RelName(dir: string, f: string): string {
    if dir == [] then f else dir + "/" + f
  }

  /** The lines logged for one list of names, in order. */
  function Reported(dir: string, side: Side, names: seq<string>): (r: seq<Report>)
    ensures |r| <= |names|
  {
    if names == [] then []
    else (if Ignored(side, names[0]) then [] else [Report(side, RelName(dir, names[0]))]) + Reported(dir, side, names[1..])
  }

  /** Every line logged for a comparison: its own three lists, then each
      subdirectory's lines in turn. */
  function TreeReports(d: DirCmp): seq<Report>
    decreases d, 1
  {
    Reported(d.dir, LeftOnly, d.leftOnly) + Reported(d.dir, RightOnly, d.rightOnly) +
    Reported(d.dir, Different, d.diffFiles) + SubReports(d.subdirs)
  }

  function SubReports(ds: seq<DirCmp>): seq<Report>
    decreases ds, 0
  {
    if ds == [] then [] else TreeReports(ds[0]) + SubReports(ds[1..])
  }

  /** Two trees are the same when, at every depth, each name found on one
      side only is one `ignore_missing` accepts and each differing file is
      one `ignore_diff` accepts. */
  predicate Clean(d: DirCmp)
    decreases d
  {
    (forall i :: 0 <= i < |d.leftOnly| ==> IgnoreMissing(d.leftOnly[i])) &&
    (forall i :: 0 <= i < |d.rightOnly| ==> IgnoreMissing(d.rightOnly[i])) &&
    (forall i :: 0 <= i < |d.diffFiles| ==> IgnoreDiff(d.diffFiles[i])) &&
    (forall i :: 0 <= i < |d.subdirs| ==> Clean(d.subdirs[i]))
  }

  lemma {:induction false} ReportedEmpty(dir: string, side: Side, names: seq<string>)
    ensures Reported(dir, side, names) == [] <==> forall i :: 0 <= i < |names| ==> Ignored(side, names[i])
    decreases |names|
  {
    if names != [] {
      ReportedEmpty(dir, side, names[1..]);
      assert forall i :: 1 <= i < |names| ==> names[i] == names[1..][i - 1];
    }
  }

  lemma ReportedPrefix(dir: string, side: Side, names: seq<string>, i: nat)
    requires i < |names|
    ensures Reported(dir, side, names[..i + 1]) ==
      Reported(dir, side, names[..i]) + (if Ignored(side, names[i]) then [] else [Report(side, RelName(dir, names[i]))])
  {
    assert names[..i + 1] == names[..i] + [names[i]];
    ReportedAppend(dir, side, names[..i], names[i]);
  }

  lemma {:induction false} ReportedAppend(dir: string, side: Side, names: seq<string>, f: string)
    ensures Reported(dir, side, names + [f]) ==
      Reported(dir, side, names) + (if Ignored(side, f) then [] else [Report(side, RelName(dir, f))])
    decreases |names|
  {
    if names == [] {
      assert names + [f] == [f];
    } else {
      assert (names + [f])[1..] == names[1..] + [f];
      ReportedAppend(dir, side, names[1..], f);
      AppendAssoc((if Ignored(side, names[0]) then [] else [Report(side, RelName(dir, names[0]))]),
        Reported(dir, side, names[1..]), (if Ignored(side, f) then [] else [Report(side, RelName(dir, f))]));
    }
  }

  lemma AppendAssoc<T>(a: seq<T>, b: seq<T>, c: seq<T>)
    ensures a + b + c == a + (b + c)
  {
  }

  lemma SubReportsPrefix(ds: seq<DirCmp>, i: nat)
    requires i < |ds|
    ensures SubReports(ds[..i + 1]) == SubReports(ds[..i]) + TreeReports(ds[i])
  {
    assert ds[..i + 1] == ds[..i] + [ds[i]];
    SubReportsAppend(ds[..i], ds[i]);
  }

  lemma {:induction false} SubReportsAppend(ds: seq<DirCmp>, d: DirCmp)
    ensures SubReports(ds + [d]) == SubReports(ds) + TreeReports(d)
    decreases |ds|
  {
    if ds == [] {
      assert ds + [d] == [d];
      assert TreeReports(d) + [] == TreeReports(d);
    } else {
      assert (ds + [d])[1..] == ds[1..] + [d];
      assert (ds + [d])[0] == ds[0];
      SubReportsAppend(ds[1..], d);
      AppendAssoc(TreeReports(ds[0]), SubReports(ds[1..]), TreeReports(d));
    }
  }

  /** The trees are the same exactly when nothing is logged. */
  lemma {:induction false} CleanIffSilent(d: DirCmp)
    ensures Clean(d) <==> TreeReports(d) == []
    decreases d, 1
  {
    ReportedEmpty(d.dir, LeftOnly, d.leftOnly);
    ReportedEmpty(d.dir, RightOnly, d.rightOnly);
    ReportedEmpty(d.dir, Different, d.diffFiles);
    SubCleanIffSilent(d.subdirs);
    assert |TreeReports(d)| == |Reported(d.dir, LeftOnly, d.leftOnly)| + |Reported(d.dir, RightOnly, d.rightOnly)| +
      |Reported(d.dir, Different, d.diffFiles)| + |SubReports(d.subdirs)|;
  }

  lemma {:induction false} SubCleanIffSilent(ds: seq<DirCmp>)
    ensures (forall i :: 0 <= i < |ds| ==> Clean(ds[i])) <==> SubReports(ds) == []
    decreases ds, 0
  {
    if ds != [] {
      CleanIffSilent(ds[0]);
      SubCleanIffSilent(ds[1..]);
      assert forall i :: 1 <= i < |ds| ==> ds[i] == ds[1..][i - 1];
    }
  }

  /** A mismatch does not stop the walk: whatever a subdirectory logs is
      logged for the whole comparison too, whatever came before it. */
  lemma {:induction false} SubdirectoriesAlwaysWalked(d: DirCmp, i: nat, r: Report)
    requires i < |d.subdirs| && r in TreeReports(d.subdirs[i])
    ensures r in TreeReports(d)
  {
    SubReportsContain(d.subdirs, i, r);
  }

  lemma {:induction false} SubReportsContain(ds: seq<DirCmp>, i: nat, r: Report)
    requires i < |ds| && r in TreeReports(ds[i])
    ensures r in SubReports(ds)
    decreases i
  {
    if i > 0 {
      assert ds[1..][i - 1] == ds[i];
      SubReportsContain(ds[1..], i - 1, r);
    }
  }

  /** A diagnostics file or backup present only in the full tree changes
      neither the verdict nor the log. */
  lemma IgnoredMissingChangesNothing(d: DirCmp, f: string)
    requires IgnoreMissing(f)
    ensures TreeReports(d.(leftOnly := d.leftOnly + [f])) == TreeReports(d)
    ensures Clean(d.(leftOnly := d.leftOnly + [f])) == Clean(d)
  {
    ReportedAppend(d.dir, LeftOnly, d.leftOnly, f);
    assert Reported(d.dir, LeftOnly, d.leftOnly) + [] == Reported(d.dir, LeftOnly, d.leftOnly);
    CleanIffSilent(d);
    CleanIffSilent(d.(leftOnly := d.leftOnly + [f]));
  }

  /** The loop over one of the three lists of `have_same_trees`: `ok`
      stays true while every name is ignored, and every other name is
      logged. */
  method CheckNames(dir: string, side: Side, names: seq<string>) returns (ok: bool, log: seq<Report>)
    ensures ok <==> forall i :: 0 <= i < |names| ==> Ignored(side, names[i])
    ensures log == Reported(dir, side, names)
  {
    ok := true;
    log := [];
    var i := 0;
    while i < |names|
      invariant 0 <= i <= |names|
      invariant ok <==> forall j :: 0 <= j < i ==> Ignored(side, names[j])
      invariant log == Reported(dir, side, names[..i])
    {
      var f := names[i];
      ReportedPrefix(dir, side, names, i);
      if !Ignored(side, f) {
        ok := false;
        log := log + [Report(side, RelName(dir, f))];
      }
      i := i + 1;
    }
    assert names[..i] == names;
  }

  /** `have_same_trees`: true exactly when the trees are the same; every
      mismatch at every depth is logged, each subdirectory being compared
      even after a mismatch. */
  method HaveSameTrees(d: DirCmp) returns (ok: bool, log: seq<Report>)
    ensures ok == Clean(d)
    ensures log == TreeReports(d)
    decreases d, 1
  {
    var okLeft, left := CheckNames(d.dir, LeftOnly, d.leftOnly);
    var okRight, right := CheckNames(d.dir, RightOnly, d.rightOnly);
    var okDiff, diff := CheckNames(d.dir, Different, d.diffFiles);
    var okSub, sub := CompareSubdirs(d.subdirs);
    ok := okSub && (okLeft && okRight && okDiff);
    log := left + right + diff + sub;
  }

  /** The last loop of `have_same_trees`: each subdirectory is compared in
      turn, its result joined with `and` after the call, so that a
      mismatch never skips the comparisons after it. */
  method CompareSubdirs(ds: seq<DirCmp>) returns (ok: bool, log: seq<Report>)
    ensures ok <==> forall i :: 0 <= i < |ds| ==> Clean(ds[i])
    ensures log == SubReports(ds)
    decreases ds, 0
  {
    ok := true;
    log := [];
    var i := 0;
    while i < |ds|
      invariant 0 <= i <= |ds|
      invariant ok <==> forall j :: 0 <= j < i ==> Clean(ds[j])
      invariant log == SubReports(ds[..i])
    {
      var subOk, subLog := HaveSameTrees(ds[i]);
      SubReportsPrefix(ds, i);
      ok := subOk && ok;
      log := log + subLog;
      i := i + 1;
    }
    assert ds[..i] == ds;
  }

  // ---------------------------------------------------------------------
  // Where build states live

  /** `os.path.join(a, b)` of POSIX Python: an absolute `b` replaces `a`. */
  function PathJoin(a: string, b: string): string {
    if StartsWith(b, "/") then b
    else if a == [] || EndsWith(a, "/") then a + b
    else a + "/" + b
  }

  /** The length of `p` up to and including its last `/` (0 without one). */
  function LastSlashEnd(p: string): (k: nat)
    ensures k <= |p| && (k > 0 ==> p[k - 1] == '/')
    ensures forall i :: k <= i < |p| ==> p[i] != '/'
  {
    if p == [] then 0
    else if p[|p| - 1] == '/' then |p|
    else LastSlashEnd(p[..|p| - 1])
  }

  function RStripSlash(h: string): (r: string)
    ensures |r| <= |h| && r == h[..|r|]
  {
    if h != [] && h[|h| - 1] == '/' then RStripSlash(h[..|h| - 1]) else h
  }

  /** `os.path.dirname(p)` of POSIX Python: everything up to the last `/`,
      without its trailing slashes unless it is made of slashes only. */
  function Dirname(p: string): string {
    var head := p[..LastSlashEnd(p)];
    if exists i :: 0 <= i < |head| && head[i] != '/' then RStripSlash(head) else head
  }

  /** The `(Build|Test)Xcode(Workspace|Project)(Scheme|Target)` actions,
      with the lower-cased middle group: the action key that names the
      workspace or project. */
  function XcodeContainer(name: string): (r: Option<string>)
    ensures r.Some? ==> r.value == "workspace" || r.value == "project"
    ensures r.Some? ==> StartsWith(name, "Build") || StartsWith(name, "Test")
  {
    if name in ["BuildXcodeWorkspaceScheme", "BuildXcodeWorkspaceTarget", "TestXcodeWorkspaceScheme", "TestXcodeWorkspaceTarget"] then
      Some("workspace")
    else if name in ["BuildXcodeProjectScheme", "BuildXcodeProjectTarget", "TestXcodeProjectScheme", "TestXcodeProjectTarget"] then
      Some("project")
    else None
  }

  /** Why a build state could not be located. */
  datatype StateError = MissingKey(key: string) | Unsupported(message: string)

  /** `curr_build_state_path`: `.build` inside a package; for an Xcode
      action, the `build` directory next to its workspace or project.
      Other actions are unsupported. */
  function CurrBuildStatePath(projPath: string, a: Classify.Action): (r: Wrappers.Result<string, StateError>)
    ensures r.Err? && r.error.MissingKey? ==> r.error.key !in a.strings
    ensures "action" in a.strings && a.strings["action"] == "BuildSwiftPackage" ==> r == Ok(PathJoin(projPath, ".build"))
    ensures "action" in a.strings && a.strings["action"] != "BuildSwiftPackage" && XcodeContainer(a.strings["action"]).None? ==>
      r == Err(Unsupported("Unsupported action: " + a.strings["action"]))
  {
    if "action" !in a.strings then Err(MissingKey("action"))
    else
      var name := a.strings["action"];
      if name == "BuildSwiftPackage" then Ok(PathJoin(projPath, ".build"))
      else
        match XcodeContainer(name)
        case None => Err(Unsupported("Unsupported action: " + name))
        case Some(key) =>
          if key !in a.strings then Err(MissingKey(key))
          else Ok(PathJoin(Dirname(PathJoin(projPath, a.strings[key])), "build"))
  }

  /** The `build` directory of an Xcode action whose workspace or project
      is named by a plain file name lies directly inside the project's
      checkout. */
  lemma XcodeStateBesideProject(projPath: string, a: Classify.Action, key: string)
    requires projPath != [] && projPath[|projPath| - 1] != '/'
    requires "action" in a.strings && XcodeContainer(a.strings["action"]) == Some(key)
    requires key in a.strings && a.strings[key] != [] && '/' !in a.strings[key]
    ensures CurrBuildStatePath(projPath, a) == Ok(projPath + "/build")
  {
    var v := a.strings[key];
    assert !StartsWith(v, "/") by { assert v[0] != '/'; }
    assert !EndsWith(projPath, "/");
    var p := projPath + "/" + v;
    assert PathJoin(projPath, v) == p;
    var head := projPath + "/";
    assert LastSlashEnd(p) == |head| by {
      LastSlashEndAt(p, |head|);
    }
    assert p[..|head|] == head;
    assert head[|projPath| - 1] != '/';
    assert RStripSlash(head) == projPath by {
      assert head[..|head| - 1] == projPath;
      assert RStripSlash(projPath) == projPath;
    }
    assert Dirname(p) == projPath;
    assert !StartsWith("build", "/");
    assert projPath + "/" + "build" == projPath + "/build";
  }

  lemma {:induction false} LastSlashEndAt(p: string, k: nat)
    requires 0 < k <= |p| && p[k - 1] == '/' && forall i :: k <= i < |p| ==> p[i] != '/'
    ensures LastSlashEnd(p) == k
    decreases |p|
  {
    if k < |p| {
      assert p[|p| - 1] != '/';
      LastSlashEndAt(p[..|p| - 1], k);
    }
  }

  /** `ignored_differences`: the names `dircmp` skips for a package or an
      Xcode action; other actions are unsupported. */
  function IgnoredDifferences(a: Classify.Action): (r: Wrappers.Result<seq<string>, StateError>)
    ensures r.Ok? <==> ("action" in a.strings &&
      (a.strings["action"] == "BuildSwiftPackage" || XcodeContainer(a.strings["action"]).Some?))
    ensures r.Ok? ==> "ModuleCache" in r.value && "master.swiftdeps" in r.value && "master.swiftdeps~" in r.value
  {
    if "action" !in a.strings then Err(MissingKey("action"))
    else if a.strings["action"] == "BuildSwiftPackage" then
      Ok(["ModuleCache", "build.db", "master.swiftdeps", "master.swiftdeps~"])
    else if XcodeContainer(a.strings["action"]).Some? then
      Ok(["ModuleCache", "Logs", "info.plist", "dgph", "dgph~", "master.swiftdeps", "master.swiftdeps~"])
    else Err(Unsupported("Unsupported action: " + a.strings["action"]))
  }

  /** The directory holding a project's saved states: its checkout's path
      with `-incr` appended. */
  function IncrPath(projPath: string): string {
    projPath + "-incr"
  }

  /** `"build-state-%03d-%s-%.7s" % (seq, flav, sha)`. */
  function StateName(n: nat, flav: string, sha: string): string {
    "build-state-" + (ZeroPad(n, 3) + ("-" + (flav + ("-" + Prefix(sha, 7)))))
  }

  /** `saved_build_state_path`. */
  function SavedBuildStatePath(projPath: string, n: nat, flav: string, sha: string): (r: string)
    ensures StartsWith(r, projPath + "-incr/") && EndsWith(r, "/" + StateName(n, flav, sha))
    ensures |r| == |projPath| + |"-incr/"| + |StateName(n, flav, sha)|
  {
    var r := IncrPath(projPath) + "/" + StateName(n, flav, sha);
    assert r == IncrPath(projPath) + ("/" + StateName(n, flav, sha));
    EndsWithSuffix(IncrPath(projPath), "/" + StateName(n, flav, sha));
    r
  }

  lemma EndsWithSuffix(a: string, b: string)
    ensures EndsWith(a + b, b)
  {
    assert (a + b)[|a|..] == b;
  }

  predicate NoDash(s: string) {
    forall i :: 0 <= i < |s| ==> s[i] != '-'
  }

  /** The position of the first dash of `s` (its length without one). */
  function DashIndex(s: string): nat {
    if s == [] || s[0] == '-' then 0 else 1 + DashIndex(s[1..])
  }

  lemma {:induction false} DashIndexAfter(a: string, x: string)
    requires NoDash(a)
    ensures DashIndex(a + ("-" + x)) == |a|
    decreases |a|
  {
    if a != [] {
      assert (a + ("-" + x))[1..] == a[1..] + ("-" + x);
      DashIndexAfter(a[1..], x);
    }
  }

  /** Splitting at the first dash. */
  lemma SplitAtDash(a: string, x: string, b: string, y: string)
    requires NoDash(a) && NoDash(b) && a + ("-" + x) == b + ("-" + y)
    ensures a == b && x == y
  {
    var s := a + ("-" + x);
    DashIndexAfter(a, x);
    DashIndexAfter(b, y);
    assert a == s[..|a|] && b == s[..|b|];
    assert x == s[|a| + 1..] && y == s[|b| + 1..];
  }

  /** Two saved states of a set get the same name only for the same build
      number, the same flavour and the same first seven characters of the
      commit: no snapshot overwrites another one of a different build. */
  lemma StateNamesDistinct(n1: nat, f1: string, h1: string, n2: nat, f2: string, h2: string)
    requires f1 in ["full", "incr"] && f2 in ["full", "incr"]
    ensures StateName(n1, f1, h1) == StateName(n2, f2, h2) <==> n1 == n2 && f1 == f2 && Prefix(h1, 7) == Prefix(h2, 7)
  {
    if StateName(n1, f1, h1) == StateName(n2, f2, h2) {
      assert NoDash(f1) && NoDash(f2) by {
        assert NoDash("full") && NoDash("incr");
      }
      StateNameParts(n1, f1, h1, n2, f2, h2);
    }
  }

  lemma StateNameParts(n1: nat, f1: string, h1: string, n2: nat, f2: string, h2: string)
    requires NoDash(f1) && NoDash(f2) && StateName(n1, f1, h1) == StateName(n2, f2, h2)
    ensures n1 == n2 && f1 == f2 && Prefix(h1, 7) == Prefix(h2, 7)
  {
    var z1, z2 := ZeroPad(n1, 3), ZeroPad(n2, 3);
    var r1, r2 := f1 + ("-" + Prefix(h1, 7)), f2 + ("-" + Prefix(h2, 7));
    DropCommonPrefix("build-state-", z1 + ("-" + r1), z2 + ("-" + r2));
    assert NoDash(z1) && NoDash(z2);
    SplitAtDash(z1, r1, z2, r2);
    ZeroPadRoundTrip(n1, 3);
    ZeroPadRoundTrip(n2, 3);
    SplitAtDash(f1, Prefix(h1, 7), f2, Prefix(h2, 7));
  }

  lemma DropCommonPrefix(p: string, x: string, y: string)
    requires p + x == p + y
    ensures x == y
  {
    assert x == (p + x)[|p|..];
    assert y == (p + y)[|p|..];
  }

  // ---------------------------------------------------------------------
  // Binding the arguments of a Python 2 call

  /** Why a call could not bind its arguments: a TypeError in Python 2. */
  datatype BindError = TooManyPositional | UnexpectedKeyword(name: string) | MultipleValues(name: string) | MissingArguments

  /** How Python 2 binds a call to a function without `*args` or
      `**kwargs`: `params` are its parameter names, the last `defaults` of
      which have default values; the call passes `positional` arguments (a
      bound `self` included) and then the keywords. Too many positional
      arguments fail first; then each keyword in turn must name a
      parameter not yet given; last, every parameter without a default
      must have been given. */
  function Bind(params: seq<string>, defaults: nat, positional: nat, keywords: seq<string>): (r: Wrappers.Result<(), BindError>)
    requires defaults <= |params|
    ensures r == Err(TooManyPositional) <==> positional > |params|
    ensures r.Ok? ==> forall j :: 0 <= j < |keywords| ==> keywords[j] in params[positional..]
    ensures r.Ok? ==> forall i :: 0 <= i < |params| - defaults ==> i < positional || params[i] in keywords
  {
    if positional > |params| then Err(TooManyPositional)
    else
      match KeywordError(params, positional, keywords, [])
      case Some(e) => Err(e)
      case None =>
        if exists i :: positional <= i < |params| - defaults && params[i] !in keywords then Err(MissingArguments)
        else Ok(())
  }

  /** The first keyword that names no parameter, or one already given by
      position or by an earlier keyword in `seen`. */
  function KeywordError(params: seq<string>, positional: nat, keywords: seq<string>, seen: seq<string>): (r: Option<BindError>)
    requires positional <= |params|
    ensures r.None? ==> forall j :: 0 <= j < |keywords| ==> keywords[j] in params[positional..]
    ensures r.Some? ==> r.value.UnexpectedKeyword? || r.value.MultipleValues?
  {
    if keywords == [] then None
    else
      var k := keywords[0];
      if k !in params then Some(UnexpectedKeyword(k))
      else if k in params[..positional] || k in seen then Some(MultipleValues(k))
      else
        var r := KeywordError(params, positional, keywords[1..], seen + [k]);
        assert k in params[positional..] by {
          assert params == params[..positional] + params[positional..];
        }
        assert forall j :: 1 <= j < |keywords| ==> keywords[j] == keywords[1..][j - 1];
        r
  }

  /** Keywords that name distinct parameters past the positional ones
      always bind. */
  lemma {:induction false} KeywordsBind(params: seq<string>, positional: nat, keywords: seq<string>, seen: seq<string>)
    requires positional <= |params|
    requires forall j :: 0 <= j < |keywords| ==> keywords[j] in params[positional..] && keywords[j] !in params[..positional]
    requires forall j :: 0 <= j < |keywords| ==> keywords[j] !in seen && keywords[j] !in keywords[..j]
    ensures KeywordError(params, positional, keywords, seen) == None
    decreases |keywords|
  {
    if keywords != [] {
      assert keywords[0] in params by {
        assert params == params[..positional] + params[positional..];
      }
      forall j | 0 <= j < |keywords| - 1
        ensures keywords[1..][j] !in seen + [keywords[0]] && keywords[1..][j] !in keywords[1..][..j]
      {
        assert keywords[1..][j] == keywords[j + 1];
        assert keywords[0] in keywords[..j + 1];
        assert keywords[..j + 1] == [keywords[0]] + keywords[1..][..j];
      }
      KeywordsBind(params, positional, keywords[1..], seen + [keywords[0]]);
    }
  }

  /** The parameters of `save_build_state`. */
  const SaveBuildStateParams := ["self", "seq", "flav", "sha", "stdout"]

  /** A call of `save_build_state` with `args` positional arguments and
      `stdout` as a keyword. */
  function SaveCall(args: nat): Wrappers.Result<(), BindError> {
    Bind(SaveBuildStateParams, 1, 1 + args, ["stdout"])
  }

  /** The save after a full build passes `None` as a fourth positional
      argument, which fills `stdout`, and then `stdout` again by keyword:
      binding fails before anything is saved. */
  lemma SaveCallAsWritten()
    ensures SaveCall(4) == Err(MultipleValues("stdout"))
  {
    assert SaveBuildStateParams[..5][4] == "stdout";
  }

  /** Three positional arguments and `stdout` by keyword, as after an
      incremental build, bind every parameter once. */
  lemma SaveCallIntended()
    ensures SaveCall(3) == Ok(())
    ensures forall i :: 0 <= i < |SaveBuildStateParams| ==> i < 4 || SaveBuildStateParams[i] == "stdout"
  {
    assert SaveBuildStateParams[4] == "stdout";
  }

  /** The parameters of `ActionBuilder.__init__`: the eight the
      incremental builder fills by position, then the nine left for
      keywords. */
  const ActionBuilderInitParams := InitByPosition + InitByKeyword
  const InitByPosition := ["self", "swiftc", "swift_version", "swift_branch", "job_type",
    "sandbox_profile_xcodebuild", "sandbox_profile_package", "added_swift_flags"]
  const InitByKeyword := ["added_xcodebuild_flags", "skip_clean", "build_config", "strip_resource_phases",
    "project_cache_path", "time_reporter", "override_swift_exec", "action", "project"]

  /** The keywords `IncrementalActionBuilder.__init__` passes to its base
      after seven positional arguments. */
  const IncrementalSuperKeywords := ["skip_clean", "build_config", "strip_resource_phases", "time_reporter",
    "override_swift_exec", "project", "action"]

  /** As written, the base constructor is given neither
      `added_xcodebuild_flags` nor `project_cache_path`: constructing an
      incremental builder raises TypeError. */
  lemma IncrementalInitAsWritten()
    ensures Bind(ActionBuilderInitParams, 0, 8, IncrementalSuperKeywords) == Err(MissingArguments)
  {
    var ps := ActionBuilderInitParams;
    var ks := IncrementalSuperKeywords;
    InitKeywordsPlaced();
    assert ks == CorrectedInitKeywords[..7];
    KeywordsBind(ps, 8, ks, []);
    assert ps[8] == "added_xcodebuild_flags";
    assert ps[8] !in ks;
  }

  /** The keywords of the base constructor call with the two it lacks. */
  const CorrectedInitKeywords := IncrementalSuperKeywords + ["added_xcodebuild_flags", "project_cache_path"]

  /** Passing the two missing arguments as keywords binds every parameter
      of the base constructor. */
  lemma IncrementalInitCorrected()
    ensures Bind(ActionBuilderInitParams, 0, 8, CorrectedInitKeywords) == Ok(())
    ensures forall i :: 8 <= i < |ActionBuilderInitParams| ==> ActionBuilderInitParams[i] in CorrectedInitKeywords
  {
    InitKeywordsPlaced();
    KeywordsBind(ActionBuilderInitParams, 8, CorrectedInitKeywords, []);
  }

  /** Each corrected keyword names one of the last nine parameters, and
      no two name the same one. */
  lemma InitKeywordsPlaced()
    ensures forall j :: 0 <= j < |CorrectedInitKeywords| ==>
      (CorrectedInitKeywords[j] in ActionBuilderInitParams[8..] && CorrectedInitKeywords[j] !in ActionBuilderInitParams[..8])
    ensures forall j :: 0 <= j < |CorrectedInitKeywords| ==> CorrectedInitKeywords[j] !in CorrectedInitKeywords[..j]
    ensures forall i :: 8 <= i < |ActionBuilderInitParams| ==> ActionBuilderInitParams[i] in CorrectedInitKeywords
  {
    var ps := ActionBuilderInitParams;
    var ks := CorrectedInitKeywords;
    var tail := InitByKeyword;
    assert ps[..8] == InitByPosition && ps[8..] == tail;
    KeywordsPermuted();
    ByKeywordNotByPosition();
    assert forall j :: 0 <= j < |ks| ==> ks[j] in tail;
    CorrectedKeywordsDistinct();
    assert forall i :: 0 <= i < |tail| ==> ps[8 + i] == tail[i];
  }

  /** The corrected keywords are the keyword parameters in another order. */
  lemma KeywordsPermuted()
    ensures var t := InitByKeyword;
      CorrectedInitKeywords == [t[1], t[2], t[3], t[5], t[6], t[8], t[7], t[0], t[4]]
  {
  }

  lemma ByKeywordNotByPosition()
    ensures forall i :: 0 <= i < |InitByKeyword| ==> InitByKeyword[i] !in InitByPosition
  {
  }

  lemma ByKeywordDistinct()
    ensures forall i, k :: 0 <= i < k < |InitByKeyword| ==> InitByKeyword[i] != InitByKeyword[k]
  {
  }

  lemma CorrectedKeywordsDistinct()
    ensures forall j :: 0 <= j < |CorrectedInitKeywords| ==> CorrectedInitKeywords[j] !in CorrectedInitKeywords[..j]
  {
    KeywordsPermuted();
    ByKeywordDistinct();
  }

  // ---------------------------------------------------------------------
  // The build loops

  /** One commit of a set: its hash, whether checking it out succeeded (a
      full checkout before the first build; `git checkout` and a submodule
      update before the others), and how its build went. */
  datatype CommitRun = CommitRun(sha: string, checkedOut: bool, run: Classify.BuildRun)

  /** What the incremental builder does to the outside world, in order:
      it clears and recreates the directory of saved states; it runs build
      number `n`, of commit `sha`, under the identifier
      `BuildIdent(identifier, n, sha)`; it copies the current build state
      (`CurrBuildStatePath`) to `SavedBuildStatePath(projPath, n, flav,
      sha)`. */
  datatype Event =
    | Cleared(path: string)
    | Built(n: nat, sha: string, incremental: bool)
    | Saved(n: nat, flav: string, sha: string)

  /** The flavour a build's state is saved under. */
  function Flavour(n: nat): string {
    if n == 0 then "full" else "incr"
  }

  /** Why a set of commits stopped: `EarlyExit` with a build's result, a
      failed checkout, a build that raised, a call that could not bind its
      arguments, or a build state that could not be located. */
  datatype Raise =
    | EarlyExit(value: Results.Result)
    | CheckoutFailed
    | Crashed
    | CallError(bindError: BindError)
    | StateUnavailable(stateError: StateError)

  /** `ActionResult(Result.PASS, "")`, the result before any build. */
  const Initial := Results.Action(Results.PASS, "")

  predicate AsExpected(r: Results.Result) {
    Results.KindOf(r) == Results.PASS || Results.KindOf(r) == Results.XFAIL
  }

  /** `"%s-%03d-%.7s" % (identifier, seq, sha)`. */
  function BuildIdent(identifier: string, n: nat, sha: string): string {
    identifier + "-" + ZeroPad(n, 3) + "-" + Prefix(sha, 7)
  }

  /** `dispatch_or_raise`: the build is classified by the base builder's
      `failed` or `succeeded` (`actionText` is `str(self.action)`); a
      result other than PASS or XFAIL is raised as `EarlyExit`, which
      happens exactly when the build failed without an `xfail` or passed
      with one. */
  function DispatchOrRaise(a: Classify.Action, ident: string, run: Classify.BuildRun, actionText: string): (r: Wrappers.Result<Results.Result, Raise>)
    ensures r.Ok? ==> AsExpected(r.value) && Results.KindOf(r.value) == Classify.KindFor(a.xfail.Some?, run.BuildFailed?)
    ensures r.Err? && r.error.EarlyExit? ==> !AsExpected(r.error.value)
    ensures (r.Err? && r.error.EarlyExit?) <==> (!run.BuildCrashed? && run.BuildFailed? != a.xfail.Some?)
    ensures r == Err(Crashed) <==> run.BuildCrashed?
    ensures r.Err? ==> r.error == Crashed || r.error.EarlyExit?
  {
    match run
    case BuildCrashed => Err(Crashed)
    case BuildPassed => Expect(Classify.BaseClassified(a, ident, false, actionText))
    case BuildFailed(error) => Expect(Classify.BaseClassified(a, ident, true, error))
  }

  function Expect(res: Results.Result): Wrappers.Result<Results.Result, Raise> {
    if AsExpected(res) then Ok(res) else Err(EarlyExit(res))
  }

  /** One pass of the loop of `build_incremental` over commit number `n`:
      check out, build, and save the build state as `full` for the first
      commit and `incr` for the others. `fullSave` is what binding the
      call that saves after the first build gives; the call after the
      other builds binds (`SaveCallIntended`). */
  function CommitStep(a: Classify.Action, identifier: string, projPath: string, c: CommitRun, n: nat, actionText: string,
                      fullSave: Wrappers.Result<(), BindError>): (r: (seq<Event>, Wrappers.Result<Results.Result, Raise>))
    ensures r.1.Ok? ==> (|r.0| == 2 && r.0[0] == Built(n, c.sha, n > 0) &&
      r.0[1] == Saved(n, Flavour(n), c.sha))
    ensures r.1.Err? ==> |r.0| <= 1
    ensures r.0 != [] ==> r.0[0] == Built(n, c.sha, n > 0)
  {
    if !c.checkedOut then ([], Err(CheckoutFailed))
    else
      var ident := BuildIdent(identifier, n, c.sha);
      var built := [Built(n, c.sha, n > 0)];
      match DispatchOrRaise(a, ident, c.run, actionText)
      case Err(e) => (built, Err(e))
      case Ok(res) =>
        var bound := if n == 0 then fullSave else Ok(());
        if bound.Err? then (built, Err(CallError(bound.error)))
        else
          match CurrBuildStatePath(projPath, a)
          case Err(e) => (built, Err(StateUnavailable(e)))
          case Ok(src) => ([Built(n, c.sha, n > 0), Saved(n, Flavour(n), c.sha)], Ok(res))
  }

  /** What one pass of a loop did: its events, and the result it produced
      or what it raised. */
  type Pass = (seq<Event>, Wrappers.Result<Results.Result, Raise>)

  /** A loop over passes whose outcomes are given, `last` being the result
      so far: the passes in turn until one raises, which ends the loop
      with what it raised; otherwise the last result. */
  function Run(steps: seq<Pass>, last: Results.Result): Pass
    decreases |steps|
  {
    if steps == [] then ([], Ok(last))
    else if steps[0].1.Err? then steps[0]
    else
      var rest := Run(steps[1..], steps[0].1.value);
      (steps[0].0 + rest.0, rest.1)
  }

  /** The passes of `build_incremental` over its commits: pass `j` is
      commit `j`'s step. */
  function Passes(a: Classify.Action, identifier: string, projPath: string, cs: seq<CommitRun>, actionText: string,
                  fullSave: Wrappers.Result<(), BindError>): (r: seq<Pass>)
  {
    seq(|cs|, j requires 0 <= j < |cs| => CommitStep(a, identifier, projPath, cs[j], j, actionText, fullSave))
  }

  /** `build_incremental` as a whole: the directory of saved states is
      cleared, then the passes run. */
  function IncrementalRun(a: Classify.Action, identifier: string, projPath: string, cs: seq<CommitRun>, actionText: string,
                          fullSave: Wrappers.Result<(), BindError>): Pass
  {
    var r := Run(Passes(a, identifier, projPath, cs, actionText, fullSave), Initial);
    ([Cleared(IncrPath(projPath))] + r.0, r.1)
  }

  /** `build_incremental`: clears the directory of saved states, then
      builds the first commit in full and each later one incrementally,
      saving the state after each build; a build that does not go as
      expected ends the loop with `EarlyExit`. */
  method BuildIncremental(a: Classify.Action, identifier: string, projPath: string, commits: seq<CommitRun>, actionText: string)
    returns (events: seq<Event>, o: Wrappers.Result<Results.Result, Raise>)
    ensures (events, o) == IncrementalRun(a, identifier, projPath, commits, actionText, Ok(()))
  {
    ghost var steps := Passes(a, identifier, projPath, commits, actionText, Ok(()));
    events := [Cleared(IncrPath(projPath))];
    assert steps[0..] == steps;
    var prev: Option<string> := None;
    var n := 0;
    var actionResult := Initial;
    while n < |commits|
      invariant 0 <= n <= |commits|
      invariant prev.None? <==> n == 0
      invariant Pending(steps, n, actionResult, events) == IncrementalRun(a, identifier, projPath, commits, actionText, Ok(()))
    {
      var c := commits[n];
      assert steps[n] == CommitStep(a, identifier, projPath, c, n, actionText, Ok(()));
      var incremental := prev.Some?;
      var ident := BuildIdent(identifier, n, c.sha);
      if !c.checkedOut {
        PassRaises(steps, n, actionResult, events);
        assert events + [] == events;
        return events, Err(CheckoutFailed);
      }
      var result := DispatchOrRaise(a, ident, c.run, actionText);
      if result.Err? {
        PassRaises(steps, n, actionResult, events);
        events := events + [Built(n, c.sha, incremental)];
        return events, Err(result.error);
      }
      var src := CurrBuildStatePath(projPath, a);
      if src.Err? {
        PassRaises(steps, n, actionResult, events);
        events := events + [Built(n, c.sha, incremental)];
        return events, Err(StateUnavailable(src.error));
      }
      var flav := if incremental then "incr" else "full";
      PassContinues(steps, n, actionResult, events);
      events := events + [Built(n, c.sha, incremental), Saved(n, flav, c.sha)];
      actionResult := result.value;
      prev := Some(c.sha);
      n := n + 1;
    }
    assert events + [] == events;
    o := Ok(actionResult);
  }

  /** What a loop will have done once it ends, when it has done `events`
      and is at pass `n` with result `last`. */
  function Pending(steps: seq<Pass>, n: nat, last: Results.Result, events: seq<Event>): Pass
    requires n <= |steps|
  {
    var rest := Run(steps[n..], last);
    (events + rest.0, rest.1)
  }

  /** A pass that raises ends the loop with what it raised. */
  lemma PassRaises(steps: seq<Pass>, n: nat, last: Results.Result, events: seq<Event>)
    requires n < |steps| && steps[n].1.Err?
    ensures Pending(steps, n, last, events) == (events + steps[n].0, steps[n].1)
  {
    assert steps[n..][0] == steps[n];
  }

  /** A pass that goes through is followed by the rest of the loop. */
  lemma PassContinues(steps: seq<Pass>, n: nat, last: Results.Result, events: seq<Event>)
    requires n < |steps| && steps[n].1.Ok?
    ensures Pending(steps, n, last, events) == Pending(steps, n + 1, steps[n].1.value, events + steps[n].0)
  {
    assert steps[n..][0] == steps[n] && steps[n..][1..] == steps[n + 1..];
    AppendAssoc(events, steps[n].0, Run(steps[n + 1..], steps[n].1.value).0);
  }

  /** Every pass goes through. */
  predicate AllThrough(steps: seq<Pass>) {
    forall j :: 0 <= j < |steps| ==> steps[j].1.Ok?
  }

  /** When pass `k` is the first to raise, the loop is the loop over the
      passes before it, then that pass's events and what it raised: the
      passes after it never run. */
  lemma {:induction false} RunFirstRaise(steps: seq<Pass>, k: nat, last: Results.Result)
    requires k < |steps| && steps[k].1.Err?
    requires AllThrough(steps[..k])
    ensures Run(steps, last) == (Run(steps[..k], last).0 + steps[k].0, steps[k].1)
    decreases k
  {
    if k == 0 {
      assert [] + steps[0].0 == steps[0].0;
    } else {
      assert steps[..k][0] == steps[0] && steps[..k][1..] == steps[1..][..k - 1];
      var v := steps[0].1.value;
      RunFirstRaise(steps[1..], k - 1, v);
      AppendAssoc(steps[0].0, Run(steps[1..][..k - 1], v).0, steps[k].0);
    }
  }

  /** A loop whose every pass goes through returns the last pass's
      result, or the one it started with when there is none. */
  lemma {:induction false} RunAllThrough(steps: seq<Pass>, last: Results.Result)
    requires forall j :: 0 <= j < |steps| ==> steps[j].1.Ok?
    ensures Run(steps, last).1 == Ok(if steps == [] then last else steps[|steps| - 1].1.value)
    decreases |steps|
  {
    if steps != [] {
      RunAllThrough(steps[1..], steps[0].1.value);
    }
  }

  /** A commit's step goes through exactly when it is checked out, its
      build neither raises nor surprises (it fails exactly when an `xfail`
      is recorded), the save call binds, and the build state is found. */
  lemma StepSucceedsIff(a: Classify.Action, identifier: string, projPath: string, c: CommitRun, n: nat, actionText: string,
                        fullSave: Wrappers.Result<(), BindError>)
    ensures CommitStep(a, identifier, projPath, c, n, actionText, fullSave).1.Ok? <==>
      (c.checkedOut && !c.run.BuildCrashed? && (c.run.BuildFailed? <==> a.xfail.Some?) &&
       (n == 0 ==> fullSave.Ok?) && CurrBuildStatePath(projPath, a).Ok?)
  {
  }

  /** A commit that checks out and builds as expected. */
  predicate GoesAsExpected(a: Classify.Action, c: CommitRun) {
    c.checkedOut && !c.run.BuildCrashed? && (c.run.BuildFailed? <==> a.xfail.Some?)
  }

  /** Every commit checks out and builds as expected, the save after the
      first build binds, and the build state is found. */
  predicate StepsSucceed(a: Classify.Action, projPath: string, cs: seq<CommitRun>, fullSave: Wrappers.Result<(), BindError>)
  {
    CurrBuildStatePath(projPath, a).Ok? && (cs != [] ==> fullSave.Ok?) &&
    forall j :: 0 <= j < |cs| ==> GoesAsExpected(a, cs[j])
  }

  /** The events when every build goes as expected, from build number `n`
      on: each commit built (in full only when it is the first) and then
      saved. */
  function Trace(cs: seq<CommitRun>, n: nat): (r: seq<Event>)
    ensures |r| == 2 * |cs|
    decreases |cs|
  {
    if cs == [] then [] else [Built(n, cs[0].sha, n > 0), Saved(n, Flavour(n), cs[0].sha)] + Trace(cs[1..], n + 1)
  }

  /** A step that goes through builds, then saves. */
  lemma StepValue(a: Classify.Action, identifier: string, projPath: string, c: CommitRun, n: nat, actionText: string,
                  fullSave: Wrappers.Result<(), BindError>)
    requires GoesAsExpected(a, c) && (n == 0 ==> fullSave.Ok?) && CurrBuildStatePath(projPath, a).Ok?
    ensures DispatchOrRaise(a, BuildIdent(identifier, n, c.sha), c.run, actionText).Ok?
    ensures CommitStep(a, identifier, projPath, c, n, actionText, fullSave) ==
      ([Built(n, c.sha, n > 0), Saved(n, Flavour(n), c.sha)], DispatchOrRaise(a, BuildIdent(identifier, n, c.sha), c.run, actionText))
  {
  }

  /** When every build goes as expected, the passes from commit `k` on do
      exactly the builds and saves of `Trace`. */
  lemma {:induction false} PassesFollowTrace(a: Classify.Action, identifier: string, projPath: string, cs: seq<CommitRun>,
                                             actionText: string, fullSave: Wrappers.Result<(), BindError>, k: nat, last: Results.Result)
    requires StepsSucceed(a, projPath, cs, fullSave) && k <= |cs|
    ensures Run(Passes(a, identifier, projPath, cs, actionText, fullSave)[k..], last).0 == Trace(cs[k..], k)
    ensures forall j :: k <= j < |cs| ==> Passes(a, identifier, projPath, cs, actionText, fullSave)[j].1.Ok?
    decreases |cs| - k
  {
    var steps := Passes(a, identifier, projPath, cs, actionText, fullSave);
    if k < |cs| {
      assert GoesAsExpected(a, cs[k]);
      StepValue(a, identifier, projPath, cs[k], k, actionText, fullSave);
      var v := steps[k].1.value;
      PassesFollowTrace(a, identifier, projPath, cs, actionText, fullSave, k + 1, v);
      assert steps[k..][0] == steps[k] && steps[k..][1..] == steps[k + 1..];
      assert cs[k..][0] == cs[k] && cs[k..][1..] == cs[k + 1..];
    }
  }

  /** When every build goes as expected, `build_incremental` clears the
      directory of saved states, then builds and saves every commit in
      order, only the first in full; it returns a PASS, or an XFAIL when
      a failure is expected (the initial PASS when there are no commits). */
  lemma AllAsExpected(a: Classify.Action, identifier: string, projPath: string, cs: seq<CommitRun>, actionText: string)
    requires StepsSucceed(a, projPath, cs, Ok(()))
    ensures IncrementalRun(a, identifier, projPath, cs, actionText, Ok(())).0 == [Cleared(IncrPath(projPath))] + Trace(cs, 0)
    ensures IncrementalRun(a, identifier, projPath, cs, actionText, Ok(())).1.Ok?
    ensures cs == [] ==> IncrementalRun(a, identifier, projPath, cs, actionText, Ok(())).1 == Ok(Initial)
    ensures cs != [] ==> (Results.KindOf(IncrementalRun(a, identifier, projPath, cs, actionText, Ok(())).1.value) ==
      (if a.xfail.Some? then Results.XFAIL else Results.PASS))
    ensures cs != [] ==> (IncrementalRun(a, identifier, projPath, cs, actionText, Ok(())).1 ==
      Ok(Classify.BaseClassified(a, BuildIdent(identifier, |cs| - 1, cs[|cs| - 1].sha), cs[|cs| - 1].run.BuildFailed?,
        if cs[|cs| - 1].run.BuildFailed? then cs[|cs| - 1].run.error else actionText)))
  {
    var steps := Passes(a, identifier, projPath, cs, actionText, Ok(()));
    PassesFollowTrace(a, identifier, projPath, cs, actionText, Ok(()), 0, Initial);
    assert steps[0..] == steps && cs[0..] == cs;
    RunAllThrough(steps, Initial);
    if cs != [] {
      LastResult(a, identifier, projPath, cs, actionText);
    }
  }

  /** With at least one commit, the result is the last commit's. */
  lemma LastResult(a: Classify.Action, identifier: string, projPath: string, cs: seq<CommitRun>, actionText: string)
    requires StepsSucceed(a, projPath, cs, Ok(())) && cs != []
    ensures IncrementalRun(a, identifier, projPath, cs, actionText, Ok(())).1 ==
      Ok(Classify.BaseClassified(a, BuildIdent(identifier, |cs| - 1, cs[|cs| - 1].sha), cs[|cs| - 1].run.BuildFailed?,
        if cs[|cs| - 1].run.BuildFailed? then cs[|cs| - 1].run.error else actionText))
    ensures Results.KindOf(IncrementalRun(a, identifier, projPath, cs, actionText, Ok(())).1.value) ==
      (if a.xfail.Some? then Results.XFAIL else Results.PASS)
  {
    var steps := Passes(a, identifier, projPath, cs, actionText, Ok(()));
    PassesFollowTrace(a, identifier, projPath, cs, actionText, Ok(()), 0, Initial);
    RunAllThrough(steps, Initial);
    LastPass(a, identifier, projPath, cs, actionText);
  }

  /** The last pass of a loop whose builds all go as expected returns the
      classification of the last commit's build. */
  lemma LastPass(a: Classify.Action, identifier: string, projPath: string, cs: seq<CommitRun>, actionText: string)
    requires StepsSucceed(a, projPath, cs, Ok(())) && cs != []
    ensures Passes(a, identifier, projPath, cs, actionText, Ok(()))[|cs| - 1].1 ==
      Ok(Classify.BaseClassified(a, BuildIdent(identifier, |cs| - 1, cs[|cs| - 1].sha), cs[|cs| - 1].run.BuildFailed?,
        if cs[|cs| - 1].run.BuildFailed? then cs[|cs| - 1].run.error else actionText))
    ensures Results.KindOf(Passes(a, identifier, projPath, cs, actionText, Ok(()))[|cs| - 1].1.value) ==
      (if a.xfail.Some? then Results.XFAIL else Results.PASS)
  {
    var j := |cs| - 1;
    assert GoesAsExpected(a, cs[j]);
    StepValue(a, identifier, projPath, cs[j], j, actionText, Ok(()));
  }

  /** Every event is a build or a save numbered from `n`; a build is
      incremental exactly when it is not the first; a save is `full` for
      the first build and `incr` for the others. */
  predicate WellNumbered(e: Event, n: nat) {
    match e
    case Cleared(_) => false
    case Built(m, _, incremental) => n <= m && (incremental <==> m > 0)
    case Saved(m, flav, _) => n <= m && flav == Flavour(m)
  }

  /** The events of a trace are well numbered from `n`, and saves come in
      increasing build order. */
  lemma {:induction false} TraceOrdered(cs: seq<CommitRun>, n: nat)
    ensures forall i :: 0 <= i < |Trace(cs, n)| ==> WellNumbered(Trace(cs, n)[i], n)
    ensures forall i, k :: 0 <= i < k < |Trace(cs, n)| && Trace(cs, n)[i].Saved? && Trace(cs, n)[k].Saved? ==>
      Trace(cs, n)[i].n < Trace(cs, n)[k].n
    decreases |cs|
  {
    if cs != [] {
      var ev := Trace(cs, n);
      var tail := Trace(cs[1..], n + 1);
      TraceOrdered(cs[1..], n + 1);
      assert ev == [Built(n, cs[0].sha, n > 0), Saved(n, Flavour(n), cs[0].sha)] + tail;
      forall i | 2 <= i < |ev| ensures ev[i] == tail[i - 2] && WellNumbered(ev[i], n + 1) {
        assert WellNumbered(tail[i - 2], n + 1);
      }
    }
  }

  lemma SavedPathsDistinct(projPath: string, n1: nat, f1: string, h1: string, n2: nat, f2: string, h2: string)
    requires f1 in ["full", "incr"] && f2 in ["full", "incr"]
    ensures SavedBuildStatePath(projPath, n1, f1, h1) == SavedBuildStatePath(projPath, n2, f2, h2) <==>
      (n1 == n2 && f1 == f2 && Prefix(h1, 7) == Prefix(h2, 7))
  {
    var head := IncrPath(projPath) + "/";
    if SavedBuildStatePath(projPath, n1, f1, h1) == SavedBuildStatePath(projPath, n2, f2, h2) {
      DropCommonPrefix(head, StateName(n1, f1, h1), StateName(n2, f2, h2));
    }
    StateNamesDistinct(n1, f1, h1, n2, f2, h2);
  }

  /** No two saves of a trace write to the same snapshot, whatever the
      commits' hashes. */
  lemma SnapshotsDistinct(projPath: string, cs: seq<CommitRun>, n: nat)
    ensures var ev := Trace(cs, n);
      forall i, k :: 0 <= i < k < |ev| && ev[i].Saved? && ev[k].Saved? ==>
        SavedBuildStatePath(projPath, ev[i].n, ev[i].flav, ev[i].sha) != SavedBuildStatePath(projPath, ev[k].n, ev[k].flav, ev[k].sha)
  {
    var ev := Trace(cs, n);
    TraceOrdered(cs, n);
    forall i, k | 0 <= i < k < |ev| && ev[i].Saved? && ev[k].Saved?
      ensures SavedBuildStatePath(projPath, ev[i].n, ev[i].flav, ev[i].sha) != SavedBuildStatePath(projPath, ev[k].n, ev[k].flav, ev[k].sha)
    {
      SavedPathsDistinct(projPath, ev[i].n, ev[i].flav, ev[i].sha, ev[k].n, ev[k].flav, ev[k].sha);
    }
  }

  /** The first build that does not go through ends the loop: when the
      first `k` commits go as expected and commit `k`'s step raises, the
      loop raises what it raised, after the builds and saves of the
      earlier commits and that step's own events. */
  lemma FirstRaiseEndsLoop(a: Classify.Action, identifier: string, projPath: string, cs: seq<CommitRun>, actionText: string,
                           fullSave: Wrappers.Result<(), BindError>, k: nat)
    requires k < |cs| && StepsSucceed(a, projPath, cs[..k], fullSave)
    requires CommitStep(a, identifier, projPath, cs[k], k, actionText, fullSave).1.Err?
    ensures IncrementalRun(a, identifier, projPath, cs, actionText, fullSave) ==
      ([Cleared(IncrPath(projPath))] + Trace(cs[..k], 0) + CommitStep(a, identifier, projPath, cs[k], k, actionText, fullSave).0,
       CommitStep(a, identifier, projPath, cs[k], k, actionText, fullSave).1)
  {
    var steps := Passes(a, identifier, projPath, cs, actionText, fullSave);
    PrefixFollowsTrace(a, identifier, projPath, cs, actionText, fullSave, k);
    RunFirstRaise(steps, k, Initial);
    AppendAssoc([Cleared(IncrPath(projPath))], Trace(cs[..k], 0), steps[k].0);
  }

  /** The passes before commit `k` all go through and leave the trace of
      those commits; pass `k` is commit `k`'s step. */
  lemma PrefixFollowsTrace(a: Classify.Action, identifier: string, projPath: string, cs: seq<CommitRun>, actionText: string,
                           fullSave: Wrappers.Result<(), BindError>, k: nat)
    requires k < |cs| && StepsSucceed(a, projPath, cs[..k], fullSave)
    ensures var steps := Passes(a, identifier, projPath, cs, actionText, fullSave);
      AllThrough(steps[..k]) &&
      Run(steps[..k], Initial).0 == Trace(cs[..k], 0) &&
      steps[k] == CommitStep(a, identifier, projPath, cs[k], k, actionText, fullSave)
  {
    PassesPrefix(a, identifier, projPath, cs, actionText, fullSave, k);
    AllFollowTrace(a, identifier, projPath, cs[..k], actionText, fullSave, Initial);
  }

  lemma PassesPrefix(a: Classify.Action, identifier: string, projPath: string, cs: seq<CommitRun>, actionText: string,
                     fullSave: Wrappers.Result<(), BindError>, k: nat)
    requires k < |cs|
    ensures Passes(a, identifier, projPath, cs, actionText, fullSave)[..k] == Passes(a, identifier, projPath, cs[..k], actionText, fullSave)
    ensures Passes(a, identifier, projPath, cs, actionText, fullSave)[k] == CommitStep(a, identifier, projPath, cs[k], k, actionText, fullSave)
  {
  }

  /** `PassesFollowTrace` from the first commit. */
  lemma AllFollowTrace(a: Classify.Action, identifier: string, projPath: string, cs: seq<CommitRun>, actionText: string,
                       fullSave: Wrappers.Result<(), BindError>, last: Results.Result)
    requires StepsSucceed(a, projPath, cs, fullSave)
    ensures Run(Passes(a, identifier, projPath, cs, actionText, fullSave), last).0 == Trace(cs, 0)
    ensures AllThrough(Passes(a, identifier, projPath, cs, actionText, fullSave))
  {
    var steps := Passes(a, identifier, projPath, cs, actionText, fullSave);
    PassesFollowTrace(a, identifier, projPath, cs, actionText, fullSave, 0, last);
    assert steps[0..] == steps && cs[0..] == cs;
  }

  /** An `EarlyExit` at commit `k` leaves exactly `k + 1` builds run and
      `k` states saved: the later commits are never built. */
  lemma EarlyExitStopsBuilds(a: Classify.Action, identifier: string, projPath: string, cs: seq<CommitRun>, actionText: string,
                             fullSave: Wrappers.Result<(), BindError>, k: nat)
    requires k < |cs| && StepsSucceed(a, projPath, cs[..k], fullSave)
    requires CommitStep(a, identifier, projPath, cs[k], k, actionText, fullSave).1.Err?
    requires CommitStep(a, identifier, projPath, cs[k], k, actionText, fullSave).1.error.EarlyExit?
    ensures |IncrementalRun(a, identifier, projPath, cs, actionText, fullSave).0| == 2 * k + 2
    ensures IncrementalRun(a, identifier, projPath, cs, actionText, fullSave).1.Err?
  {
    FirstRaiseEndsLoop(a, identifier, projPath, cs, actionText, fullSave, k);
  }

  /** As written, the save after the first build cannot bind its
      arguments: once a set's first build goes as expected, the set ends
      with a TypeError before anything is saved. */
  lemma AsWrittenFirstSaveRaises(a: Classify.Action, identifier: string, projPath: string, cs: seq<CommitRun>, actionText: string)
    requires cs != [] && cs[0].checkedOut
    requires DispatchOrRaise(a, BuildIdent(identifier, 0, cs[0].sha), cs[0].run, actionText).Ok?
    ensures IncrementalRun(a, identifier, projPath, cs, actionText, SaveCall(4)) ==
      ([Cleared(IncrPath(projPath)), Built(0, cs[0].sha, false)], Err(CallError(MultipleValues("stdout"))))
  {
    SaveCallAsWritten();
    var steps := Passes(a, identifier, projPath, cs, actionText, SaveCall(4));
    assert steps[0] == CommitStep(a, identifier, projPath, cs[0], 0, actionText, SaveCall(4)) ==
      ([Built(0, cs[0].sha, false)], Err(CallError(MultipleValues("stdout"))));
    assert Run(steps, Initial) == steps[0];
    assert [Cleared(IncrPath(projPath))] + [Built(0, cs[0].sha, false)] == [Cleared(IncrPath(projPath)), Built(0, cs[0].sha, false)];
  }

  // ---------------------------------------------------------------------
  // `build`: every set of commits the action is not excluded from

  /** One entry of the project's `incremental` dictionary, in iteration
      order: its name, its `limit` items when it has any, and its commits. */
  datatype IncrSet = IncrSet(vers: string, limit: Option<seq<(string, string)>>, commits: seq<CommitRun>)

  /** `action.get(kind) != value`. */
  predicate Mismatch(item: (string, string), a: Classify.Action) {
    item.0 !in a.strings || a.strings[item.0] != item.1
  }

  /** The action is excluded when it disagrees with some limit. */
  predicate Excluded(limits: seq<(string, string)>, a: Classify.Action) {
    exists i :: 0 <= i < |limits| && Mismatch(limits[i], a)
  }

  /** `excluded_by_limit`. */
  method ExcludedByLimit(limits: seq<(string, string)>, a: Classify.Action) returns (excluded: bool)
    ensures excluded <==> Excluded(limits, a)
  {
    for i := 0 to |limits|
      invariant forall j :: 0 <= j < i ==> !Mismatch(limits[j], a)
    {
      var (kind, value) := limits[i];
      if kind !in a.strings || a.strings[kind] != value {
        return true;
      }
    }
    return false;
  }

  /** An action that meets every limit of a longer list meets the limits
      of any part of it: adding limits only excludes more. */
  lemma MoreLimitsExcludeMore(limits: seq<(string, string)>, more: seq<(string, string)>, a: Classify.Action)
    requires Excluded(limits, a)
    ensures Excluded(limits + more, a) && Excluded(more + limits, a)
  {
    var i :| 0 <= i < |limits| && Mismatch(limits[i], a);
    assert (limits + more)[i] == limits[i];
    assert (more + limits)[|more| + i] == limits[i];
  }

  /** The identifier a set is built under: `"%s-incr-%s" % (path, vers)`. */
  function SetIdent(path: string, vers: string): string {
    path + "-incr-" + vers
  }

  /** A walk over sets whose outcomes are given (`None` for a set that is
      skipped), `last` being the result so far: an `EarlyExit` ends the
      walk and its value is the result; anything else raised propagates;
      otherwise the last result. */
  function SetsRun(outs: seq<Option<Pass>>, last: Results.Result): (r: Pass)
    ensures r.1.Err? ==> !r.1.error.EarlyExit?
    decreases |outs|
  {
    if outs == [] then ([], Ok(last))
    else
      match outs[0]
      case None => SetsRun(outs[1..], last)
      case Some(c) =>
        match c.1
        case Err(EarlyExit(v)) => (c.0, Ok(v))
        case Err(e) => (c.0, Err(e))
        case Ok(v) =>
          var rest := SetsRun(outs[1..], v);
          (c.0 + rest.0, rest.1)
  }

  /** What each set does: nothing when the action is excluded by its
      limits, otherwise `build_incremental` under the set's identifier. */
  function SetOutcome(a: Classify.Action, path: string, projPath: string, s: IncrSet, actionText: string): Option<Pass> {
    if s.limit.Some? && Excluded(s.limit.value, a) then None
    else Some(IncrementalRun(a, SetIdent(path, s.vers), projPath, s.commits, actionText, Ok(())))
  }

  function SetOutcomes(a: Classify.Action, path: string, projPath: string, sets: seq<IncrSet>, actionText: string): (r: seq<Option<Pass>>)
  {
    seq(|sets|, j requires 0 <= j < |sets| => SetOutcome(a, path, projPath, sets[j], actionText))
  }

  /** The sets in turn, starting from `last`. */
  function SetsFrom(a: Classify.Action, path: string, projPath: string, sets: seq<IncrSet>, actionText: string,
                    last: Results.Result): Pass
  {
    SetsRun(SetOutcomes(a, path, projPath, sets, actionText), last)
  }

  /** `IncrementalActionBuilder.build`: a project without `incremental`
      passes untouched; otherwise the sets in turn, and a set's
      `EarlyExit` is its value, never raised. */
  method Build(a: Classify.Action, path: string, projPath: string, sets: Option<seq<IncrSet>>, actionText: string)
    returns (events: seq<Event>, o: Wrappers.Result<Results.Result, Raise>)
    ensures sets.None? ==> events == [] && o == Ok(Initial)
    ensures sets.Some? ==> (events, o) == SetsFrom(a, path, projPath, sets.value, actionText, Initial)
    ensures o.Err? ==> !o.error.EarlyExit?
  {
    events := [];
    var actionResult := Initial;
    if sets.Some? {
      var all := sets.value;
      ghost var outs := SetOutcomes(a, path, projPath, all, actionText);
      var k := 0;
      assert outs[0..] == outs && [] + SetsRun(outs, Initial).0 == SetsRun(outs, Initial).0;
      while k < |all|
        invariant 0 <= k <= |all|
        invariant SetsPending(outs, k, actionResult, events) == SetsRun(outs, Initial)
      {
        var s := all[k];
        assert outs[k] == SetOutcome(a, path, projPath, s, actionText);
        if s.limit.Some? {
          var excluded := ExcludedByLimit(s.limit.value, a);
          if excluded {
            SetSkipped(outs, k, actionResult, events);
            k := k + 1;
            continue;
          }
        }
        var ev, r := BuildIncremental(a, SetIdent(path, s.vers), projPath, s.commits, actionText);
        SetStep(outs, k, actionResult, events);
        events := events + ev;
        if r.Err? {
          if r.error.EarlyExit? {
            return events, Ok(r.error.value);
          }
          return events, r;
        }
        actionResult := r.value;
        k := k + 1;
      }
      assert events + [] == events;
    }
    o := Ok(actionResult);
  }

  /** What `build` will have done once it ends, when it has done `events`
      and is at set `k` with result `last`. */
  function SetsPending(outs: seq<Option<Pass>>, k: nat, last: Results.Result, events: seq<Event>): Pass
    requires k <= |outs|
  {
    var rest := SetsRun(outs[k..], last);
    (events + rest.0, rest.1)
  }

  lemma SetSkipped(outs: seq<Option<Pass>>, k: nat, last: Results.Result, events: seq<Event>)
    requires k < |outs| && outs[k].None?
    ensures SetsPending(outs, k, last, events) == SetsPending(outs, k + 1, last, events)
  {
    assert outs[k..][0] == outs[k] && outs[k..][1..] == outs[k + 1..];
  }

  lemma SetStep(outs: seq<Option<Pass>>, k: nat, last: Results.Result, events: seq<Event>)
    requires k < |outs| && outs[k].Some?
    ensures var c := outs[k].value;
      SetsPending(outs, k, last, events) ==
        if c.1.Ok? then SetsPending(outs, k + 1, c.1.value, events + c.0)
        else if c.1.error.EarlyExit? then (events + c.0, Ok(c.1.error.value))
        else (events + c.0, c.1)
  {
    assert outs[k..][0] == outs[k] && outs[k..][1..] == outs[k + 1..];
    var c := outs[k].value;
    if c.1.Ok? {
      AppendAssoc(events, c.0, SetsRun(outs[k + 1..], c.1.value).0);
    }
  }

  /** A set whose limits the action does not meet leaves no trace. */
  lemma ExcludedSetSkipped(a: Classify.Action, path: string, projPath: string, s: IncrSet, sets: seq<IncrSet>, actionText: string,
                           last: Results.Result)
    requires s.limit.Some? && Excluded(s.limit.value, a)
    ensures SetsFrom(a, path, projPath, [s] + sets, actionText, last) == SetsFrom(a, path, projPath, sets, actionText, last)
  {
    var outs := SetOutcomes(a, path, projPath, [s] + sets, actionText);
    assert outs[0] == None;
    assert outs[1..] == SetOutcomes(a, path, projPath, sets, actionText);
  }

  // ---------------------------------------------------------------------
  // `check_full_vs_incr`

  /** What comparing the two saved states of one build gives: the
      mismatches logged, and the message logged when they differ. */
  datatype Comparison = Comparison(log: seq<Report>, message: Option<string>)

  /** `os.path.basename`: what follows the last `/`. */
  function Basename(p: string): string {
    p[LastSlashEnd(p)..]
  }

  /** `check_full_vs_incr`: compares the full and the incremental saved
      state of build `n` (`d` is the directory comparison made with the
      ignore list); since `expect_determinism` is false a difference is
      only logged, never raised. `relFull` is `os.path.relpath` of the
      full state's path, which depends on the working directory. */
  method CheckFullVsIncr(a: Classify.Action, projPath: string, n: nat, sha: string, relFull: string, d: DirCmp)
    returns (r: Wrappers.Result<Comparison, StateError>)
    ensures IgnoredDifferences(a).Err? ==> r == Err(IgnoredDifferences(a).error)
    ensures IgnoredDifferences(a).Ok? ==> r.Ok? && r.value.log == TreeReports(d)
    ensures r.Ok? ==> (r.value.message.None? <==> Clean(d))
    ensures r.Ok? && r.value.message.Some? ==>
      r.value.message.value == "Dirs differ: " + relFull + " vs. " + Basename(SavedBuildStatePath(projPath, n, "incr", sha))
  {
    var incr := SavedBuildStatePath(projPath, n, "incr", sha);
    var ignore := IgnoredDifferences(a);
    if ignore.Err? {
      return Err(ignore.error);
    }
    var same, log := HaveSameTrees(d);
    if !same {
      var message := "Dirs differ: " + relFull + " vs. " + Basename(incr);
      return Ok(Comparison(log, Some(message)));
    }
    return Ok(Comparison(log, None));
  }

  /** The message names the incremental state by its own name when the
      hash holds no `/`. */
  lemma BasenameOfSavedState(projPath: string, n: nat, flav: string, sha: string)
    requires flav in ["full", "incr"] && '/' !in sha
    ensures Basename(SavedBuildStatePath(projPath, n, flav, sha)) == StateName(n, flav, sha)
  {
    var name := StateName(n, flav, sha);
    var head := IncrPath(projPath) + "/";
    var p := head + name;
    assert SavedBuildStatePath(projPath, n, flav, sha) == p;
    StateNameNoSlash(n, flav, sha);
    assert p[|head| - 1] == '/';
    assert forall i :: |head| <= i < |p| ==> p[i] == name[i - |head|];
    LastSlashEndAt(p, |head|);
    assert p[|head|..] == name;
  }

  lemma StateNameNoSlash(n: nat, flav: string, sha: string)
    requires flav in ["full", "incr"] && '/' !in sha
    ensures forall i :: 0 <= i < |StateName(n, flav, sha)| ==> StateName(n, flav, sha)[i] != '/'
  {
    var z := ZeroPad(n, 3);
    var h := Prefix(sha, 7);
    assert forall i :: 0 <= i < |z| ==> z[i] != '/';
    assert forall i :: 0 <= i < |h| ==> h[i] == sha[i];
    assert '/' !in flav;
    assert '/' !in StateName(n, flav, sha);
  }
}
