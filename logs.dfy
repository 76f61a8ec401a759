/** Log file names. When a version's actions are not printed to the
    terminal, each action writes to a file in the working directory whose
    name is made from the project, the version and the action, with every
    run of other characters collapsed into one `-`. */
module Logs {
  import opened Wrappers
  import opened Text
  import opened Json
  import Selection
  import Classify

  /** The characters the substitution keeps: `\w` (ASCII letters, digits,
      `_`) and, when `dot`, `.` as well. */
  predicate Kept(c: char, dot: bool) {
    IsWordChar(c) || (dot && c == '.')
  }

  predicate AllKept(s: string, dot: bool) {
    forall i :: 0 <= i < |s| ==> Kept(s[i], dot)
  }

  /** Length of the run of characters that are not kept at the front of
      `s`. */
  function RunLength(s: string, dot: bool): (k: nat)
    ensures k <= |s|
    ensures forall i :: 0 <= i < k ==> !Kept(s[i], dot)
    ensures k < |s| ==> Kept(s[k], dot)
  {
    if s == [] || Kept(s[0], dot) then 0 else 1 + RunLength(s[1..], dot)
  }

  /** `re.sub(r"[^\w\_\.]+", "-", s)` (with `dot`) or
      `re.sub(r"[^\w\_]+", "-", s)`: each maximal run of characters that
      are not kept becomes a single `-`. */
  function Sanitize(s: string, dot: bool): (r: string)
    ensures forall i :: 0 <= i < |r| ==> Kept(r[i], dot) || r[i] == '-'
    ensures s != [] && Kept(s[0], dot) ==> r != [] && r[0] == s[0]
    ensures s != [] && !Kept(s[0], dot) ==> r != [] && r[0] == '-'
    ensures s == [] <==> r == []
    decreases |s|
  {
    if s == [] then []
    else if Kept(s[0], dot) then [s[0]] + Sanitize(s[1..], dot)
    else
      var k := RunLength(s, dot);
      "-" + Sanitize(s[k..], dot)
  }

  /** The kept characters of `s`, in order. */
  function KeptOf(s: string, dot: bool): string {
    if s == [] then [] else (if Kept(s[0], dot) then [s[0]] else []) + KeptOf(s[1..], dot)
  }

  /** `-` is never kept, so the substitution never produces two `-` in a
      row. */
  predicate NoDoubleDash(r: string) {
    forall i :: 0 <= i < |r| - 1 ==> !(r[i] == '-' && r[i + 1] == '-')
  }

  lemma {:induction false} KeptOfRun(s: string, dot: bool, k: nat)
    requires k <= |s| && forall i :: 0 <= i < k ==> !Kept(s[i], dot)
    ensures KeptOf(s, dot) == KeptOf(s[k..], dot)
    decreases k
  {
    if k > 0 {
      assert s[1..][k - 1..] == s[k..];
      KeptOfRun(s[1..], dot, k - 1);
    }
  }

  /** The substitution keeps every kept character, in order, and nothing
      else but the dashes: what is kept of its result is what is kept of
      its input. */
  lemma {:induction false} SanitizeKeepsKept(s: string, dot: bool)
    ensures KeptOf(Sanitize(s, dot), dot) == KeptOf(s, dot)
    decreases |s|
  {
    if s != [] {
      var r := Sanitize(s, dot);
      if Kept(s[0], dot) {
        assert r[1..] == Sanitize(s[1..], dot);
        SanitizeKeepsKept(s[1..], dot);
      } else {
        var k := RunLength(s, dot);
        assert r[1..] == Sanitize(s[k..], dot);
        SanitizeKeepsKept(s[k..], dot);
        KeptOfRun(s, dot, k);
      }
    }
  }

  /** Each run becomes exactly one dash: the result never holds two dashes
      in a row. */
  lemma {:induction false} SanitizeNoDoubleDash(s: string, dot: bool)
    ensures NoDoubleDash(Sanitize(s, dot))
    decreases |s|
  {
    if s != [] {
      var r := Sanitize(s, dot);
      if Kept(s[0], dot) {
        SanitizeNoDoubleDash(s[1..], dot);
        assert r[1..] == Sanitize(s[1..], dot);
      } else {
        var k := RunLength(s, dot);
        SanitizeNoDoubleDash(s[k..], dot);
        assert r[1..] == Sanitize(s[k..], dot);
      }
    }
  }

  /** What a file name may hold: kept characters and dashes, so neither a
      path separator nor a space. */
  predicate FlatName(s: string, dot: bool) {
    forall i :: 0 <= i < |s| ==> Kept(s[i], dot) || s[i] == '-'
  }

  lemma FlatSlice(s: string, dot: bool, i: nat, j: nat)
    requires FlatName(s, dot) && i <= j <= |s|
    ensures FlatName(s[i..j], dot)
  {
  }

  lemma StripCharFlat(s: string, c: char, dot: bool)
    requires FlatName(s, dot)
    ensures FlatName(StripChar(s, c), dot)
  {
    var i, j :| 0 <= i <= j <= |s| && StripSlice(s, c, i, j) && StripChar(s, c) == s[i..j];
    FlatSlice(s, dot, i, j);
  }

  /** The stem of a log file: the substitution, then `.strip('-')`, then
      `.strip('_')`. */
  function Stem(identifier: string, dot: bool): (r: string)
    ensures FlatName(r, dot)
    ensures r == [] || r[|r| - 1] != '_'
    ensures exists t :: IsStripOf(Sanitize(identifier, dot), '-', t) && IsStripOf(t, '_', r)
  {
    var s := Sanitize(identifier, dot);
    assert FlatName(s, dot);
    var t := StripChar(s, '-');
    assert FlatName(t, dot) by { StripCharFlat(s, '-', dot); }
    var u := StripChar(t, '_');
    assert FlatName(u, dot) by { StripCharFlat(t, '_', dot); }
    u
  }

  /** `dict_get(d, *keys, default=False)` followed by a truth test: the
      first present value, when it is a non-empty string. */
  function Truthy(d: map<string, string>, keys: seq<string>): (r: Option<string>)
    ensures r.Some? ==> r.value != []
    ensures (forall j :: 0 <= j < |keys| ==> keys[j] !in d) ==> r == None
    ensures forall i :: 0 <= i < |keys| && keys[i] in d && (forall j :: 0 <= j < i ==> keys[j] !in d) ==>
      r == if d[keys[i]] == [] then None else Some(d[keys[i]])
  {
    match Selection.DictGet(d, keys, Some(""))
    case Ok(v) => if v == [] then None else Some(v)
    case Err(_) => None
  }

  /** `VersionBuilder.output_fd` of project_future.py: the project's path
      and the first dash-separated part of the action's `project`, the
      version and the action name, each stripped of surrounding
      whitespace, then the scheme or target and the destination when
      present, joined with `_`. An action without a name raises
      KeyError. */
  function FutureLogName(path: string, version: string, a: Classify.Action): (r: Wrappers.Result<string, PyError>)
    ensures r.Err? <==> "action" !in a.strings
    ensures r.Ok? ==> EndsWith(r.value, ".log") && FlatName(r.value[..|r.value| - 4], true)
  {
    if "action" !in a.strings then Err(KeyError)
    else
      var stem := Stem(FutureIdentifier(path, version, a), true);
      LogSuffix(stem, true);
      Ok(stem + ".log")
  }

  /** `dict_get(action, 'project', default="").split('-')[0]`. */
  function ProjectPrefix(a: Classify.Action): string {
    Before(if "project" in a.strings then a.strings["project"] else "", '-')
  }

  /** The identifier the future log name is made from. */
  function FutureIdentifier(path: string, version: string, a: Classify.Action): string
    requires "action" in a.strings
  {
    var t := Truthy(a.strings, ["scheme", "target"]);
    var d := Truthy(a.strings, ["destination"]);
    Join([Strip(path + " " + ProjectPrefix(a)), Strip(version), Strip(a.strings["action"])] +
      (if t.Some? then [t.value] else []) + (if d.Some? then [d.value] else []), "_")
  }

  lemma LogSuffix(stem: string, dot: bool)
    requires FlatName(stem, dot)
    ensures EndsWith(stem + ".log", ".log") && (stem + ".log")[..|stem + ".log"| - 4] == stem
  {
    assert (stem + ".log")[|stem|..] == ".log";
  }

  /** `ProjectBuilder.output_fd` of project.py: the action name, the
      project's path with the first dash-separated part of the action's
      `project`, and the scheme or target, joined with `': '`; every
      `': '` then becomes `_` and dots are not kept. */
  function LegacyLogName(path: string, a: Classify.Action): (r: Wrappers.Result<string, PyError>)
    ensures r.Err? <==> "action" !in a.strings
    ensures r.Ok? ==> EndsWith(r.value, ".log") && FlatName(r.value[..|r.value| - 4], false)
  {
    if "action" !in a.strings then Err(KeyError)
    else
      var stem := Stem(Replace(LegacyIdentifier(path, a), ": ", "_"), false);
      LogSuffix(stem, false);
      Ok(stem + ".log")
  }

  /** The identifier the older log name is made from. */
  function LegacyIdentifier(path: string, a: Classify.Action): string
    requires "action" in a.strings
  {
    var t := Truthy(a.strings, ["scheme", "target"]);
    Join([a.strings["action"], path + " " + ProjectPrefix(a)] + (if t.Some? then [t.value] else []), ": ")
  }

  lemma NoSlash(n: string, dot: bool)
    requires EndsWith(n, ".log") && FlatName(n[..|n| - 4], dot)
    ensures '/' !in n
  {
    forall i | 0 <= i < |n| ensures n[i] != '/' {
      if i < |n| - 4 {
        assert n[i] == n[..|n| - 4][i];
      } else {
        assert n[i] == n[|n| - 4..][i - (|n| - 4)];
      }
    }
  }

  /** A log file name never names a file outside the working directory:
      it holds no `/`. */
  lemma LogNamesStayInPlace(path: string, version: string, a: Classify.Action)
    ensures FutureLogName(path, version, a).Ok? ==> '/' !in FutureLogName(path, version, a).value
    ensures LegacyLogName(path, a).Ok? ==> '/' !in LegacyLogName(path, a).value
  {
    if FutureLogName(path, version, a).Ok? {
      NoSlash(FutureLogName(path, version, a).value, true);
    }
    if LegacyLogName(path, a).Ok? {
      NoSlash(LegacyLogName(path, a).value, false);
    }
  }

  // ---------------------------------------------------------------------
  // The names of plain actions

  /** A field made of ASCII letters and digits (and dots, when `dot`):
      nothing the substitution, the strips or the replacement touches. */
  predicate Plain(s: string, dot: bool) {
    s != [] &&
    forall i :: 0 <= i < |s| ==> ('a' <= s[i] <= 'z') || ('A' <= s[i] <= 'Z') || IsDigit(s[i]) || (dot && s[i] == '.')
  }

  /** An action whose fields are all plain. */
  predicate PlainFields(a: Classify.Action, dot: bool) {
    forall k :: k in a.strings ==> Plain(a.strings[k], dot)
  }

  /** The scheme, else the target, else nothing. */
  function SchemeOrTarget(a: Classify.Action): Option<string> {
    if "scheme" in a.strings then Some(a.strings["scheme"])
    else if "target" in a.strings then Some(a.strings["target"])
    else None
  }

  /** `h` followed by each of `parts`, each behind `_`. */
  function Underscored(h: string, parts: seq<string>): string
    decreases |parts|
  {
    if parts == [] then h else Underscored(h, parts[..|parts| - 1]) + "_" + parts[|parts| - 1]
  }

  /** The path, then `-` and the action's `project` when it has one. */
  function ProjectHead(path: string, a: Classify.Action): string {
    if "project" in a.strings then path + "-" + a.strings["project"] else path
  }

  /** The future log name of an action with plain fields, written out:
      the path with the project, then the version, the action, the scheme
      or target and the destination when present, each behind `_`. */
  function FutureLayout(path: string, version: string, a: Classify.Action): string
    requires "action" in a.strings
  {
    Underscored(ProjectHead(path, a), Pieces(version, a))
  }

  /** The version, the action, and the scheme or target and the
      destination when present. */
  function Pieces(version: string, a: Classify.Action): seq<string>
    requires "action" in a.strings
  {
    var t := SchemeOrTarget(a);
    [version, a.strings["action"]] + (if t.Some? then [t.value] else []) +
      (if "destination" in a.strings then [a.strings["destination"]] else [])
  }

  /** The older log name of an action with plain fields, written out: the
      action, `_`, the path, then `-` and the `project`, then `_` and the
      scheme or target. The space after the path always becomes a `-`, so
      without a project but with a target the name holds `-_`; without
      either, the trailing `-` is stripped. */
  function LegacyLayout(path: string, a: Classify.Action): string
    requires "action" in a.strings
  {
    var base := a.strings["action"] + "_" + path;
    var t := SchemeOrTarget(a);
    if "project" in a.strings then
      (if t.Some? then base + "-" + a.strings["project"] + "_" + t.value else base + "-" + a.strings["project"])
    else
      (if t.Some? then base + "-" + "_" + t.value else base)
  }

  /** Neither end is a `-` or a `_`: both strips leave it alone. */
  predicate Bare(s: string) {
    s != [] && s[0] != '-' && s[0] != '_' && s[|s| - 1] != '-' && s[|s| - 1] != '_'
  }

  lemma PlainBare(s: string, dot: bool)
    requires Plain(s, dot)
    ensures Bare(s) && AllKept(s, dot) && NoSpace(s) && ':' !in s && '-' !in s
  {
  }

  lemma BareJoin(a: string, sep: string, b: string)
    requires a != [] && a[0] != '-' && a[0] != '_' && Bare(b)
    ensures Bare(a + sep + b)
  {
    assert (a + sep + b)[0] == a[0];
    assert (a + sep + b)[|a + sep + b| - 1] == b[|b| - 1];
  }

  /** What `dict_get` and the truth test give on plain fields. */
  lemma TruthyPlain(a: Classify.Action, dot: bool)
    requires PlainFields(a, dot)
    ensures Truthy(a.strings, ["scheme", "target"]) == SchemeOrTarget(a)
    ensures Truthy(a.strings, ["destination"]) ==
      if "destination" in a.strings then Some(a.strings["destination"]) else None
    ensures SchemeOrTarget(a).Some? ==> Plain(SchemeOrTarget(a).value, dot)
  {
    var keys := ["scheme", "target"];
    if "scheme" !in a.strings && "target" in a.strings {
      assert keys[1] in a.strings && keys[0] !in a.strings;
    }
    if "scheme" !in a.strings && "target" !in a.strings {
      assert forall j :: 0 <= j < |keys| ==> keys[j] !in a.strings;
    }
  }

  /** The first dash-separated part of a plain `project` is all of it. */
  lemma PrefixPlain(a: Classify.Action, dot: bool)
    requires PlainFields(a, dot)
    ensures ProjectPrefix(a) == if "project" in a.strings then a.strings["project"] else ""
  {
    if "project" in a.strings {
      var p := a.strings["project"];
      PlainBare(p, dot);
      var r := Before(p, '-');
      assert r == p[..|r|];
    }
  }

  lemma StripKeeps(s: string)
    requires s != [] && !IsSpace(s[0]) && !IsSpace(s[|s| - 1])
    ensures Strip(s) == s
  {
    assert LeadingSpaces(s) == 0;
    assert TrailingSpaces(s) == 0;
  }

  lemma StripTrailingSpace(s: string)
    requires s != [] && !IsSpace(s[0]) && !IsSpace(s[|s| - 1])
    ensures Strip(s + " ") == s
  {
    var t := s + " ";
    assert LeadingSpaces(t) == 0;
    assert t[..|t| - 1] == s;
    assert TrailingSpaces(s) == 0;
    assert TrailingSpaces(t) == 1;
  }

  lemma StripCharKeeps(s: string, c: char)
    requires s != [] && s[0] != c && s[|s| - 1] != c
    ensures StripChar(s, c) == s
  {
    assert IsStripOf(s, c, s) by {
      assert StripSlice(s, c, 0, |s|) && s == s[0..|s|];
    }
    StripOfUnique(s, c, StripChar(s, c), s);
  }

  lemma StripCharDrops(s: string, c: char)
    requires s != [] && s[0] != c && s[|s| - 1] != c
    ensures StripChar(s + [c], c) == s
  {
    var t := s + [c];
    assert IsStripOf(t, c, s) by {
      assert StripSlice(t, c, 0, |s|) && s == t[0..|s|];
    }
    StripOfUnique(t, c, StripChar(t, c), s);
  }

  lemma {:induction false} JoinSnoc(parts: seq<string>, p: string, sep: string)
    requires parts != []
    ensures Join(parts + [p], sep) == Join(parts, sep) + sep + p
    decreases |parts|
  {
    if |parts| > 1 {
      assert (parts + [p])[1..] == parts[1..] + [p];
      JoinSnoc(parts[1..], p, sep);
    }
  }

  lemma {:induction false} RunLengthPrefix(a: string, b: string, dot: bool)
    requires a != [] && Kept(a[|a| - 1], dot)
    ensures RunLength(a + b, dot) == RunLength(a, dot) < |a|
    decreases |a|
  {
    if !Kept(a[0], dot) {
      assert (a + b)[1..] == a[1..] + b;
      RunLengthPrefix(a[1..], b, dot);
    }
  }

  lemma PrependAssoc(p: string, x: string, y: string)
    ensures p + (x + y) == (p + x) + y
  {
  }

  lemma SanitizeStepKept(a: string, b: string, dot: bool)
    requires a != [] && Kept(a[0], dot)
    ensures Sanitize(a + b, dot) == [a[0]] + Sanitize(a[1..] + b, dot)
    ensures Sanitize(a, dot) == [a[0]] + Sanitize(a[1..], dot)
  {
    assert (a + b)[0] == a[0] && (a + b)[1..] == a[1..] + b;
  }

  lemma SanitizeStepRun(a: string, b: string, dot: bool)
    requires a != [] && !Kept(a[0], dot) && Kept(a[|a| - 1], dot)
    ensures RunLength(a, dot) < |a|
    ensures Sanitize(a + b, dot) == "-" + Sanitize(a[RunLength(a, dot)..] + b, dot)
    ensures Sanitize(a, dot) == "-" + Sanitize(a[RunLength(a, dot)..], dot)
  {
    RunLengthPrefix(a, b, dot);
    assert (a + b)[0] == a[0] && (a + b)[RunLength(a, dot)..] == a[RunLength(a, dot)..] + b;
  }

  /** The substitution works run by run: a text cut after a kept
      character is substituted piece by piece. */
  lemma {:induction false} SanitizeSplit(a: string, b: string, dot: bool)
    requires a == [] || Kept(a[|a| - 1], dot)
    ensures Sanitize(a + b, dot) == Sanitize(a, dot) + Sanitize(b, dot)
    decreases |a|, 1
  {
    if a == [] {
      assert a + b == b;
    } else if Kept(a[0], dot) {
      SanitizeSplitKept(a, b, dot);
    } else {
      SanitizeSplitRun(a, b, dot);
    }
  }

  lemma {:induction false} SanitizeSplitKept(a: string, b: string, dot: bool)
    requires a != [] && Kept(a[0], dot) && Kept(a[|a| - 1], dot)
    ensures Sanitize(a + b, dot) == Sanitize(a, dot) + Sanitize(b, dot)
    decreases |a|, 0
  {
    SanitizeStepKept(a, b, dot);
    SanitizeSplit(a[1..], b, dot);
    PrependAssoc([a[0]], Sanitize(a[1..], dot), Sanitize(b, dot));
  }

  lemma {:induction false} SanitizeSplitRun(a: string, b: string, dot: bool)
    requires a != [] && !Kept(a[0], dot) && Kept(a[|a| - 1], dot)
    ensures Sanitize(a + b, dot) == Sanitize(a, dot) + Sanitize(b, dot)
    decreases |a|, 0
  {
    SanitizeStepRun(a, b, dot);
    var rest := a[RunLength(a, dot)..];
    SanitizeSplit(rest, b, dot);
    PrependAssoc("-", Sanitize(rest, dot), Sanitize(b, dot));
  }

  lemma {:induction false} SanitizeKept(s: string, dot: bool)
    requires AllKept(s, dot)
    ensures Sanitize(s, dot) == s
    decreases |s|
  {
    if s != [] {
      SanitizeKept(s[1..], dot);
    }
  }

  lemma SanitizeSpace(b: string, dot: bool)
    requires b == [] || Kept(b[0], dot)
    ensures Sanitize(" " + b, dot) == "-" + Sanitize(b, dot)
  {
    assert RunLength(" " + b, dot) == 1 by {
      assert (" " + b)[1..] == b;
    }
    assert (" " + b)[1..] == b;
  }

  /** Two plain pieces around a space: the space becomes a dash. */
  lemma SanitizeSpaced(a: string, b: string, dot: bool)
    requires Plain(a, dot) && Plain(b, dot)
    ensures Sanitize(a + " " + b, dot) == a + "-" + b
  {
    PlainBare(a, dot);
    PlainBare(b, dot);
    assert a + " " + b == a + (" " + b);
    SanitizeSplit(a, " " + b, dot);
    SanitizeKept(a, dot);
    SanitizeSpace(b, dot);
    SanitizeKept(b, dot);
    assert a + ("-" + b) == a + "-" + b;
  }

  /** A plain piece behind `_` is left as it is. */
  lemma SanitizeSep(a: string, b: string, dot: bool)
    requires a != [] && Kept(a[|a| - 1], dot) && Plain(b, dot)
    ensures Sanitize(a + "_" + b, dot) == Sanitize(a, dot) + "_" + b
  {
    PlainBare(b, dot);
    SanitizeSplit(a + "_", b, dot);
    SanitizeSplit(a, "_", dot);
    SanitizeKept("_", dot);
    SanitizeKept(b, dot);
  }

  lemma {:induction false} ReplaceNoColon(s: string)
    requires ':' !in s
    ensures Replace(s, ": ", "_") == s
    decreases |s|
  {
    if s != [] {
      assert !StartsWith(s, ": ") by { assert s[0] != ':'; }
      ReplaceNoColon(s[1..]);
    }
  }

  lemma ReplaceStepPattern(a: string, b: string)
    requires a != [] && a[|a| - 1] != ':' && StartsWith(a + b, ": ")
    ensures |a| >= 2 && StartsWith(a, ": ")
    ensures Replace(a + b, ": ", "_") == "_" + Replace(a[2..] + b, ": ", "_")
    ensures Replace(a, ": ", "_") == "_" + Replace(a[2..], ": ", "_")
  {
    assert (a + b)[0] == a[0] == ':';
    assert (a + b)[..2] == a[..2];
    assert (a + b)[2..] == a[2..] + b;
  }

  lemma ReplaceStepOne(a: string, b: string)
    requires a != [] && !StartsWith(a + b, ": ")
    ensures Replace(a + b, ": ", "_") == [a[0]] + Replace(a[1..] + b, ": ", "_")
    ensures Replace(a, ": ", "_") == [a[0]] + Replace(a[1..], ": ", "_")
  {
    assert !StartsWith(a, ": ") by {
      if |a| >= 2 { assert (a + b)[..2] == a[..2]; }
    }
    assert (a + b)[0] == a[0] && (a + b)[1..] == a[1..] + b;
  }

  /** The replacement works piece by piece when no `: ` straddles the
      cut. */
  lemma {:induction false} ReplaceSplit(a: string, b: string)
    requires a == [] || a[|a| - 1] != ':'
    ensures Replace(a + b, ": ", "_") == Replace(a, ": ", "_") + Replace(b, ": ", "_")
    decreases |a|
  {
    if a == [] {
      assert a + b == b;
    } else if StartsWith(a + b, ": ") {
      ReplaceStepPattern(a, b);
      ReplaceSplit(a[2..], b);
      PrependAssoc("_", Replace(a[2..], ": ", "_"), Replace(b, ": ", "_"));
    } else {
      ReplaceStepOne(a, b);
      ReplaceSplit(a[1..], b);
      PrependAssoc([a[0]], Replace(a[1..], ": ", "_"), Replace(b, ": ", "_"));
    }
  }

  /** `': '.join` followed by `.replace(': ', '_')` on colon-free pieces. */
  lemma ReplaceSep(a: string, b: string)
    requires (a == [] || a[|a| - 1] != ':') && ':' !in b
    ensures Replace(a + ": " + b, ": ", "_") == Replace(a, ": ", "_") + "_" + b
  {
    ReplaceSplit(a + ": ", b);
    ReplaceSplit(a, ": ");
    assert Replace(": ", ": ", "_") == "_" by {
      assert StartsWith(": ", ": ") && (": ")[2..] == [];
    }
    ReplaceNoColon(b);
  }

  lemma {:induction false} JoinUnderscored(h: string, parts: seq<string>)
    ensures Join([h] + parts, "_") == Underscored(h, parts)
    decreases |parts|
  {
    if parts != [] {
      var init := parts[..|parts| - 1];
      JoinUnderscored(h, init);
      assert [h] + parts == ([h] + init) + [parts[|parts| - 1]];
      JoinSnoc([h] + init, parts[|parts| - 1], "_");
    }
  }

  /** Plain pieces behind `_` come through the substitution unchanged. */
  lemma {:induction false} SanitizeUnderscored(x: string, head: string, parts: seq<string>, dot: bool)
    requires x != [] && Kept(x[|x| - 1], dot) && Sanitize(x, dot) == head && Bare(head)
    requires forall i :: 0 <= i < |parts| ==> Plain(parts[i], dot)
    ensures Sanitize(Underscored(x, parts), dot) == Underscored(head, parts)
    ensures Bare(Underscored(head, parts))
    ensures Underscored(x, parts) != [] && Kept(Underscored(x, parts)[|Underscored(x, parts)| - 1], dot)
    decreases |parts|
  {
    if parts != [] {
      var init := parts[..|parts| - 1];
      var p := parts[|parts| - 1];
      SanitizeUnderscored(x, head, init, dot);
      PlainBare(p, dot);
      var u := Underscored(x, init);
      SanitizeSep(u, p, dot);
      BareJoin(Underscored(head, init), "_", p);
      assert (u + "_" + p)[|u + "_" + p| - 1] == p[|p| - 1];
    }
  }

  /** The stripped path and project, and what the substitution makes of
      them. */
  lemma FutureHead(path: string, a: Classify.Action)
    requires Plain(path, true) && PlainFields(a, true)
    ensures var x := Strip(path + " " + ProjectPrefix(a));
      x != [] && Kept(x[|x| - 1], true) && Sanitize(x, true) == ProjectHead(path, a) && Bare(ProjectHead(path, a))
  {
    PlainBare(path, true);
    PrefixPlain(a, true);
    var pre := ProjectPrefix(a);
    if "project" in a.strings {
      assert Plain(pre, true);
      PlainBare(pre, true);
      StripKeeps(path + " " + pre);
      SanitizeSpaced(path, pre, true);
      BareJoin(path, "-", pre);
    } else {
      assert path + " " + pre == path + " ";
      StripTrailingSpace(path);
      SanitizeKept(path, true);
    }
  }

  /** A stem whose substitution already has no `-` or `_` at its ends. */
  lemma StemOfBare(identifier: string, dot: bool)
    requires Bare(Sanitize(identifier, dot))
    ensures Stem(identifier, dot) == Sanitize(identifier, dot)
  {
    var n := Sanitize(identifier, dot);
    StripCharKeeps(n, '-');
    StripCharKeeps(n, '_');
  }

  lemma JoinFront(x: string, v: string, w: string, ts: seq<string>, ds: seq<string>)
    ensures Join([x, v, w] + ts + ds, "_") == Underscored(x, [v, w] + ts + ds)
  {
    assert [x, v, w] + ts + ds == [x] + ([v, w] + ts + ds);
    JoinUnderscored(x, [v, w] + ts + ds);
  }

  /** The pieces the future identifier joins, on plain fields. */
  lemma FutureParts(path: string, version: string, a: Classify.Action)
    requires "action" in a.strings && Plain(version, true) && PlainFields(a, true)
    ensures FutureIdentifier(path, version, a) == Underscored(Strip(path + " " + ProjectPrefix(a)), Pieces(version, a))
  {
    var act := a.strings["action"];
    assert Plain(act, true);
    PlainBare(version, true);
    PlainBare(act, true);
    StripKeeps(version);
    StripKeeps(act);
    TruthyPlain(a, true);
    var t := SchemeOrTarget(a);
    JoinFront(Strip(path + " " + ProjectPrefix(a)), version, act, if t.Some? then [t.value] else [],
      if "destination" in a.strings then [a.strings["destination"]] else []);
  }

  lemma PartsPlain(version: string, a: Classify.Action, dot: bool)
    requires "action" in a.strings && Plain(version, dot) && PlainFields(a, dot)
    ensures forall i :: 0 <= i < |Pieces(version, a)| ==> Plain(Pieces(version, a)[i], dot)
  {
    var act := a.strings["action"];
    var t := SchemeOrTarget(a);
    TruthyPlain(a, dot);
    var p2 := [version, act];
    var p3 := p2 + (if t.Some? then [t.value] else []);
    var parts := p3 + (if "destination" in a.strings then [a.strings["destination"]] else []);
    assert Plain(act, dot);
    assert forall i :: 0 <= i < |p3| ==> Plain(p3[i], dot) by {
      if t.Some? {
        assert p3 == [version, act, t.value];
      } else {
        assert p3 == p2;
      }
    }
    if "destination" in a.strings {
      assert Plain(a.strings["destination"], dot);
      assert parts == p3 + [a.strings["destination"]];
    } else {
      assert parts == p3;
    }
  }

  /** On plain fields the future log name is the fields laid out with `_`
      and `-`: nothing is dropped, collapsed or stripped. */
  lemma FutureNameLayout(path: string, version: string, a: Classify.Action)
    requires "action" in a.strings && Plain(path, true) && Plain(version, true) && PlainFields(a, true)
    ensures FutureLogName(path, version, a) == Ok(FutureLayout(path, version, a) + ".log")
  {
    FutureParts(path, version, a);
    FutureHead(path, a);
    PartsPlain(version, a, true);
    SanitizeUnderscored(Strip(path + " " + ProjectPrefix(a)), ProjectHead(path, a), Pieces(version, a), true);
    StemOfBare(FutureIdentifier(path, version, a), true);
  }

  /** The older identifier of plain fields after `.replace(': ', '_')`. */
  lemma LegacyReplaced(path: string, a: Classify.Action)
    requires "action" in a.strings && Plain(path, false) && PlainFields(a, false)
    ensures Replace(LegacyIdentifier(path, a), ": ", "_") ==
      var y := path + " " + ProjectPrefix(a);
      var t := SchemeOrTarget(a);
      if t.Some? then a.strings["action"] + "_" + y + "_" + t.value else a.strings["action"] + "_" + y
  {
    var act := a.strings["action"];
    assert Plain(act, false);
    PlainBare(path, false);
    PlainBare(act, false);
    TruthyPlain(a, false);
    PrefixPlain(a, false);
    var pre := ProjectPrefix(a);
    var y := path + " " + pre;
    if "project" in a.strings {
      assert Plain(pre, false);
      PlainBare(pre, false);
    }
    assert ':' !in y && y[|y| - 1] != ':';
    assert Join([act, y], ": ") == act + ": " + y;
    ReplaceSep(act, y);
    ReplaceNoColon(act);
    var t := SchemeOrTarget(a);
    if t.Some? {
      PlainBare(t.value, false);
      JoinSnoc([act, y], t.value, ": ");
      ReplaceSep(act + ": " + y, t.value);
    } else {
      assert [act, y] + [] == [act, y];
    }
  }

  /** The substitution on the older identifier when the action names a
      project. */
  lemma LegacyWithProject(act: string, path: string, pre: string, t: Option<string>)
    requires Plain(act, false) && Plain(path, false) && Plain(pre, false)
    requires t.Some? ==> Plain(t.value, false)
    ensures var j2 := act + "_" + (path + " " + pre);
      var n := act + "_" + path + "-" + pre;
      var r := if t.Some? then n + "_" + t.value else n;
      Sanitize(if t.Some? then j2 + "_" + t.value else j2, false) == r && Bare(r)
  {
    PlainBare(act, false);
    PlainBare(path, false);
    PlainBare(pre, false);
    var j2 := act + "_" + (path + " " + pre);
    assert AllKept(act + "_", false);
    SanitizeSplit(act + "_", path + " " + pre, false);
    SanitizeKept(act + "_", false);
    SanitizeSpaced(path, pre, false);
    var n := act + "_" + path + "-" + pre;
    assert (act + "_") + (path + "-" + pre) == n;
    BareJoin(act, "_", path);
    BareJoin(act + "_" + path, "-", pre);
    if t.Some? {
      PlainBare(t.value, false);
      assert j2[|j2| - 1] == pre[|pre| - 1];
      SanitizeSep(j2, t.value, false);
      BareJoin(n, "_", t.value);
    }
  }

  /** With a target but no project, the space left after the path
      becomes a dash in front of the `_`. */
  lemma LegacyTargetOnly(base: string, t: string)
    requires AllKept(base, false) && Bare(base) && Plain(t, false)
    ensures Sanitize(base + " " + "_" + t, false) == base + "-" + "_" + t
    ensures Bare(base + "-" + "_" + t)
  {
    PlainBare(t, false);
    SanitizeKept(base, false);
    assert base + " " + "_" + t == base + (" " + ("_" + t));
    SanitizeSplit(base, " " + ("_" + t), false);
    SanitizeSpace("_" + t, false);
    assert AllKept("_" + t, false);
    SanitizeKept("_" + t, false);
    assert base + ("-" + ("_" + t)) == base + "-" + "_" + t;
    BareJoin(base + "-", "_", t);
  }

  /** With neither, the space becomes a trailing dash. */
  lemma LegacyNeither(base: string)
    requires AllKept(base, false) && Bare(base)
    ensures Sanitize(base + " ", false) == base + "-"
  {
    SanitizeKept(base, false);
    SanitizeSplit(base, " ", false);
    SanitizeSpace([], false);
    assert " " + [] == " ";
  }

  /** The substitution on the older identifier when the action names no
      project. */
  lemma LegacyWithoutProject(act: string, path: string, t: Option<string>)
    requires Plain(act, false) && Plain(path, false)
    requires t.Some? ==> Plain(t.value, false)
    ensures var j2 := act + "_" + (path + " " + "");
      var base := act + "_" + path;
      Sanitize(if t.Some? then j2 + "_" + t.value else j2, false) ==
        (if t.Some? then base + "-" + "_" + t.value else base + "-")
    ensures Bare(act + "_" + path)
    ensures t.Some? ==> Bare(act + "_" + path + "-" + "_" + t.value)
  {
    PlainBare(act, false);
    PlainBare(path, false);
    var base := act + "_" + path;
    assert AllKept(base, false);
    BareJoin(act, "_", path);
    assert act + "_" + (path + " " + "") == base + " ";
    if t.Some? {
      LegacyTargetOnly(base, t.value);
    } else {
      LegacyNeither(base);
    }
  }

  /** On plain fields the older log name is the fields laid out with `_`
      and `-` (see LegacyLayout for the `-_` left by a missing project). */
  lemma LegacyNameLayout(path: string, a: Classify.Action)
    requires "action" in a.strings && Plain(path, false) && PlainFields(a, false)
    ensures LegacyLogName(path, a) == Ok(LegacyLayout(path, a) + ".log")
  {
    var act := a.strings["action"];
    assert Plain(act, false);
    TruthyPlain(a, false);
    PrefixPlain(a, false);
    LegacyReplaced(path, a);
    var pre := ProjectPrefix(a);
    var t := SchemeOrTarget(a);
    var n := LegacyLayout(path, a);
    if "project" in a.strings {
      assert Plain(pre, false);
      LegacyWithProject(act, path, pre, t);
      StripCharKeeps(n, '-');
      StripCharKeeps(n, '_');
    } else {
      LegacyWithoutProject(act, path, t);
      if t.Some? {
        StripCharKeeps(n, '-');
        StripCharKeeps(n, '_');
      } else {
        StripCharDrops(n, '-');
        StripCharKeeps(n, '_');
      }
    }
  }
}
