/** The list builders: a project list, a project and a version each
    build their included sub-targets in order, gather the returned results
    in a fresh list result, and stop at the first sub-builder that raises.
    The future generation writes each action of a version to its own log
    file and renames the file after the action's result when it is
    done. */
module Dispatch {
  import opened Wrappers
  import opened Text
  import Results
  import Selection
  import opened Classify

  /** One sub-target as the list builder meets it: whether `included`
      keeps it, the log file it writes to (`None` when it writes to the
      terminal) and what its sub-builder's `build` does. */
  datatype Child = Child(included: bool, log: Option<string>, outcome: Outcome)

  /** The results a sub-builder returns are themselves well-formed (they
      are leaves, or list results filled by `add`). */
  predicate ChildWellFormed(c: Child) {
    c.outcome.Returned? && c.outcome.result.Some? ==> Results.WellFormed(c.outcome.result.value)
  }

  predicate ChildrenWellFormed(cs: seq<Child>) {
    forall i :: 0 <= i < |cs| ==> ChildWellFormed(cs[i])
  }

  /** What `ListBuilder.build` has done so far: the buckets of its result,
      the exception it is raising, and the log files it renamed. */
  datatype Progress = Progress(buckets: Results.Buckets, raised: Option<Fault>, renames: seq<(string, string)>)

  const Start := Progress(Results.EmptyBuckets, None, [])

  /** `'%s' % subbuilder_result`: the kind's name, or `None` when the
      sub-builder returned nothing or raised. */
  function OutcomeName(o: Outcome): (n: string)
    ensures n == "None" <==> !(o.Returned? && o.result.Some?)
  {
    if o.Returned? && o.result.Some? then Results.KindName(Results.KindOf(o.result.value)) else "None"
  }

  /** The new name of a log file: the outcome's name, `_`, the old name. */
  function Renamed(o: Outcome, log: string): string {
    OutcomeName(o) + "_" + log
  }

  /** One included sub-target of project_future.py: the result is added
      (a `None` result is dropped), and in the `finally` the log file, if
      any, is renamed, also when the sub-builder raised. */
  function Visit(p: Progress, c: Child): Progress {
    var renames := if c.log.Some? then p.renames + [(c.log.value, Renamed(c.outcome, c.log.value))] else p.renames;
    match c.outcome
    case Raised(f) => Progress(p.buckets, Some(f), renames)
    case Returned(r) => Progress(if r.Some? then Results.Insert(p.buckets, r.value) else p.buckets, None, renames)
  }

  /** `ListBuilder.build` of project_future.py, from progress `p` on. */
  function BuildFrom(cs: seq<Child>, p: Progress): Progress
    decreases |cs|
  {
    if cs == [] then p
    else if !cs[0].included then BuildFrom(cs[1..], p)
    else
      var q := Visit(p, cs[0]);
      if q.raised.Some? then q else BuildFrom(cs[1..], q)
  }

  /** `ListBuilder.build` of project_future.py. */
  method Build(cs: seq<Child>) returns (results: Results.ListResult, raised: Option<Fault>, renames: seq<(string, string)>)
    requires ChildrenWellFormed(cs)
    ensures fresh(results)
    ensures Progress(results.subresults, raised, renames) == BuildFrom(cs, Start)
  {
    results := new Results.ListResult();
    raised := None;
    renames := [];
    var i := 0;
    while i < |cs|
      invariant 0 <= i <= |cs|
      invariant results.Valid()
      invariant BuildFrom(cs, Start) == BuildFrom(cs[i..], Progress(results.subresults, None, renames))
    {
      assert cs[i..][1..] == cs[i + 1..];
      var c := cs[i];
      if c.included {
        assert ChildWellFormed(c);
        if c.log.Some? {
          renames := renames + [(c.log.value, Renamed(c.outcome, c.log.value))];
        }
        if c.outcome.Raised? {
          return results, Some(c.outcome.fault), renames;
        }
        results.Add(c.outcome.result);
      }
      i := i + 1;
    }
  }

  /** The results the included sub-targets return, in order, up to the
      first that raises. */
  function Gathered(cs: seq<Child>): seq<Results.Result>
    decreases |cs|
  {
    if cs == [] then []
    else if !cs[0].included || (cs[0].outcome.Returned? && cs[0].outcome.result.None?) then Gathered(cs[1..])
    else if cs[0].outcome.Raised? then []
    else [cs[0].outcome.result.value] + Gathered(cs[1..])
  }

  /** No included sub-target raises. */
  predicate NoneRaise(cs: seq<Child>) {
    forall i :: 0 <= i < |cs| && cs[i].included ==> cs[i].outcome.Returned?
  }

  /** `add` applied to each of `rs` in turn. */
  function InsertAll(b: Results.Buckets, rs: seq<Results.Result>): Results.Buckets
    decreases |rs|
  {
    if rs == [] then b else InsertAll(Results.Insert(b, rs[0]), rs[1..])
  }

  /** The built list is the starting one with the gathered results added
      in order. */
  lemma {:induction false} BuildAddsGathered(cs: seq<Child>, p: Progress)
    requires p.raised.None?
    ensures BuildFrom(cs, p).buckets == InsertAll(p.buckets, Gathered(cs))
    decreases |cs|
  {
    if cs == [] {
    } else if !cs[0].included || (cs[0].outcome.Returned? && cs[0].outcome.result.None?) {
      var q := if cs[0].included then Visit(p, cs[0]) else p;
      BuildAddsGathered(cs[1..], q);
    } else if cs[0].outcome.Raised? {
    } else {
      var r := cs[0].outcome.result.value;
      BuildAddsGathered(cs[1..], Visit(p, cs[0]));
      assert ([r] + Gathered(cs[1..]))[1..] == Gathered(cs[1..]);
    }
  }

  /** Adding results in order puts each in the bucket of its kind, after
      what the bucket held. */
  lemma {:induction false} InsertAllByKind(b: Results.Buckets, rs: seq<Results.Result>, k: Results.Kind)
    ensures Results.Bucket(InsertAll(b, rs), k) == Results.Bucket(b, k) + Results.OfKind(rs, k)
    decreases |rs|
  {
    if rs == [] {
      assert Results.Bucket(b, k) + [] == Results.Bucket(b, k);
    } else {
      InsertAllByKind(Results.Insert(b, rs[0]), rs[1..], k);
      if Results.KindOf(rs[0]) == k {
        AppendAssoc(Results.Bucket(b, k), [rs[0]], Results.OfKind(rs[1..], k));
      }
    }
  }

  lemma AppendAssoc<T>(a: seq<T>, b: seq<T>, c: seq<T>)
    ensures a + b + c == a + (b + c)
  {
  }

  /** Each bucket of the built list holds exactly the returned results of
      its kind, in the order of the sub-targets. */
  lemma BuildGathersByKind(cs: seq<Child>, k: Results.Kind)
    ensures Results.Bucket(BuildFrom(cs, Start).buckets, k) == Results.OfKind(Gathered(cs), k)
  {
    BuildAddsGathered(cs, Start);
    InsertAllByKind(Results.EmptyBuckets, Gathered(cs), k);
    assert Results.Bucket(Results.EmptyBuckets, k) == [];
  }

  lemma OfKindCons(r: Results.Result, rs: seq<Results.Result>, k: Results.Kind)
    ensures Results.OfKind([r] + rs, k) == (if Results.KindOf(r) == k then [r] else []) + Results.OfKind(rs, k)
  {
    assert ([r] + rs)[1..] == rs;
  }

  /** Sub-target `i` is the first included one that raises. */
  predicate FirstRaise(cs: seq<Child>, i: int) {
    0 <= i < |cs| && cs[i].included && cs[i].outcome.Raised? &&
    forall j :: 0 <= j < i && cs[j].included ==> cs[j].outcome.Returned?
  }

  /** The build raises exactly when an included sub-target raises, and
      then with the first such sub-target's exception. */
  lemma {:induction false} BuildRaisesFirst(cs: seq<Child>, p: Progress)
    requires p.raised.None?
    ensures BuildFrom(cs, p).raised.None? <==> NoneRaise(cs)
    ensures forall i :: FirstRaise(cs, i) ==> BuildFrom(cs, p).raised == Some(cs[i].outcome.fault)
    decreases |cs|
  {
    if cs != [] {
      var q := if cs[0].included then Visit(p, cs[0]) else p;
      if !(cs[0].included && cs[0].outcome.Raised?) {
        BuildRaisesFirst(cs[1..], q);
        assert forall i :: 1 <= i < |cs| ==> cs[i] == cs[1..][i - 1];
      }
    }
  }

  /** How many sub-targets the loop reaches: all of them, or up to and
      including the first included one that raises. */
  function Reached(cs: seq<Child>): (n: nat)
    ensures n <= |cs|
    ensures NoneRaise(cs) ==> n == |cs|
    ensures forall i :: FirstRaise(cs, i) ==> n == i + 1
    decreases |cs|
  {
    if cs == [] then 0
    else if cs[0].included && cs[0].outcome.Raised? then 1
    else
      var n := 1 + Reached(cs[1..]);
      assert forall i :: 1 <= i < |cs| ==> cs[i] == cs[1..][i - 1];
      assert forall i :: FirstRaise(cs, i) ==> i > 0 && FirstRaise(cs[1..], i - 1);
      n
  }

  /** One rename per included sub-target that writes to a log file, in
      order: `<old name>` becomes `'%s_%s' % (result, <old name>)`. */
  function LogRenames(cs: seq<Child>): seq<(string, string)>
    decreases |cs|
  {
    if cs == [] then []
    else
      (if cs[0].included && cs[0].log.Some?
       then [(cs[0].log.value, OutcomeName(cs[0].outcome) + "_" + cs[0].log.value)] else []) +
      LogRenames(cs[1..])
  }

  /** The build renames the log file of every included sub-target it
      reaches, in order, to the name of what that sub-target returned
      (`None` when it returned nothing or raised), an underscore and the
      old name; it renames nothing else. */
  lemma {:induction false} RenamesPrefixOutcome(cs: seq<Child>, p: Progress)
    ensures BuildFrom(cs, p).renames == p.renames + LogRenames(cs[..Reached(cs)])
    decreases |cs|
  {
    if cs == [] {
      assert p.renames + [] == p.renames;
    } else {
      var c := cs[0];
      var q := if c.included then Visit(p, c) else p;
      var mine := if c.included && c.log.Some? then [(c.log.value, OutcomeName(c.outcome) + "_" + c.log.value)] else [];
      assert q.renames == p.renames + mine;
      if c.included && c.outcome.Raised? {
        assert cs[..Reached(cs)] == [c];
        assert LogRenames([c]) == mine + LogRenames([]);
      } else {
        RenamesPrefixOutcome(cs[1..], q);
        var n := Reached(cs[1..]);
        assert cs[..Reached(cs)] == [c] + cs[1..][..n];
        assert LogRenames([c] + cs[1..][..n]) == mine + LogRenames(cs[1..][..n]) by {
          assert ([c] + cs[1..][..n])[1..] == cs[1..][..n];
        }
        AppendAssoc(p.renames, mine, LogRenames(cs[1..][..n]));
      }
    }
  }

  /** A log file renamed with a `None_` prefix belongs to a sub-target
      that returned nothing or raised. */
  lemma NonePrefixMeansNoResult(o: Outcome, log: string)
    ensures o.Returned? && o.result.Some? ==> !StartsWith(Renamed(o, log), "None_")
  {
    if o.Returned? && o.result.Some? {
      var n := OutcomeName(o);
      assert Renamed(o, log)[0] == n[0];
    }
  }

  // ---------------------------------------------------------------------
  // project.py

  /** One included sub-target of project.py: `add` reads `result` of the
      returned value without testing it, so a `None` raises; nothing is
      renamed. */
  function LegacyVisit(b: Results.Buckets, c: Child): Wrappers.Result<Results.Buckets, Fault> {
    match c.outcome
    case Raised(f) => Err(f)
    case Returned(r) => if r.None? then Err(Crashed) else Ok(Results.Insert(b, r.value))
  }

  /** `ListBuilder.build` of project.py, from buckets `b` on. */
  function LegacyBuildFrom(cs: seq<Child>, b: Results.Buckets): Wrappers.Result<Results.Buckets, Fault>
    decreases |cs|
  {
    if cs == [] then Ok(b)
    else if !cs[0].included then LegacyBuildFrom(cs[1..], b)
    else
      match LegacyVisit(b, cs[0])
      case Err(f) => Err(f)
      case Ok(b') => LegacyBuildFrom(cs[1..], b')
  }

  /** `ListBuilder.build` of project.py. */
  method LegacyBuild(cs: seq<Child>) returns (results: Results.ListResult, raised: Option<Fault>)
    requires ChildrenWellFormed(cs)
    ensures fresh(results)
    ensures raised.None? ==> LegacyBuildFrom(cs, Results.EmptyBuckets) == Ok(results.subresults)
    ensures raised.Some? ==> LegacyBuildFrom(cs, Results.EmptyBuckets) == Err(raised.value)
  {
    results := new Results.ListResult();
    raised := None;
    var i := 0;
    while i < |cs|
      invariant 0 <= i <= |cs|
      invariant results.Valid()
      invariant LegacyBuildFrom(cs, Results.EmptyBuckets) == LegacyBuildFrom(cs[i..], results.subresults)
    {
      assert cs[i..][1..] == cs[i + 1..];
      var c := cs[i];
      if c.included {
        assert ChildWellFormed(c);
        if c.outcome.Raised? {
          return results, Some(c.outcome.fault);
        }
        var crashed := results.AddUnguarded(c.outcome.result);
        if crashed {
          return results, Some(Crashed);
        }
      }
      i := i + 1;
    }
  }

  /** When no sub-builder raises or returns `None`, the two generations
      gather the same buckets. */
  lemma {:induction false} GenerationsAgree(cs: seq<Child>, p: Progress)
    requires p.raised.None?
    requires forall i :: 0 <= i < |cs| && cs[i].included ==> cs[i].outcome.Returned? && cs[i].outcome.result.Some?
    ensures LegacyBuildFrom(cs, p.buckets) == Ok(BuildFrom(cs, p).buckets)
    decreases |cs|
  {
    if cs != [] {
      assert forall i :: 1 <= i < |cs| ==> cs[i] == cs[1..][i - 1];
      if cs[0].included {
        GenerationsAgree(cs[1..], Visit(p, cs[0]));
      } else {
        GenerationsAgree(cs[1..], p);
      }
    }
  }

  // ---------------------------------------------------------------------
  // What each level includes

  /** `ProjectListBuilder.included`: a project that lists platforms is
      built only on one of them; then the include and exclude predicates
      decide. */
  function ProjectIncluded<P>(platforms: Option<seq<string>>, system: string,
                              includes: seq<P>, excludes: seq<P>, holds: P -> bool): (inc: bool)
    ensures inc <==> ((platforms.None? || system in platforms.value) &&
      (forall i :: 0 <= i < |excludes| ==> !holds(excludes[i])) &&
      (includes == [] || exists i :: 0 <= i < |includes| && holds(includes[i])))
  {
    (platforms.None? || system in platforms.value) && Selection.IncludedElement(includes, excludes, holds)
  }

  /** A project limited to other platforms is left out whatever the
      predicates say. */
  lemma OtherPlatformLeftOut<P>(platforms: seq<string>, system: string,
                                includes: seq<P>, excludes: seq<P>, holds: P -> bool)
    requires system !in platforms
    ensures !ProjectIncluded(Some(platforms), system, includes, excludes, holds)
  {
  }
}
