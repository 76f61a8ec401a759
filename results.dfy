/** The result taxonomy shared by both builder generations
    (project_future.py and project.py): four outcome kinds, leaf action
    results, composite list results with one bucket per kind, and the
    summary printed at the end of a run. */
module Results {
  import opened Wrappers
  import opened Text

  /** `ResultEnum`; the enum numbers FAIL=0, XFAIL=1, PASS=2, UPASS=3 fix
      the order in which a bucket dictionary is iterated. */
  datatype Kind = FAIL | XFAIL | PASS | UPASS

  /** `ResultEnum.reverse_mapping`, used by `Result.__str__`. */
  function KindName(k: Kind): string {
    match k
    case FAIL => "FAIL"
    case XFAIL => "XFAIL"
    case PASS => "PASS"
    case UPASS => "UPASS"
  }

  /** The `subresults` dictionary: one list per kind. */
  datatype Buckets = Buckets(fails: seq<Result>, xfails: seq<Result>, passes: seq<Result>, upasses: seq<Result>)

  /** `ActionResult(kind, text)` is a leaf; a `ListResult` (and its
      subclasses ProjectListResult, ProjectResult, VersionResult) is a
      composite holding its children by kind. */
  datatype Result = Action(kind: Kind, text: string) | Composite(subresults: Buckets)

  const EmptyBuckets := Buckets([], [], [], [])

  function Bucket(b: Buckets, k: Kind): seq<Result> {
    match k
    case FAIL => b.fails
    case XFAIL => b.xfails
    case PASS => b.passes
    case UPASS => b.upasses
  }

  /** `ListResult.result`: the first non-empty bucket in the order FAIL,
      UPASS, XFAIL, PASS; PASS when every bucket is empty. */
  function Precedence(b: Buckets): Kind {
    if b.fails != [] then FAIL
    else if b.upasses != [] then UPASS
    else if b.xfails != [] then XFAIL
    else PASS
  }

  /** The `result` attribute of any result. */
  function KindOf(r: Result): Kind {
    match r
    case Action(k, _) => k
    case Composite(b) => Precedence(b)
  }

  /** `ListResult.add` on a present child: append to the bucket of the
      child's own kind, leave the other three alone. */
  function Insert(b: Buckets, r: Result): (b': Buckets)
    ensures Bucket(b', KindOf(r)) == Bucket(b, KindOf(r)) + [r]
    ensures forall k :: k != KindOf(r) ==> Bucket(b', k) == Bucket(b, k)
  {
    match KindOf(r)
    case FAIL => b.(fails := b.fails + [r])
    case XFAIL => b.(xfails := b.xfails + [r])
    case PASS => b.(passes := b.passes + [r])
    case UPASS => b.(upasses := b.upasses + [r])
  }

  /** `ListResult.all()`: the buckets concatenated in dictionary order. */
  function All(b: Buckets): seq<Result> {
    b.fails + b.xfails + b.passes + b.upasses
  }

  /** Every child sits in the bucket of its own kind, at every depth: the
      invariant `add` keeps. */
  predicate WellFormed(r: Result) {
    match r
    case Action(_, _) => true
    case Composite(b) =>
      (forall i :: 0 <= i < |b.fails| ==> KindOf(b.fails[i]) == FAIL && WellFormed(b.fails[i])) &&
      (forall i :: 0 <= i < |b.xfails| ==> KindOf(b.xfails[i]) == XFAIL && WellFormed(b.xfails[i])) &&
      (forall i :: 0 <= i < |b.passes| ==> KindOf(b.passes[i]) == PASS && WellFormed(b.passes[i])) &&
      (forall i :: 0 <= i < |b.upasses| ==> KindOf(b.upasses[i]) == UPASS && WellFormed(b.upasses[i]))
  }

  predicate AllWellFormed(rs: seq<Result>) {
    forall i :: 0 <= i < |rs| ==> WellFormed(rs[i])
  }

  // ---------------------------------------------------------------------
  // The mutable composite

  /** A `ListResult` being filled by a builder. Once a builder returns it,
      its parent keeps its value (`Value()`); no one changes it afterwards. */
  class ListResult {
    var subresults: Buckets

    ghost predicate Valid()
      reads this
    {
      WellFormed(Composite(subresults))
    }

    function Value(): Result
      reads this
    {
      Composite(subresults)
    }

    /** `ListResult.__init__`: four empty buckets. */
    constructor ()
      ensures subresults == EmptyBuckets && Valid()
    {
      subresults := EmptyBuckets;
    }

    /** `ListResult.add` of project_future.py: a `None` child is dropped,
        any other child is appended to the bucket of its own kind. */
    method Add(r: Option<Result>)
      requires Valid()
      requires r.Some? ==> WellFormed(r.value)
      modifies this
      ensures Valid()
      ensures subresults == if r.Some? then Insert(old(subresults), r.value) else old(subresults)
    {
      if r.Some? {
        subresults := Insert(subresults, r.value);
      }
    }

    /** `ListResult.add` of project.py, which has no `None` guard: reading
        `None.result` raises, reported here as `crashed`. */
    method AddUnguarded(r: Option<Result>) returns (crashed: bool)
      requires Valid()
      requires r.Some? ==> WellFormed(r.value)
      modifies this
      ensures Valid()
      ensures crashed <==> r.None?
      ensures subresults == if r.Some? then Insert(old(subresults), r.value) else old(subresults)
    {
      crashed := r.None?;
      if r.Some? {
        subresults := Insert(subresults, r.value);
      }
    }

    /** `ListResult.recursive_all`: a work list seeded with `all()`; a leaf
        at its front is emitted, a composite at its front is replaced by its
        children, each inserted at the front in turn. */
    method RecursiveAll() returns (actions: seq<Result>)
      ensures actions == LeavesOf(All(subresults))
    {
      var stack := All(subresults);
      actions := [];
      while stack != []
        invariant actions + LeavesOf(stack) == LeavesOf(All(subresults))
        decreases SizeSeq(stack)
      {
        var r := stack[0];
        var rest := stack[1..];
        assert stack == [r] + rest;
        if r.Action? {
          StepAction(r, rest);
          actions := actions + [r];
          stack := rest;
        } else {
          StepComposite(r, rest);
          stack := PushFront(All(r.subresults), rest);
        }
      }
    }
  }

  /** Inserts each of `children` at the front of `stack`, in turn: the
      children end up in reverse order. */
  method PushFront(children: seq<Result>, stack: seq<Result>) returns (s: seq<Result>)
    ensures s == Reverse(children) + stack
  {
    s := stack;
    var i := 0;
    while i < |children|
      invariant 0 <= i <= |children|
      invariant s == Reverse(children[..i]) + stack
    {
      assert children[..i + 1] == children[..i] + [children[i]];
      s := [children[i]] + s;
      i := i + 1;
    }
    assert children[..i] == children;
  }

  // ---------------------------------------------------------------------
  // Flattening

  function Size(r: Result): nat {
    match r
    case Action(_, _) => 1
    case Composite(b) => 1 + SizeSeq(b.fails) + SizeSeq(b.xfails) + SizeSeq(b.passes) + SizeSeq(b.upasses)
  }

  function SizeSeq(rs: seq<Result>): nat {
    if rs == [] then 0 else Size(rs[0]) + SizeSeq(rs[1..])
  }

  lemma {:induction false} SizeSeqAppend(a: seq<Result>, b: seq<Result>)
    ensures SizeSeq(a + b) == SizeSeq(a) + SizeSeq(b)
  {
    if a == [] {
      assert a + b == b;
    } else {
      assert (a + b)[0] == a[0] && (a + b)[1..] == a[1..] + b;
      SizeSeqAppend(a[1..], b);
    }
  }

  lemma {:induction false} SizeSeqReverse(a: seq<Result>)
    ensures SizeSeq(Reverse(a)) == SizeSeq(a)
  {
    if a != [] {
      assert Reverse(a) == Reverse(a[1..]) + [a[0]];
      SizeSeqAppend(Reverse(a[1..]), [a[0]]);
      SizeSeqReverse(a[1..]);
    }
  }

  lemma SizeOfComposite(b: Buckets)
    ensures Size(Composite(b)) == 1 + SizeSeq(All(b))
  {
    SizeSeqAppend(b.fails, b.xfails);
    SizeSeqAppend(b.fails + b.xfails, b.passes);
    SizeSeqAppend(b.fails + b.xfails + b.passes, b.upasses);
  }

  /** The leaves `recursive_all` reaches from one work-list entry: the
      entry itself when it is a leaf, otherwise the leaves of its children
      taken in reverse order (they are pushed to the front one by one). */
  function Walk(r: Result): seq<Result>
    decreases Size(r), 0
  {
    match r
    case Action(_, _) => [r]
    case Composite(b) =>
      SizeSeqReverse(All(b));
      SizeOfComposite(b);
      LeavesOf(Reverse(All(b)))
  }

  /** The leaves `recursive_all` emits for a whole work list. */
  function LeavesOf(rs: seq<Result>): (leaves: seq<Result>)
    decreases SizeSeq(rs), 1
  {
    if rs == [] then [] else Walk(rs[0]) + LeavesOf(rs[1..])
  }

  lemma {:induction false} LeavesOfAppend(a: seq<Result>, b: seq<Result>)
    ensures LeavesOf(a + b) == LeavesOf(a) + LeavesOf(b)
  {
    if a == [] {
      assert a + b == b;
    } else {
      assert (a + b)[0] == a[0] && (a + b)[1..] == a[1..] + b;
      LeavesOfAppend(a[1..], b);
    }
  }

  /** Taking a leaf off the work list emits it. */
  lemma StepAction(r: Result, rest: seq<Result>)
    requires r.Action?
    ensures LeavesOf([r] + rest) == [r] + LeavesOf(rest)
    ensures SizeSeq(rest) < SizeSeq([r] + rest)
  {
    assert ([r] + rest)[0] == r && ([r] + rest)[1..] == rest;
  }

  /** Replacing a composite on the work list by its children, reversed,
      emits the same leaves and shrinks the work list. */
  lemma StepComposite(r: Result, rest: seq<Result>)
    requires r.Composite?
    ensures LeavesOf([r] + rest) == LeavesOf(Reverse(All(r.subresults)) + rest)
    ensures SizeSeq(Reverse(All(r.subresults)) + rest) < SizeSeq([r] + rest)
  {
    var children := Reverse(All(r.subresults));
    assert ([r] + rest)[0] == r && ([r] + rest)[1..] == rest;
    LeavesOfAppend(children, rest);
    SizeSeqAppend(children, rest);
    SizeSeqReverse(All(r.subresults));
    SizeOfComposite(r.subresults);
  }

  /** Every element `recursive_all` emits is a leaf. */
  lemma {:induction false} LeavesAreActions(rs: seq<Result>)
    ensures forall i :: 0 <= i < |LeavesOf(rs)| ==> LeavesOf(rs)[i].Action?
    decreases SizeSeq(rs), 1
  {
    if rs != [] {
      WalkIsActions(rs[0]);
      LeavesAreActions(rs[1..]);
    }
  }

  lemma {:induction false} WalkIsActions(r: Result)
    ensures forall i :: 0 <= i < |Walk(r)| ==> Walk(r)[i].Action?
    decreases Size(r), 0
  {
    if r.Composite? {
      SizeSeqReverse(All(r.subresults));
      SizeOfComposite(r.subresults);
      LeavesAreActions(Reverse(All(r.subresults)));
    }
  }

  // ---------------------------------------------------------------------
  // The kind of a composite is the dominant kind of its leaves

  /** FAIL > UPASS > XFAIL > PASS. */
  function Rank(k: Kind): nat {
    match k
    case PASS => 0
    case XFAIL => 1
    case UPASS => 2
    case FAIL => 3
  }

  function Max(a: Kind, b: Kind): Kind {
    if Rank(a) >= Rank(b) then a else b
  }

  /** The strongest kind present in a bag of kinds; PASS for an empty bag. */
  function Dominant(ks: multiset<Kind>): (k: Kind)
    ensures k == PASS || k in ks
    ensures forall j :: j in ks ==> Rank(j) <= Rank(k)
  {
    if FAIL in ks then FAIL
    else if UPASS in ks then UPASS
    else if XFAIL in ks then XFAIL
    else PASS
  }

  lemma DominantUnion(a: multiset<Kind>, b: multiset<Kind>)
    ensures Dominant(a + b) == Max(Dominant(a), Dominant(b))
  {
  }

  function KindBag(rs: seq<Result>): multiset<Kind> {
    if rs == [] then multiset{} else multiset{KindOf(rs[0])} + KindBag(rs[1..])
  }

  lemma {:induction false} KindBagAppend(a: seq<Result>, b: seq<Result>)
    ensures KindBag(a + b) == KindBag(a) + KindBag(b)
  {
    if a == [] {
      assert a + b == b;
    } else {
      assert (a + b)[0] == a[0] && (a + b)[1..] == a[1..] + b;
      KindBagAppend(a[1..], b);
    }
  }

  /** The kinds of the leaves under a work list do not depend on the order
      of its entries. */
  lemma {:induction false} LeafKindsOfReverse(rs: seq<Result>)
    ensures KindBag(LeavesOf(Reverse(rs))) == KindBag(LeavesOf(rs))
  {
    if rs != [] {
      assert Reverse(rs) == Reverse(rs[1..]) + [rs[0]];
      assert rs == [rs[0]] + rs[1..];
      LeavesOfAppend(Reverse(rs[1..]), [rs[0]]);
      LeavesOfAppend([rs[0]], rs[1..]);
      KindBagAppend(LeavesOf(Reverse(rs[1..])), LeavesOf([rs[0]]));
      KindBagAppend(LeavesOf([rs[0]]), LeavesOf(rs[1..]));
      LeafKindsOfReverse(rs[1..]);
    }
  }

  /** Over well-formed children, `Precedence` is the strongest kind among
      the children. */
  lemma PrecedenceIsStrongestChild(b: Buckets)
    requires WellFormed(Composite(b))
    ensures Precedence(b) == Dominant(KindBag(All(b)))
  {
    BucketCount(b, FAIL);
    BucketCount(b, UPASS);
    BucketCount(b, XFAIL);
  }

  /** The kind of a well-formed result is the strongest kind among all the
      leaves beneath it (PASS when there are none): a composite is FAIL
      exactly when some action failed, at any depth. */
  lemma {:induction false} KindIsDominantLeafKind(r: Result)
    requires WellFormed(r)
    ensures KindOf(r) == Dominant(KindBag(Walk(r)))
    decreases Size(r), 0
  {
    match r
    case Action(_, _) =>
      assert KindBag(Walk(r)) == multiset{KindOf(r)};
    case Composite(b) =>
      var children := All(b);
      assert Walk(r) == LeavesOf(Reverse(children)) by {
        SizeSeqReverse(children);
        SizeOfComposite(b);
      }
      assert KindOf(r) == Dominant(KindBag(children)) by { PrecedenceIsStrongestChild(b); }
      assert Dominant(KindBag(children)) == Dominant(KindBag(LeavesOf(children))) by {
        ChildrenWellFormed(b);
        SizeOfComposite(b);
        ChildrenDominance(children);
      }
      LeafKindsOfReverse(children);
  }

  lemma ChildrenWellFormed(b: Buckets)
    requires WellFormed(Composite(b))
    ensures AllWellFormed(All(b))
  {
    forall i | 0 <= i < |All(b)| ensures WellFormed(All(b)[i]) {
      var c := All(b)[i];
      assert c in b.fails || c in b.xfails || c in b.passes || c in b.upasses;
    }
  }

  lemma {:induction false} ChildrenDominance(rs: seq<Result>)
    requires AllWellFormed(rs)
    ensures Dominant(KindBag(rs)) == Dominant(KindBag(LeavesOf(rs)))
    decreases SizeSeq(rs), 1
  {
    if rs != [] {
      KindIsDominantLeafKind(rs[0]);
      ChildrenDominance(rs[1..]);
      KindBagAppend(Walk(rs[0]), LeavesOf(rs[1..]));
      DominantUnion(multiset{KindOf(rs[0])}, KindBag(rs[1..]));
      DominantUnion(KindBag(Walk(rs[0])), KindBag(LeavesOf(rs[1..])));
      assert Dominant(multiset{KindOf(rs[0])}) == KindOf(rs[0]);
    }
  }

  // ---------------------------------------------------------------------
  // Leaf counts

  /** `[ar for ar in rs if ar.result == k]`. */
  function OfKind(rs: seq<Result>, k: Kind): (r: seq<Result>)
    ensures |r| == KindBag(rs)[k]
    ensures forall i :: 0 <= i < |r| ==> KindOf(r[i]) == k
  {
    if rs == [] then []
    else if KindOf(rs[0]) == k then [rs[0]] + OfKind(rs[1..], k)
    else OfKind(rs[1..], k)
  }

  /** `pos` lists, in increasing order, positions of `rs` whose elements
      make up `r`: `r` is a subsequence of `rs`. */
  predicate OrderedPicks(rs: seq<Result>, r: seq<Result>, pos: seq<nat>) {
    |pos| == |r| &&
    (forall i :: 0 <= i < |pos| ==> pos[i] < |rs| && r[i] == rs[pos[i]]) &&
    (forall i, j :: 0 <= i < j < |pos| ==> pos[i] < pos[j])
  }

  /** The filter is a subsequence of `rs`: its results are picked from
      `rs` at increasing positions. With the contract of `OfKind` (as many
      results as `rs` has of kind `k`, each of kind `k`), it is exactly the
      results of kind `k`, in the order of `rs`. */
  lemma {:induction false} OfKindPicksInOrder(rs: seq<Result>, k: Kind)
    ensures exists pos :: OrderedPicks(rs, OfKind(rs, k), pos)
    decreases |rs|
  {
    if rs == [] {
      var none: seq<nat> := [];
      assert OrderedPicks(rs, OfKind(rs, k), none);
    } else {
      OfKindPicksInOrder(rs[1..], k);
      var p :| OrderedPicks(rs[1..], OfKind(rs[1..], k), p);
      if KindOf(rs[0]) == k {
        PicksTake(rs, OfKind(rs[1..], k), p);
        assert OfKind(rs, k) == [rs[0]] + OfKind(rs[1..], k);
        assert OrderedPicks(rs, OfKind(rs, k), [0] + Shift(p));
      } else {
        PicksSkip(rs, OfKind(rs[1..], k), p);
        assert OfKind(rs, k) == OfKind(rs[1..], k);
        assert OrderedPicks(rs, OfKind(rs, k), Shift(p));
      }
    }
  }

  /** Every position moved one further. */
  function Shift(p: seq<nat>): (q: seq<nat>)
    ensures |q| == |p| && forall i :: 0 <= i < |p| ==> q[i] == p[i] + 1
  {
    seq(|p|, i requires 0 <= i < |p| => p[i] + 1)
  }

  /** Picks from the tail are picks from the whole, one position on. */
  lemma PicksSkip(rs: seq<Result>, r: seq<Result>, p: seq<nat>)
    requires rs != [] && OrderedPicks(rs[1..], r, p)
    ensures OrderedPicks(rs, r, Shift(p))
  {
    forall i | 0 <= i < |p| ensures r[i] == rs[Shift(p)[i]] {
      assert rs[1..][p[i]] == rs[p[i] + 1];
    }
  }

  /** Picking the head first, then picks from the tail. */
  lemma PicksTake(rs: seq<Result>, r: seq<Result>, p: seq<nat>)
    requires rs != [] && OrderedPicks(rs[1..], r, p)
    ensures OrderedPicks(rs, [rs[0]] + r, [0] + Shift(p))
  {
    PicksSkip(rs, r, p);
    var q := Shift(p);
    var pos := [0] + q;
    forall i | 0 <= i < |pos| ensures pos[i] < |rs| && ([rs[0]] + r)[i] == rs[pos[i]] {
      if i > 0 {
        assert pos[i] == q[i - 1] && ([rs[0]] + r)[i] == r[i - 1];
      }
    }
    forall i, j | 0 <= i < j < |pos| ensures pos[i] < pos[j] {
      assert pos[j] == q[j - 1];
      if i > 0 {
        assert pos[i] == q[i - 1];
      }
    }
  }

  function Texts(rs: seq<Result>): seq<string> {
    if rs == [] then []
    else (if rs[0].Action? then [rs[0].text] else []) + Texts(rs[1..])
  }

  lemma {:induction false} BagCountsAddUp(rs: seq<Result>)
    ensures KindBag(rs)[FAIL] + KindBag(rs)[XFAIL] + KindBag(rs)[PASS] + KindBag(rs)[UPASS] == |rs|
  {
    if rs != [] {
      BagCountsAddUp(rs[1..]);
      var k0, rest := KindOf(rs[0]), KindBag(rs[1..]);
      assert KindBag(rs) == multiset{k0} + rest;
      assert rest[FAIL] + rest[XFAIL] + rest[PASS] + rest[UPASS] == |rs| - 1;
      match k0
      case FAIL => assert multiset{k0}[XFAIL] == multiset{k0}[PASS] == multiset{k0}[UPASS] == 0;
      case XFAIL => assert multiset{k0}[FAIL] == multiset{k0}[PASS] == multiset{k0}[UPASS] == 0;
      case PASS => assert multiset{k0}[FAIL] == multiset{k0}[XFAIL] == multiset{k0}[UPASS] == 0;
      case UPASS => assert multiset{k0}[FAIL] == multiset{k0}[XFAIL] == multiset{k0}[PASS] == 0;
    }
  }

  /** The exit status of `runner.py`: 0 when the merged kind is PASS or
      XFAIL, 1 otherwise. */
  function ExitCode(k: Kind): (code: int)
    ensures code == 0 || code == 1
    ensures code == 0 <==> k == PASS || k == XFAIL
  {
    if k == PASS || k == XFAIL then 0 else 1
  }

  /** A run of a well-formed result tree exits with 0 exactly when no action
      anywhere beneath it failed unexpectedly or passed unexpectedly. */
  lemma ExitCodeReflectsLeaves(b: Buckets)
    requires WellFormed(Composite(b))
    ensures ExitCode(KindOf(Composite(b))) == 0 <==>
      (FAIL !in KindBag(LeavesOf(All(b))) && UPASS !in KindBag(LeavesOf(All(b))))
  {
    KindIsDominantLeafKind(Composite(b));
    LeafKindsOfReverse(All(b));
  }

  /** What `ProjectListResult.__str__` prints, before it is laid out. */
  datatype Summary = Summary(
    xfails: seq<string>, upasses: seq<string>, fails: seq<string>,
    passed: nat, failed: nat, xfailed: nat, upassed: nat, total: nat,
    repositories: nat, result: Kind)

  /** `ProjectListResult.__str__` of project_future.py: the leaf lists and
      counts come from `recursive_all()`, the repository total from `all()`. */
  function Summarize(b: Buckets): Summary {
    var leaves := LeavesOf(All(b));
    var xf := OfKind(leaves, XFAIL);
    var up := OfKind(leaves, UPASS);
    var fa := OfKind(leaves, FAIL);
    var pa := OfKind(leaves, PASS);
    Summary(Texts(xf), Texts(up), Texts(fa),
            |pa|, |fa|, |xf|, |up|, |fa| + |pa| + |xf| + |up|,
            |All(b)|, Precedence(b))
  }

  /** The action total counts every leaf once; the printed result is FAIL
      exactly when some leaf failed, and PASS exactly when every leaf passed
      (or there are none). */
  lemma SummaryIsConsistent(b: Buckets)
    requires WellFormed(Composite(b))
    ensures Summarize(b).total == |LeavesOf(All(b))|
    ensures Summarize(b).result == FAIL <==> Summarize(b).failed > 0
    ensures Summarize(b).result == PASS <==>
      Summarize(b).failed == 0 && Summarize(b).upassed == 0 && Summarize(b).xfailed == 0
  {
    var leaves := LeavesOf(All(b));
    BagCountsAddUp(leaves);
    KindIsDominantLeafKind(Composite(b));
    LeafKindsOfReverse(All(b));
  }

  function Repeat(c: char, n: nat): (r: string)
    ensures |r| == n && forall i :: 0 <= i < n ==> r[i] == c
  {
    if n == 0 then [] else Repeat(c, n - 1) + [c]
  }

  function Rule(): string { Repeat('=', 40) }

  function Lines(texts: seq<string>): string {
    if texts == [] then [] else "  " + texts[0] + "\n" + Lines(texts[1..])
  }

  /** A titled list, printed only when the list is non-empty. */
  function Section(title: string, texts: seq<string>): (r: string)
    ensures texts != [] ==> StartsWith(r, Rule())
  {
    if texts == [] then []
    else
      var r := Rule() + ("\n" + title + "\n" + Lines(texts));
      StartsWithAppend(Rule(), "\n" + title + "\n" + Lines(texts));
      r
  }

  lemma StartsWithAppend(a: string, b: string)
    ensures StartsWith(a + b, a)
  {
    assert (a + b)[..|a|] == a;
  }

  lemma EndsWithAppend(a: string, b: string)
    ensures EndsWith(a + b, b)
  {
    assert (a + b)[|a|..] == b;
  }

  /** The closing line of the report. */
  function Verdict(k: Kind): string {
    "Result: " + KindName(k) + "\n" + Rule()
  }

  /** The counts block that follows the lists. */
  function Counts(s: Summary): string {
    "\n" + "Action Summary:\n" +
    "     Passed: " + Decimal(s.passed) + "\n" +
    "     Failed: " + Decimal(s.failed) + "\n" +
    "    XFailed: " + Decimal(s.xfailed) + "\n" +
    "    UPassed: " + Decimal(s.upassed) + "\n" +
    "      Total: " + Decimal(s.total) + "\n" +
    Rule() + "\n" + "Repository Summary:\n" +
    "      Total: " + Decimal(s.repositories) + "\n" +
    Rule() + "\n"
  }

  /** The text `ProjectListResult.__str__` returns (both generations share
      the layout): the lists of unexpected and expected failures, then the
      counts, then the overall result. */
  function Render(s: Summary): (out: string)
    ensures EndsWith(out, Verdict(s.result))
    ensures StartsWith(out, Rule())
  {
    var x, u, f := Section("XFailures:", s.xfails), Section("UPasses:", s.upasses), Section("Failures:", s.fails);
    var counts, verdict := Counts(s), Verdict(s.result);
    RenderShape(x, u, f, Rule(), counts, verdict);
    x + u + f + Rule() + counts + verdict
  }

  /** The layout lemma behind `Render`, stated over the pieces. */
  lemma RenderShape(x: string, u: string, f: string, rule: string, counts: string, verdict: string)
    requires x == [] || StartsWith(x, rule)
    requires u == [] || StartsWith(u, rule)
    requires f == [] || StartsWith(f, rule)
    ensures EndsWith(x + u + f + rule + counts + verdict, verdict)
    ensures StartsWith(x + u + f + rule + counts + verdict, rule)
  {
    var all := x + u + f + rule + counts + verdict;
    EndsWithAppend(x + u + f + rule + counts, verdict);
    var first := if x != [] then x else if u != [] then u else if f != [] then f else rule;
    assert all == first + all[|first|..];
    assert StartsWith(first, rule);
    assert all[..|rule|] == first[..|rule|];
  }

  // ---------------------------------------------------------------------
  // The summary of project.py

  /** `[ar for pr in self.all() for ar in pr.<bucket>()]`: the bucket of
      every child, which must itself be a composite (a leaf child has no
      buckets and Python raises AttributeError, reported as `None`). */
  function Gather(children: seq<Result>, k: Kind): (r: Option<seq<Result>>)
    ensures r.None? <==> exists i :: 0 <= i < |children| && children[i].Action?
  {
    if children == [] then Some([])
    else if children[0].Action? then None
    else
      match Gather(children[1..], k)
      case None => None
      case Some(rest) => Some(Bucket(children[0].subresults, k) + rest)
  }

  /** `ProjectListResult.__str__` of project.py: leaves are counted exactly
      two levels down, through each child's buckets. */
  function SummarizeLegacy(b: Buckets): (r: Option<Summary>)
    ensures r.Some? ==> r.value.repositories == |All(b)| && r.value.result == Precedence(b)
    ensures r.Some? ==> r.value.total == r.value.passed + r.value.failed + r.value.xfailed + r.value.upassed
  {
    var children := All(b);
    match (Gather(children, XFAIL), Gather(children, UPASS), Gather(children, FAIL), Gather(children, PASS))
    case (Some(xf), Some(up), Some(fa), Some(pa)) =>
      Some(Summary(Texts(xf), Texts(up), Texts(fa),
                   |pa|, |fa|, |xf|, |up|, |fa| + |pa| + |xf| + |up|,
                   |children|, Precedence(b)))
    case _ => None
  }

  /** Every child is a composite whose children are all leaves. */
  predicate TwoLevels(children: seq<Result>) {
    forall i :: 0 <= i < |children| ==> (children[i].Composite? &&
      forall j :: 0 <= j < |All(children[i].subresults)| ==> All(children[i].subresults)[j].Action?)
  }

  lemma {:induction false} LeavesOfActions(rs: seq<Result>)
    requires forall i :: 0 <= i < |rs| ==> rs[i].Action?
    ensures LeavesOf(rs) == rs
  {
    if rs != [] {
      LeavesOfActions(rs[1..]);
    }
  }

  lemma {:induction false} BucketCount(c: Buckets, k: Kind)
    requires WellFormed(Composite(c))
    ensures KindBag(All(c))[k] == |Bucket(c, k)|
  {
    KindBagAppend(c.fails, c.xfails);
    KindBagAppend(c.fails + c.xfails, c.passes);
    KindBagAppend(c.fails + c.xfails + c.passes, c.upasses);
    BucketBagCount(c.fails, FAIL, k);
    BucketBagCount(c.xfails, XFAIL, k);
    BucketBagCount(c.passes, PASS, k);
    BucketBagCount(c.upasses, UPASS, k);
  }

  lemma {:induction false} BucketBagCount(rs: seq<Result>, j: Kind, k: Kind)
    requires forall i :: 0 <= i < |rs| ==> KindOf(rs[i]) == j
    ensures KindBag(rs)[k] == if j == k then |rs| else 0
  {
    if rs != [] {
      BucketBagCount(rs[1..], j, k);
    }
  }

  lemma TwoLevelsTail(children: seq<Result>)
    requires children != [] && AllWellFormed(children) && TwoLevels(children)
    ensures AllWellFormed(children[1..]) && TwoLevels(children[1..])
  {
    forall i | 0 <= i < |children[1..]|
      ensures children[1..][i].Composite? &&
        (forall j :: 0 <= j < |All(children[1..][i].subresults)| ==> All(children[1..][i].subresults)[j].Action?)
    {
      assert children[1..][i] == children[i + 1];
    }
  }

  lemma {:induction false} GatherCounts(children: seq<Result>, k: Kind)
    requires AllWellFormed(children) && TwoLevels(children)
    ensures Gather(children, k).Some?
    ensures |Gather(children, k).value| == KindBag(LeavesOf(children))[k]
  {
    if children != [] {
      var c := children[0];
      TwoLevelsTail(children);
      GatherCounts(children[1..], k);
      LeavesOfActions(All(c.subresults));
      LeavesOfActions(Reverse(All(c.subresults)));
      LeafKindsOfReverse(All(c.subresults));
      BucketCount(c.subresults, k);
      KindBagAppend(Walk(c), LeavesOf(children[1..]));
    }
  }

  /** On the trees the older builders produce (projects holding actions),
      the older two-level summary reports the same counts, totals and result
      as the recursive one. */
  lemma LegacySummaryAgrees(b: Buckets)
    requires WellFormed(Composite(b)) && TwoLevels(All(b))
    ensures SummarizeLegacy(b).Some?
    ensures var old_ := SummarizeLegacy(b).value; var new_ := Summarize(b);
      old_.passed == new_.passed && old_.failed == new_.failed &&
      old_.xfailed == new_.xfailed && old_.upassed == new_.upassed &&
      old_.total == new_.total && old_.repositories == new_.repositories &&
      old_.result == new_.result
  {
    assert AllWellFormed(All(b)) by {
      forall i | 0 <= i < |All(b)| ensures WellFormed(All(b)[i]) {
        var c := All(b)[i];
        assert c in b.fails || c in b.xfails || c in b.passes || c in b.upasses;
      }
    }
    GatherCounts(All(b), XFAIL);
    GatherCounts(All(b), UPASS);
    GatherCounts(All(b), FAIL);
    GatherCounts(All(b), PASS);
  }

  // ---------------------------------------------------------------------
  // Merging two composites

  /** The evident intent of `ListResult.__add__`: a composite whose every
      bucket is the concatenation of the two operands' buckets. */
  function Merge(a: Buckets, b: Buckets): (m: Buckets)
    ensures forall k :: Bucket(m, k) == Bucket(a, k) + Bucket(b, k)
  {
    Buckets(a.fails + b.fails, a.xfails + b.xfails, a.passes + b.passes, a.upasses + b.upasses)
  }

  /** Merging keeps every bucket well formed, and its kind is the stronger
      of the two operands' kinds. */
  lemma MergeKind(a: Buckets, b: Buckets)
    requires WellFormed(Composite(a)) && WellFormed(Composite(b))
    ensures WellFormed(Composite(Merge(a, b)))
    ensures Precedence(Merge(a, b)) == Max(Precedence(a), Precedence(b))
  {
  }

  lemma MergeAssociative(a: Buckets, b: Buckets, c: Buckets)
    ensures Merge(Merge(a, b), c) == Merge(a, Merge(b, c))
  {
  }

  /** The leaves under a work list, as a multiset. */
  function LeafBag(rs: seq<Result>): multiset<Result> {
    multiset(LeavesOf(rs))
  }

  lemma LeafBagAppend(a: seq<Result>, b: seq<Result>)
    ensures LeafBag(a + b) == LeafBag(a) + LeafBag(b)
  {
    LeavesOfAppend(a, b);
  }

  lemma LeafBagOfAll(x: Buckets)
    ensures LeafBag(All(x)) == LeafBag(x.fails) + LeafBag(x.xfails) + LeafBag(x.passes) + LeafBag(x.upasses)
  {
    LeavesOfAppend(x.fails, x.xfails);
    LeavesOfAppend(x.fails + x.xfails, x.passes);
    LeavesOfAppend(x.fails + x.xfails + x.passes, x.upasses);
  }

  /** The leaves under a merge are the leaves under both operands, as a
      multiset: merging in any order and grouping yields the same leaves
      and messages; only the display order differs. */
  lemma MergeLeaves(a: Buckets, b: Buckets)
    ensures LeafBag(All(Merge(a, b))) == LeafBag(All(a)) + LeafBag(All(b))
  {
    var m := Merge(a, b);
    var af, ax, ap, au := LeafBag(a.fails), LeafBag(a.xfails), LeafBag(a.passes), LeafBag(a.upasses);
    var bf, bx, bp, bu := LeafBag(b.fails), LeafBag(b.xfails), LeafBag(b.passes), LeafBag(b.upasses);
    assert LeafBag(All(m)) == (af + bf) + (ax + bx) + (ap + bp) + (au + bu) by {
      LeafBagOfAll(m);
      LeafBagAppend(a.fails, b.fails);
      LeafBagAppend(a.xfails, b.xfails);
      LeafBagAppend(a.passes, b.passes);
      LeafBagAppend(a.upasses, b.upasses);
    }
    assert LeafBag(All(a)) == af + ax + ap + au by { LeafBagOfAll(a); }
    assert LeafBag(All(b)) == bf + bx + bp + bu by { LeafBagOfAll(b); }
    Interleave(af, ax, ap, au, bf, bx, bp, bu);
  }

  lemma Interleave<T>(af: multiset<T>, ax: multiset<T>, ap: multiset<T>, au: multiset<T>,
                      bf: multiset<T>, bx: multiset<T>, bp: multiset<T>, bu: multiset<T>)
    ensures (af + bf) + (ax + bx) + (ap + bp) + (au + bu) == (af + ax + ap + au) + (bf + bx + bp + bu)
  {
  }

  /** The attribute names that the class body of `Result` defines, i.e. the
      keys of `Result.__dict__` under Python 2. The enum members FAIL, XFAIL,
      PASS and UPASS are inherited from `ResultEnum` and are not among them. */
  const ResultClassAttributes: seq<string> := ["__module__", "__init__", "__str__", "__doc__"]

  /** `ResultEnum`'s members by name. */
  function KindByName(name: string): Option<Kind> {
    if name == "FAIL" then Some(FAIL)
    else if name == "XFAIL" then Some(XFAIL)
    else if name == "PASS" then Some(PASS)
    else if name == "UPASS" then Some(UPASS)
    else None
  }

  /** `ListResult.__add__` as written: a dictionary comprehension over the
      public names of `Result.__dict__`. */
  function MergeAsWritten(a: Buckets, b: Buckets): map<Kind, seq<Result>> {
    map x | x in ResultClassAttributes && !StartsWith(x, "_") && KindByName(x).Some? ::
      KindByName(x).value := Bucket(a, KindByName(x).value) + Bucket(b, KindByName(x).value)
  }

  /** `ListResult.result` over a bucket dictionary: a missing key raises
      KeyError, reported as `Err`. */
  function KindOfDict(d: map<Kind, seq<Result>>): Wrappers.Result<Kind, string> {
    if FAIL !in d then Err("KeyError")
    else if d[FAIL] != [] then Ok(FAIL)
    else if UPASS !in d then Err("KeyError")
    else if d[UPASS] != [] then Ok(UPASS)
    else if XFAIL !in d then Err("KeyError")
    else if d[XFAIL] != [] then Ok(XFAIL)
    else if PASS !in d then Err("KeyError")
    else Ok(PASS)
  }

  /** As written, `__add__` yields an empty dictionary whatever the
      operands hold, so asking the sum for its result raises KeyError. */
  lemma MergeAsWrittenLosesEverything(a: Buckets, b: Buckets)
    ensures MergeAsWritten(a, b) == map[]
    ensures KindOfDict(MergeAsWritten(a, b)).Err?
  {
    forall x | x in ResultClassAttributes ensures StartsWith(x, "_") {
    }
  }
}
