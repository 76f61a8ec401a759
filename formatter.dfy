/** The project index formatter (`utils/format_projects_list.py`): it
    reads the index, sorts its entries by their `path`, dumps them back as
    JSON indented by two spaces and strips the trailing whitespace of every
    line before writing the file again. */
module Formatter {
  import opened Wrappers
  import opened Text
  import Json

  // ---------------------------------------------------------------------
  // Entries and their paths

  /** One element of the index's top-level list as decoded with the
      `OrderedDict` hook: an object keeps its fields in the order of the
      file; any other value is carried as it is. */
  datatype Entry = Object(fields: seq<(string, Json.Value)>) | Other(v: Json.Value)

  /** The value an `OrderedDict` built from `fields` holds for `key`: a key
      written twice keeps its last value. */
  function LastField(fields: seq<(string, Json.Value)>, key: string): (r: Option<Json.Value>)
    ensures r.None? <==> forall i :: 0 <= i < |fields| ==> fields[i].0 != key
    ensures r.Some? ==> exists i :: (0 <= i < |fields| && fields[i] == (key, r.value) &&
      forall j :: i < j < |fields| ==> fields[j].0 != key)
    decreases |fields|
  {
    if fields == [] then None
    else if fields[|fields| - 1].0 == key then Some(fields[|fields| - 1].1)
    else LastField(fields[..|fields| - 1], key)
  }

  /** `repo['path']`: KeyError for an object without a `path`, TypeError
      for a path that is not a string and for an entry that is not an
      object (a list, a string, a number, `null` or a boolean cannot be
      subscripted by a string). */
  function PathKey(e: Entry): Result<string, Json.PyError>
  {
    match e
    case Object(fields) =>
      (match LastField(fields, "path")
       case None => Err(Json.KeyError)
       case Some(Str(p)) => Ok(p)
       case Some(_) => Err(Json.TypeError))
    case Other(Obj(m)) =>
      if "path" !in m then Err(Json.KeyError)
      else if m["path"].Str? then Ok(m["path"].s) else Err(Json.TypeError)
    case Other(_) => Err(Json.TypeError)
  }

  /** Only an object has a path; a missing one raises KeyError and
      anything else that is not a string path raises TypeError. */
  lemma PathKeyErrors(e: Entry)
    ensures PathKey(e).Ok? ==> (e.Object? || e.v.Obj?)
    ensures PathKey(e) == Err(Json.KeyError) <==>
      (match e
       case Object(fields) => LastField(fields, "path").None?
       case Other(v) => v.Obj? && "path" !in v.fields)
    ensures PathKey(e).Ok? <==>
      (match e
       case Object(fields) => LastField(fields, "path").Some? && LastField(fields, "path").value.Str?
       case Other(v) => v.Obj? && "path" in v.fields && v.fields["path"].Str?)
  {
  }

  /** The sort key of an entry: its path. The sort below only runs once
      every entry's path has been found, so the empty string it gives the
      others is never compared. */
  function SortKey(e: Entry): string {
    match PathKey(e)
    case Ok(p) => p
    case Err(_) => ""
  }

  // ---------------------------------------------------------------------
  // The order of paths

  /** `a <= b` for two strings: lexicographic order by character code. */
  predicate Le(a: string, b: string)
    decreases |a|
  {
    a == [] || (b != [] && (a[0] < b[0] || (a[0] == b[0] && Le(a[1..], b[1..]))))
  }

  lemma {:induction false} LeRefl(a: string)
    ensures Le(a, a)
    decreases |a|
  {
    if a != [] {
      LeRefl(a[1..]);
    }
  }

  lemma {:induction false} LeTotal(a: string, b: string)
    ensures Le(a, b) || Le(b, a)
    decreases |a|
  {
    if a != [] && b != [] && a[0] == b[0] {
      LeTotal(a[1..], b[1..]);
    }
  }

  lemma {:induction false} LeTrans(a: string, b: string, c: string)
    requires Le(a, b) && Le(b, c)
    ensures Le(a, c)
    decreases |a|
  {
    if a != [] && a[0] == b[0] && b[0] == c[0] {
      LeTrans(a[1..], b[1..], c[1..]);
    }
  }

  lemma {:induction false} LeAntisym(a: string, b: string)
    requires Le(a, b) && Le(b, a)
    ensures a == b
    decreases |a|
  {
    if a != [] {
      LeAntisym(a[1..], b[1..]);
      assert a == [a[0]] + a[1..] && b == [b[0]] + b[1..];
    }
  }

  // ---------------------------------------------------------------------
  // `sorted(..., key=lambda repo: repo['path'])`

  /** Entries in ascending order of path. */
  predicate Sorted(s: seq<Entry>) {
    forall i, j :: 0 <= i < j < |s| ==> Le(SortKey(s[i]), SortKey(s[j]))
  }

  /** `x` placed before the first entry whose path is not smaller than its
      own: ahead of the entries with an equal path. */
  function Insert(x: Entry, s: seq<Entry>): (r: seq<Entry>)
    ensures multiset(r) == multiset(s) + multiset{x}
    decreases |s|
  {
    if s == [] then [x]
    else if Le(SortKey(x), SortKey(s[0])) then [x] + s
    else
      assert s == [s[0]] + s[1..];
      [s[0]] + Insert(x, s[1..])
  }

  /** A stable sort by path: each entry is inserted into the sorted rest
      of the list ahead of the later entries with an equal path, which is
      what Python's stable `sorted` does. */
  function SortByPath(s: seq<Entry>): (r: seq<Entry>)
    ensures multiset(r) == multiset(s)
    decreases |s|
  {
    if s == [] then []
    else
      assert s == [s[0]] + s[1..];
      Insert(s[0], SortByPath(s[1..]))
  }

  lemma {:induction false} InsertSorted(x: Entry, s: seq<Entry>)
    requires Sorted(s)
    ensures Sorted(Insert(x, s))
    decreases |s|
  {
    if s != [] {
      if Le(SortKey(x), SortKey(s[0])) {
        forall k | 0 <= k < |s| ensures Le(SortKey(x), SortKey(s[k])) {
          if k > 0 {
            LeTrans(SortKey(x), SortKey(s[0]), SortKey(s[k]));
          }
        }
        SortedCons(x, s);
      } else {
        LeTotal(SortKey(x), SortKey(s[0]));
        InsertSorted(x, s[1..]);
        InsertBound(SortKey(s[0]), x, s[1..]);
        SortedCons(s[0], Insert(x, s[1..]));
      }
    }
  }

  lemma SortedCons(a: Entry, t: seq<Entry>)
    requires Sorted(t) && forall k :: 0 <= k < |t| ==> Le(SortKey(a), SortKey(t[k]))
    ensures Sorted([a] + t)
  {
    var r := [a] + t;
    forall i, j | 0 <= i < j < |r| ensures Le(SortKey(r[i]), SortKey(r[j])) {
      assert r[j] == t[j - 1];
      if i > 0 {
        assert r[i] == t[i - 1];
      }
    }
  }

  /** A lower bound of `x` and of every entry of `t` bounds `Insert(x, t)`. */
  lemma InsertBound(b: string, x: Entry, t: seq<Entry>)
    requires Le(b, SortKey(x)) && forall k :: 0 <= k < |t| ==> Le(b, SortKey(t[k]))
    ensures forall k :: 0 <= k < |Insert(x, t)| ==> Le(b, SortKey(Insert(x, t)[k]))
  {
    var r := Insert(x, t);
    forall k | 0 <= k < |r| ensures Le(b, SortKey(r[k])) {
      assert r[k] in multiset(t) + multiset{x};
      if r[k] != x {
        assert r[k] in t;
      }
    }
  }

  /** The sort leaves its entries in ascending order of path. */
  lemma {:induction false} SortSorted(s: seq<Entry>)
    ensures Sorted(SortByPath(s))
    decreases |s|
  {
    if s != [] {
      SortSorted(s[1..]);
      InsertSorted(s[0], SortByPath(s[1..]));
    }
  }

  /** The entries of `s` whose path is `p`, in order. */
  function WithPath(s: seq<Entry>, p: string): (r: seq<Entry>)
    decreases |s|
  {
    if s == [] then [] else (if SortKey(s[0]) == p then [s[0]] else []) + WithPath(s[1..], p)
  }

  lemma {:induction false} InsertWithPath(x: Entry, s: seq<Entry>, p: string)
    ensures WithPath(Insert(x, s), p) == (if SortKey(x) == p then [x] else []) + WithPath(s, p)
    decreases |s|
  {
    if s == [] || Le(SortKey(x), SortKey(s[0])) {
      WithPathCons(x, s, p);
    } else {
      var t := Insert(x, s[1..]);
      assert Insert(x, s) == [s[0]] + t;
      LeRefl(SortKey(x));
      InsertWithPath(x, s[1..], p);
      WithPathCons(s[0], t, p);
      WithPathCons(s[0], s[1..], p);
      assert [s[0]] + s[1..] == s;
      Swap(if SortKey(s[0]) == p then [s[0]] else [], if SortKey(x) == p then [x] else [], WithPath(s[1..], p));
    }
  }

  lemma Swap(a: seq<Entry>, b: seq<Entry>, rest: seq<Entry>)
    requires a == [] || b == []
    ensures a + (b + rest) == b + (a + rest)
  {
  }

  lemma WithPathCons(a: Entry, t: seq<Entry>, p: string)
    ensures WithPath([a] + t, p) == (if SortKey(a) == p then [a] else []) + WithPath(t, p)
  {
    assert ([a] + t)[1..] == t;
  }

  /** The sort is stable: the entries that share a path keep their
      relative order. */
  lemma {:induction false} SortStable(s: seq<Entry>, p: string)
    ensures WithPath(SortByPath(s), p) == WithPath(s, p)
    decreases |s|
  {
    if s != [] {
      SortStable(s[1..], p);
      InsertWithPath(s[0], SortByPath(s[1..]), p);
    }
  }

  /** A sorted list is left as it is. */
  lemma {:induction false} SortSortedIsIdentity(s: seq<Entry>)
    requires Sorted(s)
    ensures SortByPath(s) == s
    decreases |s|
  {
    if s != [] {
      assert Sorted(s[1..]);
      SortSortedIsIdentity(s[1..]);
      if |s| > 1 {
        assert Le(SortKey(s[0]), SortKey(s[1]));
      }
    }
  }

  // ---------------------------------------------------------------------
  // `main`: the entries read, sorted and written back

  /** The key of every entry is computed, in order, before anything is
      compared: the first entry whose path cannot be read raises. */
  function FirstKeyError(items: seq<Entry>): (r: Option<Json.PyError>)
    ensures r.None? <==> forall i :: 0 <= i < |items| ==> PathKey(items[i]).Ok?
    ensures r.Some? ==> exists i :: (0 <= i < |items| && PathKey(items[i]) == Err(r.value) &&
      forall j :: 0 <= j < i ==> PathKey(items[j]).Ok?)
    decreases |items|
  {
    if items == [] then None
    else
      match PathKey(items[0])
      case Err(e) => Some(e)
      case Ok(_) =>
        var r := FirstKeyError(items[1..]);
        if r.Some? then
          var i :| 0 <= i < |items[1..]| && PathKey(items[1..][i]) == Err(r.value) &&
            forall j :: 0 <= j < i ==> PathKey(items[1..][j]).Ok?;
          assert PathKey(items[i + 1]) == Err(r.value);
          r
        else r
  }

  /** The decoded index sorted by path, or the error the key lookup
      raises. */
  function FormatIndex(items: seq<Entry>): (r: Result<seq<Entry>, Json.PyError>)
  {
    match FirstKeyError(items)
    case Some(e) => Err(e)
    case None => Ok(SortByPath(items))
  }

  /** The rewritten index holds the same entries, each unchanged (so with
      its keys in the order of the file), in ascending order of path,
      entries with an equal path in their original order; it fails exactly
      when some entry has no readable path, with the first such entry's
      error. */
  lemma FormatIndexSorts(items: seq<Entry>)
    ensures FormatIndex(items).Ok? <==> forall i :: 0 <= i < |items| ==> PathKey(items[i]).Ok?
    ensures FormatIndex(items).Err? ==> exists i :: (0 <= i < |items| && PathKey(items[i]) == Err(FormatIndex(items).error) &&
      forall j :: 0 <= j < i ==> PathKey(items[j]).Ok?)
    ensures FormatIndex(items).Ok? ==> multiset(FormatIndex(items).value) == multiset(items)
    ensures FormatIndex(items).Ok? ==> (var r := FormatIndex(items).value;
      |r| == |items| && (forall i :: 0 <= i < |r| ==> PathKey(r[i]).Ok?) &&
      forall i, j :: 0 <= i < j < |r| ==> Le(PathKey(r[i]).value, PathKey(r[j]).value))
    ensures FormatIndex(items).Ok? ==> forall p :: WithPath(FormatIndex(items).value, p) == WithPath(items, p)
  {
    if FormatIndex(items).Ok? {
      var r := SortByPath(items);
      SortSorted(items);
      assert |r| == |items| by { assert |multiset(r)| == |multiset(items)|; }
      forall i | 0 <= i < |r| ensures PathKey(r[i]).Ok? && SortKey(r[i]) == PathKey(r[i]).value {
        assert r[i] in multiset(items);
      }
      forall p ensures WithPath(r, p) == WithPath(items, p) {
        SortStable(items, p);
      }
    }
  }

  /** Formatting a formatted index changes nothing. */
  lemma FormatIndexIdempotent(items: seq<Entry>)
    requires FormatIndex(items).Ok?
    ensures FormatIndex(FormatIndex(items).value) == FormatIndex(items)
  {
    var r := SortByPath(items);
    SortSorted(items);
    FormatIndexSorts(items);
    forall i | 0 <= i < |r| ensures PathKey(r[i]).Ok? {
      assert r[i] in multiset(items);
    }
    SortSortedIsIdentity(r);
  }

  // ---------------------------------------------------------------------
  // `strip_trailing_whitespace`: `re.sub(r'\s+$', '', text, flags=re.M)`

  /** Where `$` matches under `re.M`: at the end of the text and just
      before a newline. */
  predicate LineEndAt(s: string, j: nat)
    requires j <= |s|
  {
    j == |s| || s[j] == '\n'
  }

  /** The largest `k` in `1..j` where `$` matches, or 0 when there is
      none. */
  function LastLineEnd(s: string, j: nat): (k: nat)
    requires j <= |s|
    ensures k <= j
    ensures k > 0 ==> LineEndAt(s, k)
    ensures forall m :: k < m <= j ==> !LineEndAt(s, m)
    decreases j
  {
    if j == 0 then 0 else if LineEndAt(s, j) then j else LastLineEnd(s, j - 1)
  }

  /** The end of the match `\s+$` tries at the start of `s`: `\s+` takes
      the whole run of whitespace, then gives characters back until `$`
      matches; 0 when it never does. */
  function MatchEnd(s: string): (j: nat)
    ensures j <= |s| && AllSpace(s[..j])
    ensures j > 0 ==> LineEndAt(s, j)
    ensures forall m :: j < m <= LeadingSpaces(s) ==> !LineEndAt(s, m)
  {
    var j := LastLineEnd(s, LeadingSpaces(s));
    assert s[..j] == s[..LeadingSpaces(s)][..j];
    j
  }

  /** `re.sub` scanning from the start: each match is deleted and the
      search resumes where it ended; where nothing matches the character
      is kept and the search moves on by one. */
  function StripTrailingWhitespace(s: string): (r: string)
    ensures |r| <= |s|
    decreases |s|
  {
    if s == [] then []
    else
      var j := MatchEnd(s);
      if j > 0 then StripTrailingWhitespace(s[j..]) else [s[0]] + StripTrailingWhitespace(s[1..])
  }

  /** No whitespace is followed by a newline or ends the text: no line
      ends in whitespace, no blank line follows another line, and the text
      does not end in a newline. */
  predicate NoTrailing(r: string) {
    forall i :: 0 <= i < |r| && IsSpace(r[i]) ==> i + 1 < |r| && r[i + 1] != '\n'
  }

  /** The characters of `s` that are not whitespace, in order. */
  function Visible(s: string): string
    decreases |s|
  {
    if s == [] then [] else (if IsSpace(s[0]) then [] else [s[0]]) + Visible(s[1..])
  }

  /** Where nothing matches, the next position of the scan does not
      match either, and the character after a kept whitespace is neither
      a newline nor the end. */
  lemma NoMatchNext(s: string)
    requires s != [] && IsSpace(s[0]) && MatchEnd(s) == 0
    ensures |s| > 1 && s[1] != '\n' && MatchEnd(s[1..]) == 0
  {
    var t := s[1..];
    assert LeadingSpaces(s) >= 1;
    assert !LineEndAt(s, 1);
    if MatchEnd(t) > 0 {
      var m := MatchEnd(t);
      assert m <= LeadingSpaces(t);
      assert LeadingSpaces(s) == 1 + LeadingSpaces(t);
      assert LineEndAt(s, m + 1);
    }
  }

  lemma {:induction false} StripHead(s: string)
    requires s != [] && MatchEnd(s) == 0
    ensures StripTrailingWhitespace(s) != [] && StripTrailingWhitespace(s)[0] == s[0]
  {
  }

  /** No line of the stripped text keeps trailing whitespace. */
  lemma {:induction false} StripLeavesNoTrailing(s: string)
    ensures NoTrailing(StripTrailingWhitespace(s))
    decreases |s|
  {
    if s != [] {
      var j := MatchEnd(s);
      if j > 0 {
        StripLeavesNoTrailing(s[j..]);
      } else {
        StripLeavesNoTrailing(s[1..]);
        var r := StripTrailingWhitespace(s);
        var t := StripTrailingWhitespace(s[1..]);
        assert r == [s[0]] + t;
        if IsSpace(s[0]) {
          NoMatchNext(s);
          StripHead(s[1..]);
        }
        forall i | 0 <= i < |r| && IsSpace(r[i]) ensures i + 1 < |r| && r[i + 1] != '\n' {
          if i > 0 {
            assert r[i] == t[i - 1];
          }
        }
      }
    }
  }

  lemma {:induction false} VisibleOfSpaces(s: string, j: nat)
    requires j <= |s| && AllSpace(s[..j])
    ensures Visible(s) == Visible(s[j..])
    decreases j
  {
    if j > 0 {
      assert IsSpace(s[..j][0]);
      assert s[1..][..j - 1] == s[..j][1..];
      VisibleOfSpaces(s[1..], j - 1);
      assert s[1..][j - 1..] == s[j..];
    }
  }

  /** Only whitespace is deleted: the other characters all stay, in
      order. */
  lemma {:induction false} StripKeepsVisible(s: string)
    ensures Visible(StripTrailingWhitespace(s)) == Visible(s)
    decreases |s|
  {
    if s != [] {
      var j := MatchEnd(s);
      if j > 0 {
        StripKeepsVisible(s[j..]);
        VisibleOfSpaces(s, j);
      } else {
        StripKeepsVisible(s[1..]);
        assert ([s[0]] + StripTrailingWhitespace(s[1..]))[1..] == StripTrailingWhitespace(s[1..]);
      }
    }
  }

  lemma NoTrailingNoMatch(s: string)
    requires s != [] && NoTrailing(s)
    ensures MatchEnd(s) == 0
  {
    var run := LeadingSpaces(s);
    forall m | 0 < m <= run ensures !LineEndAt(s, m) {
      assert IsSpace(s[..run][m - 1]);
    }
  }

  /** A text with no trailing whitespace is left as it is, and only such
      a text is. */
  lemma {:induction false} StripFixedPoint(s: string)
    ensures StripTrailingWhitespace(s) == s <==> NoTrailing(s)
    decreases |s|
  {
    StripLeavesNoTrailing(s);
    if s != [] && NoTrailing(s) {
      NoTrailingNoMatch(s);
      assert NoTrailing(s[1..]) by {
        forall i | 0 <= i < |s[1..]| && IsSpace(s[1..][i]) ensures i + 1 < |s[1..]| && s[1..][i + 1] != '\n' {
          assert s[1..][i] == s[i + 1];
        }
      }
      StripFixedPoint(s[1..]);
    }
  }

  /** Stripping twice is stripping once. */
  lemma StripIdempotent(s: string)
    ensures StripTrailingWhitespace(StripTrailingWhitespace(s)) == StripTrailingWhitespace(s)
  {
    StripLeavesNoTrailing(s);
    StripFixedPoint(StripTrailingWhitespace(s));
  }

  /** Whitespace that holds no newline: what may indent a line. */
  predicate Indent(w: string) {
    forall i :: 0 <= i < |w| ==> IsSpace(w[i]) && w[i] != '\n'
  }

  /** The indentation at the head of a line survives: whitespace without
      a newline that runs into a visible character is kept. */
  lemma {:induction false} IndentationKept(w: string, v: string)
    requires Indent(w) && v != [] && !IsSpace(v[0])
    ensures StripTrailingWhitespace(w + v) == w + StripTrailingWhitespace(v)
    decreases |w|
  {
    if w != [] {
      IndentStep(w, v);
      IndentTail(w);
      IndentationKept(w[1..], v);
      Regroup(w[0], w[1..], StripTrailingWhitespace(v));
    }
  }

  lemma IndentStep(w: string, v: string)
    requires Indent(w) && w != [] && v != [] && !IsSpace(v[0])
    ensures StripTrailingWhitespace(w + v) == [w[0]] + StripTrailingWhitespace(w[1..] + v)
  {
    IndentNoMatch(w, v);
    StripKept(w + v);
    ConcatTail(w, v);
  }

  lemma IndentTail(w: string)
    requires Indent(w) && w != []
    ensures Indent(w[1..]) && [w[0]] + w[1..] == w
  {
  }

  lemma ConcatTail(w: string, v: string)
    requires w != []
    ensures (w + v)[0] == w[0] && (w + v)[1..] == w[1..] + v
  {
  }

  lemma {:induction false} SpaceRunBelow(s: string, i: nat)
    requires i < |s| && !IsSpace(s[i])
    ensures LeadingSpaces(s) <= i
    decreases i
  {
    if i > 0 && IsSpace(s[0]) {
      SpaceRunBelow(s[1..], i - 1);
    }
  }

  lemma StripKept(s: string)
    requires s != [] && MatchEnd(s) == 0
    ensures StripTrailingWhitespace(s) == [s[0]] + StripTrailingWhitespace(s[1..])
  {
  }

  lemma Regroup(c: char, a: string, b: string)
    ensures [c] + (a + b) == ([c] + a) + b
  {
  }

  lemma IndentNoMatch(w: string, v: string)
    requires Indent(w) && v != [] && !IsSpace(v[0])
    ensures MatchEnd(w + v) == 0
  {
    var s := w + v;
    var run := LeadingSpaces(s);
    SpaceRunBelow(s, |w|);
    forall m | 0 < m <= run ensures !LineEndAt(s, m) {
      if m < |w| {
        assert s[m] == w[m];
      } else {
        assert s[m] == v[0];
      }
    }
  }

  lemma {:induction false} LeadingSpacesPrefix(p: string, x: string)
    requires p != [] && !IsSpace(p[|p| - 1])
    ensures LeadingSpaces(p + x) == LeadingSpaces(p) < |p|
    decreases |p|
  {
    ConcatTail(p, x);
    if IsSpace(p[0]) {
      LeadingSpacesPrefix(p[1..], x);
    }
  }

  lemma {:induction false} LastLineEndPrefix(p: string, x: string, j: nat)
    requires j < |p|
    ensures LastLineEnd(p + x, j) == LastLineEnd(p, j)
    decreases j
  {
    if j > 0 {
      assert (p + x)[j] == p[j];
      LastLineEndPrefix(p, x, j - 1);
    }
  }

  /** A match that starts inside a text ending in a visible character
      ends inside it too: what follows does not change it. */
  lemma MatchEndPrefix(p: string, x: string)
    requires p != [] && !IsSpace(p[|p| - 1])
    ensures MatchEnd(p + x) == MatchEnd(p) < |p|
  {
    LeadingSpacesPrefix(p, x);
    LastLineEndPrefix(p, x, LeadingSpaces(p));
  }

  /** The substitution works piece by piece on a text cut right after a
      visible character. */
  lemma {:induction false} StripSplits(p: string, x: string)
    requires p == [] || !IsSpace(p[|p| - 1])
    ensures StripTrailingWhitespace(p + x) == StripTrailingWhitespace(p) + StripTrailingWhitespace(x)
    decreases |p|
  {
    if p == [] {
      assert p + x == x;
    } else {
      MatchEndPrefix(p, x);
      var j := MatchEnd(p);
      if j > 0 {
        assert (p + x)[j..] == p[j..] + x;
        StripSplits(p[j..], x);
      } else {
        ConcatTail(p, x);
        StripKept(p + x);
        StripSplits(p[1..], x);
        Regroup(p[0], StripTrailingWhitespace(p[1..]), StripTrailingWhitespace(x));
      }
    }
  }

  lemma NewlineNoMatch(w: string, v: string)
    requires Indent(w) && v != [] && !IsSpace(v[0])
    ensures MatchEnd("\n" + (w + v)) == 0
  {
    var s := "\n" + (w + v);
    var run := LeadingSpaces(s);
    SpaceRunBelow(s, |w| + 1);
    forall m | 0 < m <= run ensures !LineEndAt(s, m) {
      if m <= |w| {
        assert s[m] == w[m - 1];
      } else {
        assert s[m] == v[0];
      }
    }
  }

  lemma Regroup3(a: string, b: string, c: string, d: string)
    ensures a + (b + (c + d)) == a + b + c + d
  {
  }

  /** A newline followed by an indented line that starts with a visible
      character is kept whole up to that character. */
  lemma NewlineKept(w: string, v: string)
    requires Indent(w) && v != [] && !IsSpace(v[0])
    ensures StripTrailingWhitespace("\n" + (w + v)) == "\n" + (w + StripTrailingWhitespace(v))
  {
    var x := "\n" + (w + v);
    NewlineNoMatch(w, v);
    StripKept(x);
    assert x[0] == '\n' && x[1..] == w + v;
    IndentationKept(w, v);
  }

  /** A line that ends in a visible character, a newline, and an indented
      line that starts with one: the newline and the indentation stay and
      each side is stripped on its own. */
  lemma StripLineBoundary(p: string, w: string, v: string)
    requires p != [] && !IsSpace(p[|p| - 1]) && Indent(w) && v != [] && !IsSpace(v[0])
    ensures StripTrailingWhitespace(p + "\n" + w + v) ==
      StripTrailingWhitespace(p) + "\n" + w + StripTrailingWhitespace(v)
  {
    Regroup3(p, "\n", w, v);
    StripSplits(p, "\n" + (w + v));
    NewlineKept(w, v);
    Regroup3(StripTrailingWhitespace(p), "\n", w, StripTrailingWhitespace(v));
  }

  /** `main` after decoding: the sorted entries are dumped (`dump` stands
      for `json.dumps(..., sort_keys=False, indent=2)`) and stripped; the
      text written back has no trailing whitespace. */
  function Main(items: seq<Entry>, dump: seq<Entry> -> string): (r: Result<string, Json.PyError>)
    ensures r.Ok? <==> FormatIndex(items).Ok?
    ensures r.Ok? ==> NoTrailing(r.value)
    ensures r.Ok? ==> Visible(r.value) == Visible(dump(FormatIndex(items).value))
  {
    match FormatIndex(items)
    case Err(e) => Err(e)
    case Ok(sorted) =>
      StripLeavesNoTrailing(dump(sorted));
      StripKeepsVisible(dump(sorted));
      Ok(StripTrailingWhitespace(dump(sorted)))
  }
}
