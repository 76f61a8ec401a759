/** Choosing which index elements take part in a run, and reading the first
    present key of an index entry. A predicate's meaning for the element at
    hand is given by `holds`; how the predicate text is evaluated is not
    part of this model. */
module Selection {
  import opened Wrappers

  /** `any(holds(p) for p in ps)`. */
  function AnyHolds<P>(ps: seq<P>, holds: P -> bool): (b: bool)
    ensures b <==> exists i :: 0 <= i < |ps| && holds(ps[i])
  {
    if ps == [] then false
    else holds(ps[0]) || AnyHolds(ps[1..], holds)
  }

  /** `included_element`: an element is dropped as soon as one exclude
      predicate holds; otherwise it is kept when there are no include
      predicates, or when at least one of them holds. */
  function IncludedElement<P>(includes: seq<P>, excludes: seq<P>, holds: P -> bool): (inc: bool)
    ensures inc <==>
      (forall i :: 0 <= i < |excludes| ==> !holds(excludes[i])) &&
      (includes == [] || exists i :: 0 <= i < |includes| && holds(includes[i]))
  {
    !AnyHolds(excludes, holds) && (includes == [] || AnyHolds(includes, holds))
  }

  /** An exclude predicate that holds wins over every include predicate. */
  lemma ExcludeWins<P>(includes: seq<P>, excludes: seq<P>, holds: P -> bool, e: P)
    requires e in excludes && holds(e)
    ensures !IncludedElement(includes, excludes, holds)
  {
    var i :| 0 <= i < |excludes| && excludes[i] == e;
  }

  /** Adding an exclude predicate never lets more elements in, and adding an
      include predicate to a non-empty include list never keeps fewer out of
      it. */
  lemma SelectionIsMonotone<P>(includes: seq<P>, excludes: seq<P>, holds: P -> bool, p: P)
    ensures IncludedElement(includes, excludes + [p], holds) ==> IncludedElement(includes, excludes, holds)
    ensures includes != [] && IncludedElement(includes, excludes, holds) ==>
      IncludedElement(includes + [p], excludes, holds)
  {
    if IncludedElement(includes, excludes + [p], holds) {
      forall i | 0 <= i < |excludes| ensures !holds(excludes[i]) {
        assert (excludes + [p])[i] == excludes[i];
      }
    }
    if includes != [] && IncludedElement(includes, excludes, holds) {
      var i :| 0 <= i < |includes| && holds(includes[i]);
      assert (includes + [p])[i] == includes[i];
    }
  }

  /** Why `dict_get` raised: no key was present and no default was given. */
  datatype Missing = KeyError

  /** The position of the first of `keys` present in `d`, if any. */
  function FirstPresent<K, V>(d: map<K, V>, keys: seq<K>): (i: Option<nat>)
    ensures i.None? <==> forall j :: 0 <= j < |keys| ==> keys[j] !in d
    ensures i.Some? ==>
      i.value < |keys| && keys[i.value] in d && forall j :: 0 <= j < i.value ==> keys[j] !in d
  {
    if keys == [] then None
    else if keys[0] in d then Some(0)
    else
      match FirstPresent(d, keys[1..])
      case None => None
      case Some(i) => Some(i + 1)
  }

  /** `dict_get(d, *keys, default=...)`: the value of the first key present
      in `d`; failing that, the default when one was given; else KeyError. */
  function DictGet<K, V>(d: map<K, V>, keys: seq<K>, default: Option<V>): (r: Wrappers.Result<V, Missing>)
    ensures r.Err? <==> default.None? && forall j :: 0 <= j < |keys| ==> keys[j] !in d
    ensures forall i :: 0 <= i < |keys| && keys[i] in d && (forall j :: 0 <= j < i ==> keys[j] !in d) ==>
      r == Ok(d[keys[i]])
    ensures (forall j :: 0 <= j < |keys| ==> keys[j] !in d) && default.Some? ==> r == Ok(default.value)
  {
    match FirstPresent(d, keys)
    case Some(i) =>
      assert forall i' :: 0 <= i' < |keys| && keys[i'] in d && (forall j :: 0 <= j < i' ==> keys[j] !in d) ==> i' == i;
      Ok(d[keys[i]])
    case None => if default.Some? then Ok(default.value) else Err(KeyError)
  }
}
