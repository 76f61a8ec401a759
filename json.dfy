/** The values of the JSON project index as Python 2 sees them once
    `json.load` has read them, and the few Python operations the builders
    apply to them: subscripting, `.get`, `in` and `.split()[0]`. Numbers
    are integers here; the index holds no other numbers the model reads. */
module Json {
  import opened Wrappers
  import opened Text

  datatype Value =
    | Null
    | Bool(b: bool)
    | Num(n: int)
    | Str(s: string)
    | Arr(items: seq<Value>)
    | Obj(fields: map<string, Value>)

  /** Exceptions raised while reading the index. */
  datatype PyError = KeyError | IndexError | AttributeError | TypeError | Unreachable

  /** `t in s` for two strings: `t` occurs in `s` at some position. */
  predicate Substring(t: string, s: string)
    decreases |s|
  {
    StartsWith(s, t) || (s != [] && Substring(t, s[1..]))
  }

  /** `key in container` for a string key: a key of a dictionary, an
      element of a list, a substring of a string; any other container
      raises TypeError. */
  function Contains(container: Value, key: string): (r: Wrappers.Result<bool, PyError>)
    ensures container.Obj? ==> r == Ok(key in container.fields)
    ensures container.Arr? ==> r == Ok(Str(key) in container.items)
    ensures r.Err? <==> !(container.Obj? || container.Arr? || container.Str?)
  {
    match container
    case Obj(m) => Ok(key in m)
    case Arr(items) => Ok(Str(key) in items)
    case Str(s) => Ok(Substring(key, s))
    case _ => Err(TypeError)
  }

  /** `container[key]` for a string key: only a dictionary can be
      subscripted by a string, and it raises KeyError for a missing key. */
  function Index(container: Value, key: string): (r: Wrappers.Result<Value, PyError>)
    ensures r.Ok? <==> container.Obj? && key in container.fields
    ensures r.Ok? ==> r.value == container.fields[key]
    ensures r == Err(KeyError) <==> container.Obj? && key !in container.fields
  {
    match container
    case Obj(m) => if key in m then Ok(m[key]) else Err(KeyError)
    case _ => Err(TypeError)
  }

  /** `container.get(key, default)`: only dictionaries have `.get`. */
  function Get(container: Value, key: string, default: Value): (r: Wrappers.Result<Value, PyError>)
    ensures r.Ok? <==> container.Obj?
    ensures container.Obj? ==> r.value == if key in container.fields then container.fields[key] else default
  {
    match container
    case Obj(m) => Ok(if key in m then m[key] else default)
    case _ => Err(AttributeError)
  }

  /** `v.split()[0]`: the first whitespace-separated token of a string;
      IndexError for a blank string, AttributeError for anything that is
      not a string. */
  function FirstWord(v: Value): (r: Wrappers.Result<string, PyError>)
    ensures r.Ok? ==> v.Str? && r.value != [] && NoSpace(r.value)
    ensures r == Err(IndexError) <==> v.Str? && AllSpace(v.s)
    ensures r == Err(AttributeError) <==> !v.Str?
  {
    match v
    case Str(s) =>
      (match FirstToken(s)
       case Some(w) => Ok(w)
       case None => Err(IndexError))
    case _ => Err(AttributeError)
  }

  const EmptyObj := Obj(map[])
}
