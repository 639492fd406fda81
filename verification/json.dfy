/** Parsed JSON values as the generator sees them after `json.load`.

    Objects keep their members in document order (Python dictionaries are
    insertion-ordered), which is what every emitter iterates over. A parser
    produces objects whose keys are distinct; `Distinct` states that. */
module Json {
  import opened Outcome

  datatype Value =
    | Null
    | Bool(b: bool)
    | Num(n: int)
    | Str(s: string)
    | Arr(items: seq<Value>)
    | Obj(fields: seq<(string, Value)>)

  /** The keys of an object's members, in document order. */
  function Keys(fields: seq<(string, Value)>): (r: seq<string>)
    ensures |r| == |fields|
    ensures forall i :: 0 <= i < |fields| ==> r[i] == fields[i].0
  {
    if |fields| == 0 then [] else [fields[0].0] + Keys(fields[1..])
  }

  /** The key set of an object, as `dict.keys()` compares it. */
  function KeySet(fields: seq<(string, Value)>): (r: set<string>)
    ensures forall k :: k in r <==> exists i :: 0 <= i < |fields| && fields[i].0 == k
  {
    set i | 0 <= i < |fields| :: fields[i].0
  }

  /** Keys are pairwise distinct, as in every object `json.load` returns. */
  predicate Distinct(fields: seq<(string, Value)>)
  {
    forall i, j :: 0 <= i < j < |fields| ==> fields[i].0 != fields[j].0
  }

  /** `dict.get`: the value stored under `key`, if any. */
  function Get(fields: seq<(string, Value)>, key: string): (r: Option<Value>)
    ensures r.Some? <==> key in KeySet(fields)
    ensures r.Some? ==> exists i :: 0 <= i < |fields| && fields[i] == (key, r.value)
  {
    if |fields| == 0 then None
    else if fields[0].0 == key then Some(fields[0].1)
    else Get(fields[1..], key)
  }

  /** `dict.get` finds the first member stored under `key`. */
  lemma {:induction false} GetFirst(fields: seq<(string, Value)>, key: string, k: nat)
    requires k < |fields| && fields[k].0 == key
    requires forall j :: 0 <= j < k ==> fields[j].0 != key
    ensures Get(fields, key) == Some(fields[k].1)
    decreases k
  {
    if k > 0 {
      GetFirst(fields[1..], key, k - 1);
    }
  }

  /** Subscription `v[key]`: a KeyError for a missing key, a TypeError
      when `v` is not an object. */
  function Lookup(v: Value, key: string): (r: Result<Value>)
    ensures r.Ok? <==> v.Obj? && key in KeySet(v.fields)
    ensures r.Err? && v.Obj? ==> r.error == KeyError(key)
  {
    match v
    case Obj(fields) =>
      (match Get(fields, key)
       case Some(x) => Ok(x)
       case None => Err(KeyError(key)))
    case _ => Err(TypeError("object is not subscriptable by a string key"))
  }

  /** Subscription whose result must be a string (it is concatenated into
      source text); any other value makes the concatenation fail. */
  function LookupStr(v: Value, key: string): (r: Result<string>)
    ensures r.Ok? <==> Lookup(v, key).Ok? && Lookup(v, key).value.Str?
    ensures r.Ok? ==> Lookup(v, key).value == Str(r.value)
  {
    var x :- Lookup(v, key);
    if x.Str? then Ok(x.s) else Err(TypeError("can only concatenate str to str"))
  }

  /** Python's `len`: defined on strings, lists and objects only. */
  function Len(v: Value): (r: Option<nat>)
    ensures r.None? <==> (v.Null? || v.Bool? || v.Num?)
  {
    match v
    case Str(s) => Some(|s|)
    case Arr(items) => Some(|items|)
    case Obj(fields) => Some(|fields|)
    case _ => None
  }

  /** `l[key]` on a list of length `n` raises `IndexError` for an integer
      key outside `[-n, n)`; `True` and `False` are the integers 1 and 0. */
  predicate IndexOutOfRange(key: Value, n: nat)
  {
    match key
    case Num(i) => !(-(n as int) <= i < n)
    case Bool(b) => (if b then 1 else 0) >= n
    case _ => false
  }

  /** `for k in v: ... v[k] ...`: the key-value pairs of an object. An
      empty string or list gives no iterations. A non-empty string yields
      characters, which are not valid subscripts. A non-empty list is
      subscripted by its first item: a string or other non-integer is a
      `TypeError`, an integer out of range an `IndexError`, and an integer
      in range yields an integer key, which every caller concatenates into
      text, again a `TypeError`. Anything else is not iterable. */
  function Entries(v: Value): (r: Result<seq<(string, Value)>>)
    ensures r.Ok? <==> v.Obj? || v == Str("") || v == Arr([])
    ensures r.Ok? && v.Obj? ==> r.value == v.fields
    ensures r.Ok? && !v.Obj? ==> r.value == []
    ensures r.Err? ==> r.error.TypeError? || r.error.IndexError?
    ensures r.Err? && r.error.IndexError? <==> v.Arr? && |v.items| > 0 && IndexOutOfRange(v.items[0], |v.items|)
  {
    match v
    case Obj(fields) => Ok(fields)
    case Str(s) => if |s| == 0 then Ok([]) else Err(TypeError("string indices must be integers"))
    case Arr(items) =>
      if |items| == 0 then Ok([])
      else if IndexOutOfRange(items[0], |items|) then Err(IndexError("list index out of range"))
      else if items[0].Num? || items[0].Bool? then Err(TypeError("can only concatenate str to str"))
      else Err(TypeError("list indices must be integers or slices"))
    case _ => Err(TypeError("object is not iterable"))
  }

  /** `for x in v`: an object yields its keys, a list its items and a
      string its characters; other values are not iterable. */
  function Iterate(v: Value): (r: Result<seq<Value>>)
    ensures r.Ok? <==> v.Obj? || v.Arr? || v.Str?
    ensures r.Ok? && v.Obj? ==> |r.value| == |v.fields| && forall i :: 0 <= i < |v.fields| ==> r.value[i] == Str(v.fields[i].0)
    ensures r.Ok? && v.Arr? ==> r.value == v.items
    ensures r.Ok? && v.Str? ==> |r.value| == |v.s| && forall i :: 0 <= i < |v.s| ==> r.value[i] == Str([v.s[i]])
  {
    match v
    case Obj(fields) => Ok(seq(|fields|, i requires 0 <= i < |fields| => Str(fields[i].0)))
    case Arr(items) => Ok(items)
    case Str(s) => Ok(seq(|s|, i requires 0 <= i < |s| => Str([s[i]])))
    case _ => Err(TypeError("object is not iterable"))
  }

  /** The members of an object whose values must all be strings (they are
      concatenated into source text), as name and string pairs. */
  function StringEntries(es: seq<(string, Value)>): (r: Result<seq<(string, string)>>)
    ensures r.Ok? <==> forall k :: 0 <= k < |es| ==> es[k].1.Str?
    ensures r.Ok? ==> |r.value| == |es| && forall k :: 0 <= k < |es| ==> es[k] == (r.value[k].0, Str(r.value[k].1))
  {
    if |es| == 0 then Ok([])
    else if !es[0].1.Str? then Err(TypeError("can only concatenate str to str"))
    else
      var rest :- StringEntries(es[1..]);
      Ok([(es[0].0, es[0].1.s)] + rest)
  }

  /** `list(record.keys())[0]`: the name of the model a record holds. */
  function RecordName(record: Value): (r: Result<string>)
    ensures r.Ok? <==> record.Obj? && |record.fields| > 0
    ensures r.Ok? ==> r.value == record.fields[0].0 && r.value in KeySet(record.fields)
  {
    match record
    case Obj(fields) => if |fields| == 0 then Err(IndexError("list index out of range")) else Ok(fields[0].0)
    case _ => Err(AttributeError("object has no attribute 'keys'"))
  }

  /** Python truthiness of a value. */
  predicate Truthy(v: Value)
  {
    match v
    case Null => false
    case Bool(b) => b
    case Num(n) => n != 0
    case Str(s) => |s| > 0
    case Arr(items) => |items| > 0
    case Obj(fields) => |fields| > 0
  }
}
