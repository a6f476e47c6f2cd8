/** Loosely-typed JSON records as Python holds them after `json.load`. */
module Json {
  import opened Wrappers
  import opened Dicts

  datatype Value =
    | Null
    | Bool(b: bool)
    | Int(i: int)
    | Num(r: real)
    | Str(s: string)
    | List(items: seq<Value>)
    | Object(fields: Dict<string, Value>)

  /** A JSON object: field names in insertion order. */
  type Record = Dict<string, Value>

  /** Python truthiness: None, False, 0, 0.0, "", [] and {} are false. */
  predicate Truthy(v: Value) {
    match v
    case Null => false
    case Bool(b) => b
    case Int(i) => i != 0
    case Num(r) => r != 0.0
    case Str(s) => s != ""
    case List(xs) => xs != []
    case Object(f) => f.keys != []
  }

  /** Lists and dicts cannot be put in a Python set or used as a dict key. */
  predicate Hashable(v: Value) {
    !v.List? && !v.Object?
  }

  /** Python's `==` between two hashable values: numbers compare by value
      across `bool`, `int` and `float` (`True == 1 == 1.0`); anything else
      is equal only to the same value. */
  predicate PyEqual(a: Value, b: Value) {
    if AsReal(a).Some? && AsReal(b).Some? then AsReal(a) == AsReal(b) else a == b
  }

  /** The key a dict or set files a hashable value under: one per class of
      `==`-equal values, an integral float or a boolean sharing the key of
      its `int`. */
  function KeyOf(v: Value): (k: Value)
    ensures Hashable(k) <==> Hashable(v)
    ensures AsReal(k) == AsReal(v)
  {
    match v
    case Bool(b) => Int(if b then 1 else 0)
    case Num(x) => if x == x.Floor as real then Int(x.Floor) else v
    case _ => v
  }

  /** Two hashable values share a key exactly when Python finds them equal. */
  lemma KeyOfEqual(a: Value, b: Value)
    requires Hashable(a) && Hashable(b)
    ensures KeyOf(a) == KeyOf(b) <==> PyEqual(a, b)
  {
  }

  /** A list of numbers, as `ndarray.tolist()` stores a vector. */
  function Reals(xs: seq<real>): (v: Value)
    ensures v.List? && |v.items| == |xs|
    ensures forall i :: 0 <= i < |xs| ==> v.items[i] == Num(xs[i])
  {
    List(seq(|xs|, i requires 0 <= i < |xs| => Num(xs[i])))
  }

  /** Python's `==` between a dict and any value: dicts compare as mappings,
      whatever the order of their keys. */
  predicate SameMapping(d: Record, v: Value) {
    v.Object? && v.fields.entries == d.entries
  }

  /** The number a value converts to for a float array: ints, floats and
      booleans; anything else is rejected. */
  function AsReal(v: Value): (r: Option<real>)
    ensures r.Some? <==> v.Int? || v.Num? || v.Bool?
  {
    match v
    case Int(i) => Some(i as real)
    case Num(x) => Some(x)
    case Bool(b) => Some(if b then 1.0 else 0.0)
    case _ => None
  }
}
