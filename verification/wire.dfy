/**
 * The values a vector-store search response decodes to with
 * `msgpack.unpackb(content, raw=False)`, and the two Python operations the
 * client applies to them: truthiness (`if filter_str`) and `dict` lookup
 * (`data['results']`).
 */
module Wire {
  import opened Wrappers

  /** A decoded msgpack value: nil, bool, int, float, str, array (a Python list) or map (a Python dict, as its entries in wire order). */
  datatype Value =
    | Nil
    | Bool(b: bool)
    | Int(i: int)
    | Float(f: real)
    | Str(s: string)
    | List(items: seq<Value>)
    | Dict(entries: seq<(Value, Value)>)

  /** Python's truth value of a decoded value. */
  predicate Truthy(v: Value) {
    match v
    case Nil => false
    case Bool(b) => b
    case Int(i) => i != 0
    case Float(f) => f != 0.0
    case Str(s) => |s| > 0
    case List(items) => |items| > 0
    case Dict(entries) => |entries| > 0
  }

  /** The index of the last entry whose key is `key`, or -1 when there is none. */
  function LastKeyIndex(entries: seq<(Value, Value)>, key: Value): (r: int)
    ensures -1 <= r < |entries|
    ensures r >= 0 ==> entries[r].0 == key
    ensures forall j :: r < j < |entries| ==> entries[j].0 != key
    decreases |entries|
  {
    if |entries| == 0 then -1
    else if entries[|entries| - 1].0 == key then |entries| - 1
    else LastKeyIndex(entries[..|entries| - 1], key)
  }

  /**
   * `d[key]` for the dict built from `entries`: absent exactly when no entry
   * has that key; when a key repeats, the entry read last wins, as when
   * Python builds the dict.
   */
  function Lookup(entries: seq<(Value, Value)>, key: Value): (r: Option<Value>)
    ensures r.None? <==> forall i :: 0 <= i < |entries| ==> entries[i].0 != key
    ensures r.Some? ==>
      exists i :: 0 <= i < |entries| && entries[i] == (key, r.value) &&
        forall j :: i < j < |entries| ==> entries[j].0 != key
  {
    var i := LastKeyIndex(entries, key);
    if i < 0 then None else Some(entries[i].1)
  }
}
