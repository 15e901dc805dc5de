/**
 * The Python values the settings and validator helpers inspect: None, booleans, numbers,
 * strings, tuples and lists. `bool` is a subclass of `int` in Python, which `IsIntInstance`
 * reflects.
 */
module PyValues {
  import opened Wrappers

  datatype Value =
    | PyNone
    | PyBool(b: bool)
    | PyInt(i: int)
    | PyReal(r: real)
    | PyStr(s: string)
    | PyTuple(items: seq<Value>)
    | PyList(items: seq<Value>)

  /** `isinstance(v, int)`: true for ints and for booleans. */
  predicate IsIntInstance(v: Value) {
    v.PyInt? || v.PyBool?
  }

  /** The integer value of an int instance (True is 1, False is 0). */
  function IntValue(v: Value): int
    requires IsIntInstance(v)
  {
    if v.PyInt? then v.i else if v.b then 1 else 0
  }

  /** `iter(v)` as a sequence of elements: a string yields its one-character strings; None where Python raises TypeError. */
  function Elements(v: Value): (r: Option<seq<Value>>)
    ensures r.Some? <==> v.PyStr? || v.PyTuple? || v.PyList?
    ensures r.Some? && v.PyStr? ==> |r.value| == |v.s| && forall i :: 0 <= i < |v.s| ==> r.value[i] == PyStr([v.s[i]])
    ensures r.Some? && !v.PyStr? ==> r.value == v.items
  {
    match v
    case PyStr(s) => Some(seq(|s|, i requires 0 <= i < |s| => PyStr([s[i]])))
    case PyTuple(items) => Some(items)
    case PyList(items) => Some(items)
    case _ => None
  }

  /** `len(v)`; None where Python raises TypeError. */
  function Len(v: Value): (r: Option<nat>)
    ensures r.Some? <==> Elements(v).Some?
    ensures r.Some? ==> r.value == |Elements(v).value|
  {
    match v
    case PyStr(s) => Some(|s|)
    case PyTuple(items) => Some(|items|)
    case PyList(items) => Some(|items|)
    case _ => None
  }

  /** What `v[index]` does for a non-negative index. */
  datatype Indexed = Item(value: Value) | IndexError | TypeError

  /** `v[index]` for a non-negative index. */
  function Index(v: Value, index: nat): (r: Indexed)
    ensures r.TypeError? <==> Elements(v).None?
    ensures r.IndexError? <==> Elements(v).Some? && index >= |Elements(v).value|
    ensures r.Item? ==> r.value == Elements(v).value[index]
  {
    match Elements(v)
    case None => TypeError
    case Some(es) => if index < |es| then Item(es[index]) else IndexError
  }
}
