/** The Python values that cross the boundary of the modelled code.

    A Python `float` is a `Num`: `Some(r)` for a finite value `r`, `None` for NaN.
    Infinities and binary64 rounding are not modelled; arithmetic is exact.
 */
module PyValues {
  import opened Outcomes

  /** A float that may be NaN (`None`). */
  type Num = Option<real>

  /** A dynamically typed Python value.  A callable is called with one float and
      either returns a number or raises (`None`). */
  datatype Value =
    | NoneValue
    | Bool(b: bool)
    | Int(i: int)
    | Float(f: Num)
    | Str(s: string)
    | Tuple(items: seq<Value>)
    | List(items: seq<Value>)
    | Dict(entries: seq<(Value, Value)>)
    | Callable(call: real -> Option<Num>)
    /** any other object: not a number, not a sequence, not callable */
    | Object

  /** `isinstance(v, (int, float))`; `bool` is a subclass of `int`. */
  predicate IsNumber(v: Value) {
    v.Bool? || v.Int? || v.Float?
  }

  /** `isinstance(v, (tuple, list))` */
  predicate IsSequence(v: Value) {
    v.Tuple? || v.List?
  }

  /** The float a number converts to. */
  function AsNum(v: Value): Num
    requires IsNumber(v)
  {
    match v
    case Bool(b) => Some(if b then 1.0 else 0.0)
    case Int(i) => Some(i as real)
    case Float(f) => f
  }

  /** Python's `0 < v` for a number: false for NaN. */
  predicate IsPositive(v: Value)
    requires IsNumber(v)
  {
    AsNum(v).Some? && AsNum(v).value > 0.0
  }

  /** Every element of `items` is a number. */
  predicate AllNumbers(items: seq<Value>) {
    forall i :: 0 <= i < |items| ==> IsNumber(items[i])
  }

  /** Every key of a dict is a `str`. */
  predicate AllStrKeys(entries: seq<(Value, Value)>) {
    forall i :: 0 <= i < |entries| ==> entries[i].0.Str?
  }

  /** `kwargs.pop(key, None)` on a keyword-argument dict, without the removal. */
  function Lookup(kwargs: map<string, Value>, key: string): Value {
    if key in kwargs then kwargs[key] else NoneValue
  }
}
