/**
 * The Python values the core passes around: what `json.loads` returns, plus
 * `datetime` objects, which the server stores inside the same dictionaries.
 */
module PyValue {
  import opened Wrappers
  import opened Strings

  /**
   * A `datetime`: its wall-clock reading as an integer instant, and its UTC
   * offset when it is time-zone aware (`None` for a naive datetime).
   */
  datatype DateTime = DateTime(wall: int, offset: Option<int>) {
    predicate Aware() {
      offset.Some?
    }

    /** The UTC instant of an aware datetime, the quantity Python compares. */
    function Instant(): int
      requires Aware()
    {
      wall - offset.value
    }

    /** `dt.replace(tzinfo=timezone.utc)` when `dt` is naive; `dt` itself otherwise. */
    function AsUtc(): (d: DateTime)
      ensures d.Aware()
      ensures Aware() ==> d == this
      ensures !Aware() ==> d.Instant() == wall
    {
      if Aware() then this else DateTime(wall, Some(0))
    }
  }

  /** A calendar date, as `strftime("%Y%m%d")` reads it. */
  datatype Date = Date(year: nat, month: nat, day: nat)

  datatype Value =
    | Null
    | Bool(b: bool)
    | Int(i: int)
    | Float(f: real)
    | Str(s: string)
    | List(items: seq<Value>)
    | Object(fields: map<string, Value>)
    | Time(dt: DateTime)

  /** Python truthiness (`if v:`). */
  predicate Truthy(v: Value) {
    match v
    case Null => false
    case Bool(b) => b
    case Int(i) => i != 0
    case Float(f) => f != 0.0
    case Str(s) => s != ""
    case List(items) => items != []
    case Object(fields) => fields != map[]
    case Time(_) => true
  }

  /** `type(v).__name__`. */
  function TypeName(v: Value): string {
    match v
    case Null => "NoneType"
    case Bool(_) => "bool"
    case Int(_) => "int"
    case Float(_) => "float"
    case Str(_) => "str"
    case List(_) => "list"
    case Object(_) => "dict"
    case Time(_) => "datetime"
  }

  /** `isinstance(v, int)`: `bool` is a subclass of `int`. */
  predicate IsInt(v: Value) {
    v.Bool? || v.Int?
  }

  /** `isinstance(v, (int, float))`. */
  predicate IsNumber(v: Value) {
    v.Bool? || v.Int? || v.Float?
  }

  /** `float(v)` for a number. */
  function ToFloat(v: Value): real
    requires IsNumber(v)
  {
    match v
    case Bool(b) => if b then 1.0 else 0.0
    case Int(i) => i as real
    case Float(f) => f
  }

  /** A value `json.dumps` can serialise: no `datetime` anywhere inside. */
  predicate IsJson(v: Value) {
    match v
    case Time(_) => false
    case List(items) => forall i :: 0 <= i < |items| ==> IsJson(items[i])
    case Object(fields) => forall k :: k in fields ==> IsJson(fields[k])
    case _ => true
  }

  /** `d.get(k)` on a dictionary: `None` when the key is absent. */
  function Get(d: map<string, Value>, k: string): Value {
    if k in d then d[k] else Null
  }

  /**
   * `key in v` for a string `key`: dictionary membership, list membership,
   * substring test; `None` where Python raises `TypeError` (numbers, booleans,
   * `None`, datetimes).
   */
  function Contains(key: string, v: Value): Option<bool> {
    match v
    case Object(fields) => Some(key in fields)
    case List(items) => Some(Str(key) in items)
    case Str(s) => Some(IsSubstring(key, s))
    case _ => None
  }

  /** What a Python call does: return a value, or raise. */
  datatype Outcome<+T> = Returned(value: T) | Raised
}
