/** The JavaScript values that arrive in request bodies and query strings,
    and the few operators the handlers apply to them: truthiness, `||`,
    strict equality, property access and `toString`. Numbers are modelled as
    integers. */
module Js {
  import Strings

  datatype Option<T> = None | Some(value: T)

  datatype Value =
    | Undefined
    | Null
    | Bool(b: bool)
    | Num(n: int)
    | Str(s: string)
    | Arr(items: seq<Value>)
    | Obj(fields: map<string, Value>)

  /** The object form of a request body or a database row. */
  type Object = map<string, Value>

  /** `!!v`: undefined, null, false, 0 and the empty string are falsy. */
  predicate Truthy(v: Value) {
    match v
    case Undefined => false
    case Null => false
    case Bool(b) => b
    case Num(n) => n != 0
    case Str(s) => s != ""
    case Arr(_) => true
    case Obj(_) => true
  }

  /** `a || b` */
  function Or(a: Value, b: Value): (r: Value)
    ensures Truthy(a) ==> r == a
    ensures !Truthy(a) ==> r == b
  {
    if Truthy(a) then a else b
  }

  /** `obj[key]`: a missing property reads as undefined. */
  function Get(obj: Object, key: string): (r: Value)
    ensures key !in obj ==> r == Undefined
    ensures key in obj ==> r == obj[key]
  {
    if key in obj then obj[key] else Undefined
  }

  /** `a === b`: primitives compare by value; two arrays or objects decoded
      from a request are distinct references, so never strictly equal. */
  predicate StrictEquals(a: Value, b: Value) {
    match a
    case Arr(_) => false
    case Obj(_) => false
    case _ => a == b
  }

  /** `v.prop` for a property name that is not an index or `length`:
      None stands for the TypeError that undefined and null raise, and only
      objects carry named properties. */
  function Property(v: Value, key: string): (r: Option<Value>)
    ensures r.None? <==> v.Undefined? || v.Null?
    ensures v.Obj? ==> r == Some(Get(v.fields, key))
  {
    match v
    case Undefined => None
    case Null => None
    case Obj(fields) => Some(Get(fields, key))
    case _ => Some(Undefined)
  }

  /** Converting `v` to a string throws a TypeError: an object with its own
      "toString" key (a decoded value, so never callable, and the inherited
      `valueOf` gives back the object itself), or an array holding such an
      object at any depth, since `join` converts every element that is not
      undefined or null. Converting to a number throws for the same values. */
  predicate ToStrThrows(v: Value)
    decreases v
  {
    match v
    case Obj(fields) => "toString" in fields
    case Arr(items) => exists i | 0 <= i < |items| :: ToStrThrows(items[i])
    case _ => false
  }

  /** `v.toString()` (and `String(v)`) where `ToStrThrows(v)` does not hold.
      Arrays join their elements with commas, rendering undefined and null
      elements as empty strings. */
  function ToStr(v: Value): string
    decreases v
  {
    match v
    case Undefined => "undefined"
    case Null => "null"
    case Bool(b) => if b then "true" else "false"
    case Num(n) => if n < 0 then "-" + Strings.Decimal(-n) else Strings.Decimal(n)
    case Str(s) => s
    case Arr(items) =>
      Strings.Join(seq(|items|, i requires 0 <= i < |items| =>
                         if items[i].Undefined? || items[i].Null? then "" else ToStr(items[i])), ",")
    case Obj(_) => "[object Object]"
  }
  /** `Number(s)` for a string: blank is 0, a run of decimal digits is its
      value, and anything else is NaN (None). */
  function StrToNumber(s: string): (r: Option<int>)
    ensures Strings.Blank(s) ==> r == Some(0)
    ensures (forall i | 0 <= i < |s| :: Strings.IsDigit(s[i])) ==> r == Some(Strings.DigitsValue(s))
    ensures r.Some? ==> r.value >= 0
  {
    if forall i | 0 <= i < |s| :: Strings.IsDigit(s[i]) then Some(Strings.DigitsValue(s))
    else if Strings.Blank(s) then Some(0)
    else None
  }

  /** `Number(v)`, as a relational comparison applies it, where
      `ToStrThrows(v)` does not hold; None is NaN. An array converts through
      its `toString`; a plain object gives NaN. */
  function ToNumber(v: Value): (r: Option<int>)
    ensures v.Num? ==> r == Some(v.n)
    ensures v.Undefined? || v.Obj? ==> r.None?
    ensures v.Null? ==> r == Some(0)
    ensures v.Bool? ==> r == Some(if v.b then 1 else 0)
    ensures v.Str? ==> r == StrToNumber(v.s)
  {
    match v
    case Undefined => None
    case Null => Some(0)
    case Bool(b) => Some(if b then 1 else 0)
    case Num(n) => Some(n)
    case Str(s) => StrToNumber(s)
    case Arr(_) => StrToNumber(ToStr(v))
    case Obj(_) => None
  }

  /** `typeof v === 'string' && allowed.includes(v) ? v : fallback`: the
      value when it is one of the allowed strings, else the fallback. */
  function OneOf(v: Value, allowed: seq<string>, fallback: string): (r: string)
    ensures r in allowed || r == fallback
    ensures v.Str? && v.s in allowed ==> r == v.s
    ensures !(v.Str? && v.s in allowed) ==> r == fallback
  {
    match v
    case Str(s) => if s in allowed then s else fallback
    case _ => fallback
  }
}
