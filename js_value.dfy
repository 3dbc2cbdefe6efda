/**
 * The slice of JavaScript's value model that the form validator inspects:
 * `typeof`, truthiness, the `||` operator and reading an own property.
 */
module JsValue {

  datatype Option<T> = None | Some(value: T)

  /**
   * A JavaScript value. Numbers are integers (NaN and fractions are not
   * modelled); a function is known only by an identity that the host maps to
   * its behaviour.
   */
  datatype Value =
    | Undefined
    | Null
    | Bool(b: bool)
    | Num(n: int)
    | Str(s: string)
    | Obj(props: map<string, Value>)
    | Arr(elems: seq<Value>)
    | Fn(id: nat)

  /** The `typeof` operator: `null` and arrays are both "object". */
  function TypeOf(v: Value): string {
    match v
    case Undefined => "undefined"
    case Null => "object"
    case Bool(_) => "boolean"
    case Num(_) => "number"
    case Str(_) => "string"
    case Obj(_) => "object"
    case Arr(_) => "object"
    case Fn(_) => "function"
  }

  /** ToBoolean: `undefined`, `null`, `false`, `0` and `""` are falsy. */
  predicate Truthy(v: Value) {
    match v
    case Undefined => false
    case Null => false
    case Bool(b) => b
    case Num(n) => n != 0
    case Str(s) => s != ""
    case _ => true
  }

  /** `a || b`: the left operand when it is truthy, else the right one. */
  function Or(a: Value, b: Value): (r: Value)
    ensures Truthy(a) ==> r == a
    ensures !Truthy(a) ==> r == b
  {
    if Truthy(a) then a else b
  }

  predicate IsDigit(c: char) {
    '0' <= c <= '9'
  }

  function DigitsValue(k: string): nat
    requires forall i :: 0 <= i < |k| ==> IsDigit(k[i])
  {
    if k == [] then 0
    else
      assert IsDigit(k[|k| - 1]);
      DigitsValue(k[..|k| - 1]) * 10 + (k[|k| - 1] as int - '0' as int)
  }

  /** The array index a property key denotes: canonical decimal, no leading zero. */
  function ParseIndex(k: string): Option<nat> {
    if k != [] && (forall i :: 0 <= i < |k| ==> IsDigit(k[i])) && (k[0] != '0' || k == "0")
    then Some(DigitsValue(k))
    else None
  }

  /**
   * `v[key]` for an own data property: an object's key, an array's index.
   * Every other read gives `undefined`; optional chaining (`?.`) on
   * `null`/`undefined` reads the same way.
   */
  function Get(v: Value, key: string): Value {
    match v
    case Obj(m) => if key in m then m[key] else Undefined
    case Arr(s) =>
      (match ParseIndex(key)
       case Some(i) => if i < |s| then s[i] else Undefined
       case None => Undefined)
    case _ => Undefined
  }
}
