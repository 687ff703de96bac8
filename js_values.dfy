/**
 * The JavaScript values that the modelled code inspects.
 *
 * Numbers are integers (floating point, NaN and -0 are not modelled), so
 * `Object.is` and `===` on primitives coincide with Dafny equality. A plain
 * object is a map of its own enumerable properties; objects whose identity
 * matters (host instances, ref objects, functions) are references by id,
 * and a symbol is its entry in the global symbol registry.
 */
module JsValues {
  import opened Wrappers

  datatype Value =
    | Undefined
    | Null
    | Bool(b: bool)
    | Num(n: int)
    | Str(s: string)
    | Sym(reg: nat)
    | Func(fid: nat)
    | Arr(items: seq<Value>)
    | Rec(fields: map<string, Value>)
    | Obj(oid: nat)

  /** `typeof v === "object" && v !== null` (the shared `isObject`). */
  predicate IsObject(v: Value)
  {
    v.Arr? || v.Rec? || v.Obj?
  }

  /** JavaScript truthiness. */
  predicate Truthy(v: Value)
  {
    match v
    case Undefined => false
    case Null => false
    case Bool(b) => b
    case Num(n) => n != 0
    case Str(s) => s != ""
    case _ => true
  }

  /** `v == null`, i.e. null or undefined. */
  predicate Nullish(v: Value)
  {
    v.Undefined? || v.Null?
  }

  /** `a ?? b` */
  function Coalesce(a: Value, b: Value): (r: Value)
    ensures Nullish(a) ==> r == b
    ensures !Nullish(a) ==> r == a
  {
    if Nullish(a) then b else a
  }

  /** Property read `v[name]` on a plain object; every other value yields undefined. */
  function Get(v: Value, name: string): (r: Value)
    ensures v.Rec? && name in v.fields ==> r == v.fields[name]
    ensures !(v.Rec? && name in v.fields) ==> r == Undefined
  {
    if v.Rec? && name in v.fields then v.fields[name] else Undefined
  }

  /** Property read `v.name` without optional chaining: null and undefined throw a TypeError. */
  function Read(v: Value, name: string): (r: Result<Value>)
    ensures r.Throw? <==> Nullish(v)
    ensures r.Ok? ==> r.value == Get(v, name)
  {
    if Nullish(v) then Throw("Cannot read properties of " + (if v.Null? then "null" else "undefined"))
    else Ok(Get(v, name))
  }

  /** `Object.prototype.hasOwnProperty.call(v, name)` for plain objects. */
  predicate HasOwn(v: Value, name: string)
  {
    v.Rec? && name in v.fields
  }

  function DigitChar(d: nat): char
    requires d < 10
  {
    "0123456789"[d]
  }

  /** Decimal text of a natural number, without leading zeros. */
  function NatToString(n: nat): (r: string)
    ensures |r| >= 1
    ensures forall i :: 0 <= i < |r| ==> '0' <= r[i] <= '9'
    ensures n < 10 <==> |r| == 1
    decreases n
  {
    if n < 10 then [DigitChar(n)] else NatToString(n / 10) + [DigitChar(n % 10)]
  }

  /** Decimal text of an integer (`String(n)` for integral numbers). */
  function IntToString(n: int): (r: string)
    ensures |r| >= 1
    ensures n < 0 <==> r[0] == '-'
  {
    if n < 0 then "-" + NatToString(-n) else NatToString(n)
  }

  /**
   * `"" + v`: string coercion. Coercing a symbol throws a TypeError.
   * The source text of a function is not modelled.
   */
  function ToJsString(v: Value): (r: Result<string>)
    ensures v.Str? ==> r == Ok(v.s)
    ensures v.Num? ==> r == Ok(IntToString(v.n))
    ensures v.Sym? ==> r.Throw?
    ensures !v.Sym? && !v.Arr? ==> r.Ok?
  {
    match v
    case Undefined => Ok("undefined")
    case Null => Ok("null")
    case Bool(b) => Ok(if b then "true" else "false")
    case Num(n) => Ok(IntToString(n))
    case Str(s) => Ok(s)
    case Sym(_) => Throw("Cannot convert a Symbol value to a string")
    case Func(_) => Ok("function")
    case Arr(items) => JoinItems(items)
    case Rec(_) => Ok("[object Object]")
    case Obj(_) => Ok("[object Object]")
  }

  /** `Array.prototype.join(",")`: null and undefined items print as "". */
  function JoinItems(items: seq<Value>): Result<string>
    decreases items
  {
    if |items| == 0 then Ok("")
    else
      var head := if Nullish(items[0]) then Ok("") else ToJsString(items[0]);
      if head.Throw? then head
      else if |items| == 1 then head
      else
        var rest := JoinItems(items[1..]);
        if rest.Throw? then rest else Ok(head.value + "," + rest.value)
  }
}
