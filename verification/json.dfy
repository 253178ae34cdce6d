/** Parsed JSON request bodies and query values as the service sees them,
    with JavaScript's truthiness, `||`, `??`, optional chaining and `String(v)`.
    Every `x || y` and `x ? a : b` in the service decides on `Truthy`. */
module Js {
  import opened Wrappers
  import Strings

  /** A JavaScript value that can come out of `JSON.parse` or Express's query
      parser, plus `Undefined` for a missing property. Numbers are integers. */
  datatype Json =
    | Undefined
    | Null
    | Bool(b: bool)
    | Num(n: int)
    | Str(s: string)
    | Arr(items: seq<Json>)
    | Obj(fields: map<string, Json>)

  /** JavaScript truthiness: `undefined`, `null`, `false`, `0` and `""` are falsy. */
  predicate Truthy(v: Json) {
    match v
    case Undefined => false
    case Null => false
    case Bool(b) => b
    case Num(n) => n != 0
    case Str(s) => s != ""
    case Arr(_) => true
    case Obj(_) => true
  }

  /** `v?.key`: the property when `v` is an object that has it, else `undefined`. */
  function Get(v: Json, key: string): (r: Json)
    ensures !v.Obj? ==> r == Undefined
    ensures v.Obj? && key !in v.fields ==> r == Undefined
    ensures v.Obj? && key in v.fields ==> r == v.fields[key]
  {
    if v.Obj? && key in v.fields then v.fields[key] else Undefined
  }

  /** `a || b`. */
  function Or(a: Json, b: Json): (r: Json)
    ensures Truthy(r) <==> Truthy(a) || Truthy(b)
    ensures r == a || r == b
    ensures Truthy(a) ==> r == a
    ensures !Truthy(a) ==> r == b
  {
    if Truthy(a) then a else b
  }

  /** `a ?? b`: only `null` and `undefined` fall through. */
  function Nullish(a: Json, b: Json): (r: Json)
    ensures a.Undefined? || a.Null? ==> r == b
    ensures !(a.Undefined? || a.Null?) ==> r == a
  {
    match a
    case Undefined => b
    case Null => b
    case _ => a
  }

  /** `String(v)` (also what a template literal and `Array.prototype.join`
      apply to each value). */
  function ToStr(v: Json): (r: string)
    ensures v.Str? ==> r == v.s
    ensures v.Num? ==> Strings.ParseInt(r) == Some(v.n)
    decreases v, 1
  {
    match v
    case Undefined => "undefined"
    case Null => "null"
    case Bool(b) => if b then "true" else "false"
    case Num(n) => Strings.ParseIntOfIntToString(n); Strings.IntToString(n)
    case Str(s) => s
    case Arr(items) => ItemsToStr(items)
    case Obj(_) => "[object Object]"
  }

  /** `items.join(',')` as `String` applies it to an array: `null` and
      `undefined` elements become empty strings. */
  function ItemsToStr(items: seq<Json>): string
    decreases items, 0
  {
    if |items| == 0 then ""
    else
      var head := if items[0].Undefined? || items[0].Null? then "" else ToStr(items[0]);
      if |items| == 1 then head else head + "," + ItemsToStr(items[1..])
  }

  /** Non-empty strings and non-zero numbers keep their content through `String`,
      so a truthy one of them never stringifies to "". */
  lemma TruthyScalarToStrNonEmpty(v: Json)
    requires Truthy(v) && !v.Arr?
    ensures ToStr(v) != ""
  {
    if v.Num? {
      assert |Strings.IntToString(v.n)| >= 1;
    }
  }

  /** Arrays are the one truthy value `String` can turn into "". */
  lemma EmptyArrayStringifiesEmpty()
    ensures Truthy(Arr([])) && ToStr(Arr([])) == ""
  {
  }
}
