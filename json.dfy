/** JSON-like values as the extension's settings objects hold them, and the JavaScript
    operations on them that the code relies on (truthiness, property access, `includes`). */
module Json {
  import opened Wrappers
  import opened Text

  /** A value that `chrome.storage` or a runtime message can carry. Numbers are integers here. */
  datatype Js =
    | Undefined
    | Null
    | Bool(b: bool)
    | Num(n: int)
    | Str(s: string)
    | Arr(items: seq<Js>)
    | Obj(fields: map<string, Js>)

  /** JavaScript truthiness: `undefined`, `null`, `false`, `0` and `''` are falsy. */
  predicate Truthy(v: Js) {
    match v
    case Undefined => false
    case Null => false
    case Bool(b) => b
    case Num(n) => n != 0
    case Str(s) => s != ""
    case Arr(_) => true
    case Obj(_) => true
  }

  /** Property read `o[k]` on a plain object: `undefined` when the key is absent. */
  function Field(o: map<string, Js>, k: string): Js {
    if k in o then o[k] else Undefined
  }

  /** `Array.isArray(v) && v.includes(x)`, the guarded membership test of the content scripts. */
  predicate ArrayIncludes(v: Js, x: string) {
    v.Arr? && Str(x) in v.items
  }

  /** The unguarded `v.includes(x)`: `None` where JavaScript throws a `TypeError`
      (`null`/`undefined` receivers, and values that have no `includes` method). */
  function Includes(v: Js, x: string): (r: Option<bool>)
    ensures v.Arr? ==> r == Some(Str(x) in v.items)
    ensures v.Str? ==> r == Some(Contains(v.s, x))
    ensures r.Some? <==> v.Arr? || v.Str?
  {
    match v
    case Arr(items) => Some(Str(x) in items)
    case Str(s) => Some(Contains(s, x))
    case _ => None
  }

  /** `l > 0` for the value `l` of an object's `length` property: a number compares as itself,
      `true` as 1, and `false`, `null`, `undefined` and a plain object as a number that is not
      positive. */
  predicate PositiveLength(l: Js) {
    (l.Num? && l.n > 0) || l == Bool(true)
  }

  /** The unguarded `v.length > 0`: `None` where reading `length` throws (`null`/`undefined`);
      values without a `length` give `undefined > 0`, which is false. */
  function LengthPositive(v: Js): (r: Option<bool>)
    ensures v.Arr? ==> r == Some(|v.items| > 0)
    ensures v.Str? ==> r == Some(v.s != "")
    ensures v.Obj? ==> r == Some(PositiveLength(Field(v.fields, "length")))
    ensures v.Bool? || v.Num? ==> r == Some(false)
    ensures r.None? <==> v.Undefined? || v.Null?
  {
    match v
    case Undefined => None
    case Null => None
    case Arr(items) => Some(|items| > 0)
    case Str(s) => Some(|s| > 0)
    case Obj(m) => Some(PositiveLength(Field(m, "length")))
    case _ => Some(false)
  }
}
