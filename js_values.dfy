/**
 * The JavaScript values that reach the handlers after `JSON.parse` (a cell's
 * `v`, an Airtable field), their truthiness, their `String(...)` rendering,
 * and `normalize`, the trimmed string every field of a record is made from.
 */
module JsValues {
  import opened Wrappers
  import opened Text

  /** A parsed JSON value, plus `undefined` for a missing property.
      Numbers are integers: see the README on non-integer cells. */
  datatype Value =
    | Undefined
    | Null
    | Bool(b: bool)
    | Num(n: int)
    | Str(s: string)
    | Arr(items: seq<Value>)
    | Obj(fields: map<string, Value>)

  /** JavaScript truthiness: `undefined`, `null`, `false`, `0` and `""` are falsy. */
  predicate Truthy(v: Value) {
    match v
    case Undefined => false
    case Null => false
    case Bool(b) => b
    case Num(n) => n != 0
    case Str(s) => s != []
    case Arr(_) => true
    case Obj(_) => true
  }

  /** `String(v)`. An array is the comma-joined rendering of its elements,
      with `null` and `undefined` elements rendered as empty strings. */
  function ToJsString(v: Value): string
    decreases v, 1
  {
    match v
    case Undefined => "undefined"
    case Null => "null"
    case Bool(b) => if b then "true" else "false"
    case Num(n) => IntToDecimal(n)
    case Str(s) => s
    case Arr(items) => Join(items)
    case Obj(_) => "[object Object]"
  }

  /** `Array.prototype.join(",")`. */
  function Join(items: seq<Value>): string
    decreases items, 0
  {
    if items == [] then ""
    else
      var first := if items[0].Undefined? || items[0].Null? then "" else ToJsString(items[0]);
      if |items| == 1 then first else first + "," + Join(items[1..])
  }

  /** `String(v || "").trim()`: `normalize` in the Sheets handler, and the
      expression the Airtable handler applies to each text field. */
  function Normalize(v: Value): (r: string)
    ensures !Truthy(v) ==> r == ""
    ensures IsTrimmed(r)
    ensures |r| <= |ToJsString(v)|
    ensures v.Str? ==> r == Trim(v.s)
    ensures v.Num? && v.n != 0 ==> r == IntToDecimal(v.n)
  {
    Trim(if Truthy(v) then ToJsString(v) else "")
  }

  /** JavaScript's falsy values (`undefined`, `null`, `false`, `0`, `""`) all
      normalise to the empty string, and every other primitive to something
      non-empty unless it is blank text. */
  lemma NormalizeEmpty(v: Value)
    ensures Normalize(v) == "" <==>
              (!Truthy(v) || (v.Str? && Trim(v.s) == []) || (v.Arr? && Trim(Join(v.items)) == []))
  {
    if v.Num? && v.n != 0 {
      assert |IntToDecimal(v.n)| > 0;
    }
  }

  /** An environment variable passes a `!x` check when it is defined and not empty. */
  predicate IsSet(v: Option<string>) {
    v.Some? && v.value != ""
  }
}
