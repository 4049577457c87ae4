/** Cell values and rows as the hosted database's client returns them to the screens. */
module JsValue {
  import opened Base

  /** A cell value. A number carries the text `String(n)` gives for it; an object or array
      carries the two texts the screens ask `JSON.stringify` for, compact and indented by two
      spaces. */
  datatype Value =
    | Undefined
    | Null
    | Bool(b: bool)
    | Num(text: string)
    | Str(s: string)
    | Obj(json: string, prettyJson: string)

  /** `String(v)` for a value that is not an object. */
  function ToText(v: Value): string
    requires !v.Obj?
  {
    match v
    case Undefined => "undefined"
    case Null => "null"
    case Bool(b) => if b then "true" else "false"
    case Num(t) => t
    case Str(s) => s
  }

  /** JavaScript falsiness: undefined, null, false, 0 (whose text is "0", also for -0), NaN and
      the empty string. */
  predicate Falsy(v: Value)
  {
    match v
    case Undefined => true
    case Null => true
    case Bool(b) => !b
    case Num(t) => t == "0" || t == "NaN"
    case Str(s) => s == ""
    case Obj(_, _) => false
  }

  /** A row: its columns in the order `Object.keys` lists them. */
  type Row = seq<(string, Value)>

  /** `Object.keys(row)`. */
  function Keys(row: Row): (ks: seq<string>)
    ensures |ks| == |row| && forall i :: 0 <= i < |row| ==> ks[i] == row[i].0
  {
    seq(|row|, i requires 0 <= i < |row| => row[i].0)
  }

  /** `row[key]`: `undefined` for a column the row does not have. */
  function Lookup(row: Row, key: string): Value
  {
    if |row| == 0 then Undefined
    else if row[0].0 == key then row[0].1
    else Lookup(row[1..], key)
  }
}
