/**
 * The JavaScript values the schema engine passes around: JSON documents,
 * thrown errors, and the `Result` of an operation that may throw.
 */
module JsValues {

  datatype Option<T> = None | Some(value: T)

  /** A JSON document (numbers are kept as integers; nothing here computes with them). */
  datatype Json =
    | JNull
    | JBool(b: bool)
    | JNum(n: int)
    | JStr(s: string)
    | JArr(items: seq<Json>)
    | JObj(fields: map<string, Json>)

  /** `value.<key>` on a JSON value: only objects have own properties here. */
  function Prop(value: Json, key: string): (r: Option<Json>)
    ensures r.Some? <==> value.JObj? && key in value.fields
  {
    if value.JObj? && key in value.fields then Some(value.fields[key]) else None
  }

  /** `exists(x)` of the 101 library: neither `undefined` nor `null`. */
  predicate Exists(x: Option<Json>) {
    x.Some? && x.value != JNull
  }

  /** JavaScript truthiness of a JSON value: `null`, `false`, `0` and `''` are falsy. */
  predicate TruthyJson(v: Json) {
    match v
    case JNull => false
    case JBool(b) => b
    case JNum(n) => n != 0
    case JStr(s) => s != ""
    case _ => true
  }

  /** JavaScript truthiness of an optional string (`undefined` and `''` are falsy). */
  predicate Truthy(s: Option<string>) {
    s.Some? && s.value != ""
  }

  /** `parentPath ? parentPath + '.' + name : name`, how paths grow down a topology. */
  function JoinPath(parentPath: Option<string>, name: string): string {
    if Truthy(parentPath) then parentPath.value + "." + name else name
  }

  /** An error's `message` property: a string, or `undefined`. */
  datatype Message = Text(text: string) | Undefined

  /** The string a message becomes in a `+` concatenation. */
  function Show(m: Message): (r: string)
    ensures m.Text? ==> r == m.text
    ensures m.Undefined? ==> r == "undefined"
  {
    match m
    case Text(t) => t
    case Undefined => "undefined"
  }

  datatype ErrorKind =
    | TypeError              // a JavaScript `TypeError`
    | AssertionError         // thrown by `assert.deepStrictEqual`
    | SchemaValidationError  // lib/schema-validation-error.js
    | PlainError             // `new Error(..)`

  datatype Error = Error(kind: ErrorKind, message: Message)

  /** A value, or the error the JavaScript code throws instead. */
  datatype Result<T> = Ok(value: T) | Err(error: Error)

  function Fail<T>(kind: ErrorKind, text: string): Result<T> {
    Err(Error(kind, Text(text)))
  }

  /** `String(n)` for a natural number: its decimal digits. */
  function NatToString(n: nat): (r: string)
    ensures |r| >= 1
    ensures forall i :: 0 <= i < |r| ==> '0' <= r[i] <= '9'
    decreases n
  {
    if n < 10 then [Digit(n)] else NatToString(n / 10) + [Digit(n % 10)]
  }

  function Digit(d: nat): (c: char)
    requires d < 10
    ensures '0' <= c <= '9'
  {
    ['0', '1', '2', '3', '4', '5', '6', '7', '8', '9'][d]
  }

  /** The digits read back as a number. */
  function DigitsValue(s: string): int
    decreases |s|
  {
    if s == [] then 0 else DigitsValue(s[..|s| - 1]) * 10 + (s[|s| - 1] as int - '0' as int)
  }

  /** Distinct indices get distinct `[i]` paths: the decimal rendering reads back to the number. */
  lemma {:induction false} NatToStringValue(n: nat)
    ensures DigitsValue(NatToString(n)) == n
    decreases n
  {
    if n >= 10 {
      var s := NatToString(n);
      NatToStringValue(n / 10);
      assert s[..|s| - 1] == NatToString(n / 10);
      assert s[|s| - 1] == Digit(n % 10);
      DigitValue(n % 10);
    } else {
      DigitValue(n);
      assert NatToString(n)[..0] == [];
    }
  }

  lemma DigitValue(d: nat)
    requires d < 10
    ensures Digit(d) as int - '0' as int == d
  {
  }
}
