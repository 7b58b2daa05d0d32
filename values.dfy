/**
 * Scalars as the app's JSON records carry them, and the conversions the
 * JavaScript screens and the Python backend apply to them.
 */
module Values {
  import opened Wrappers

  /** A JSON scalar seen from JavaScript: a missing key reads as `Undefined`. Numbers are integers here. */
  datatype Value = Undefined | Null | Str(s: string) | Num(n: int)

  /** A field the backend only ever stores as a string or as null. */
  type MaybeStr = Option<string>

  /** JavaScript truthiness of a scalar: `""`, `0`, `null` and `undefined` are falsy. */
  predicate Truthy(v: Value)
  {
    match v
    case Str(s) => s != ""
    case Num(n) => n != 0
    case _ => false
  }

  predicate TruthyStr(m: MaybeStr)
  {
    m.Some? && m.value != ""
  }

  /** JavaScript `a || b` on scalars. */
  function Or(a: Value, b: Value): Value
  {
    if Truthy(a) then a else b
  }

  /** JavaScript `a || b` where `b` is a string literal. */
  function OrStr(a: MaybeStr, b: string): string
  {
    if TruthyStr(a) then a.value else b
  }

  function OfMaybe(m: MaybeStr): Value
  {
    match m
    case Some(s) => Str(s)
    case None => Null
  }

  function DigitChar(d: nat): char
    requires d < 10
  {
    "0123456789"[d]
  }

  function NatToString(n: nat): string
    decreases n
  {
    if n < 10 then [DigitChar(n)] else NatToString(n / 10) + [DigitChar(n % 10)]
  }

  /** Decimal text of an integer, as both `String(n)` and Python's `str(n)` give it. */
  function IntToString(n: int): string
  {
    if n < 0 then "-" + NatToString(-n) else NatToString(n)
  }

  /** The text a template literal `${v}` or `String(v)` produces. */
  function JsString(v: Value): string
  {
    match v
    case Undefined => "undefined"
    case Null => "null"
    case Str(s) => s
    case Num(n) => IntToString(n)
  }

  /** The text Python's `str(v)` produces (`None` for null). */
  function PyString(v: Value): string
  {
    match v
    case Str(s) => s
    case Num(n) => IntToString(n)
    case _ => "None"
  }

  /** Decimal text is never empty, so a number always renders to something. */
  lemma {:induction false} NatToStringNonEmpty(n: nat)
    ensures |NatToString(n)| >= 1
    ensures forall i :: 0 <= i < |NatToString(n)| ==> '0' <= NatToString(n)[i] <= '9'
    decreases n
  {
    if n >= 10 {
      NatToStringNonEmpty(n / 10);
    }
  }
}
