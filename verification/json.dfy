/** Decoded JSON values, as the client and the transforms see them after
    `JSON.parse`, with the two JavaScript conversions the code applies to
    them: truthiness (`if (x)`, `x || ''`) and string conversion
    (template literals, `encodeURIComponent`, `RegExp.prototype.test`). */
module Json {
  import opened Base

  /** A decoded value. Numbers are integral here. */
  datatype Json =
    | Null
    | Bool(b: bool)
    | Num(n: int)
    | Str(s: string)
    | Arr(elems: seq<Json>)
    | Obj(fields: map<string, Json>)

  /** `v.key`: objects carry named fields; reading any other value, or a
      missing field, gives `undefined` (None). */
  function Get(v: Json, key: string): (r: Option<Json>)
    ensures r.Some? <==> v.Obj? && key in v.fields
  {
    if v.Obj? && key in v.fields then Some(v.fields[key]) else None
  }

  /** JavaScript truthiness; `undefined` is falsy. */
  predicate Truthy(v: Option<Json>) {
    match v
    case None => false
    case Some(Null) => false
    case Some(Bool(b)) => b
    case Some(Num(n)) => n != 0
    case Some(Str(s)) => s != ""
    case Some(Arr(_)) => true
    case Some(Obj(_)) => true
  }

  function DigitText(d: nat): string
    requires d < 10
  {
    ["0123456789"[d]]
  }

  function NatText(n: nat): (r: string)
    ensures |r| >= 1
    decreases n
  {
    if n < 10 then DigitText(n) else NatText(n / 10) + DigitText(n % 10)
  }

  /** `String(v)`, with `undefined` for None. */
  function Text(v: Option<Json>): string
    decreases v
  {
    match v
    case None => "undefined"
    case Some(j) => ValueText(j)
  }

  function ValueText(j: Json): string
    decreases j, 1
  {
    match j
    case Null => "null"
    case Bool(b) => if b then "true" else "false"
    case Num(n) => if n < 0 then "-" + NatText(-n) else NatText(n)
    case Str(s) => s
    case Arr(es) => ElementsText(j, es)
    case Obj(_) => "[object Object]"
  }

  /** `Array.prototype.join(',')`: null elements print as the empty string. */
  function ElementsText(whole: Json, es: seq<Json>): string
    requires whole.Arr? && forall k :: 0 <= k < |es| ==> es[k] in whole.elems
    decreases whole, 0, |es|
  {
    if |es| == 0 then ""
    else
      var first := if es[0].Null? then "" else ValueText(es[0]);
      if |es| == 1 then first else first + "," + ElementsText(whole, es[1..])
  }

  /** An array element's text in `Array.prototype.join`: `undefined` and
      `null` print as the empty string. */
  function ElementText(v: Option<Json>): (r: string)
    ensures v.None? || v.value.Null? ==> r == ""
    ensures v.Some? && !v.value.Null? ==> r == Text(v)
  {
    if v.None? || v.value.Null? then "" else Text(v)
  }

  /** `v || ''` followed by string conversion: a falsy value becomes the
      empty string, a truthy one its text. */
  function OrEmpty(v: Option<Json>): (r: string)
    ensures !Truthy(v) ==> r == ""
    ensures Truthy(v) && v.value.Str? ==> r == v.value.s
  {
    if Truthy(v) then Text(v) else ""
  }
}
