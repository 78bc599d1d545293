/** The JavaScript values the modelled code inspects, with the two coercions it
    relies on: truthiness (`!!v`, `if (v)`, `a || b`) and `String(v)`. */
module Js {

  /** A JavaScript value as far as the modelled code can tell values apart.
      `Buffer` is what `fs.readFileSync` returns; its bytes are kept as text. */
  datatype Value =
    | Undefined
    | Null
    | Bool(b: bool)
    | Num(n: int)
    | Str(s: string)
    | Buffer(content: string)

  /** An object as a property table; a missing property reads as `undefined`. */
  type Object = map<string, Value>

  /** `obj[key]`. */
  function Prop(obj: Object, key: string): Value {
    if key in obj then obj[key] else Undefined
  }

  /** `array.findIndex(p)`: the first index whose element satisfies `p`, or -1. */
  function FindIndex<T>(s: seq<T>, p: T -> bool): (r: int)
    ensures -1 <= r < |s|
    ensures r >= 0 ==> p(s[r]) && forall j :: 0 <= j < r ==> !p(s[j])
    ensures r == -1 ==> forall j :: 0 <= j < |s| ==> !p(s[j])
    decreases |s|
  {
    if s == [] then -1
    else if p(s[0]) then 0
    else
      var k := FindIndex(s[1..], p);
      if k < 0 then -1 else k + 1
  }

  /** JavaScript truthiness. NaN and -0 are not modelled. */
  predicate Truthy(v: Value) {
    match v
    case Undefined => false
    case Null => false
    case Bool(b) => b
    case Num(n) => n != 0
    case Str(s) => s != ""
    case Buffer(_) => true
  }

  /** `a || b`: the left operand when it is truthy, otherwise the right one. */
  function Or(a: Value, b: Value): (r: Value)
    ensures Truthy(a) ==> r == a
    ensures !Truthy(a) ==> r == b
  {
    if Truthy(a) then a else b
  }

  /** Decimal digits of a natural number. */
  function NatToStr(n: nat): (r: string)
    ensures |r| > 0
    ensures forall i :: 0 <= i < |r| ==> '0' <= r[i] <= '9'
    decreases n
  {
    if n < 10 then [Digit(n)] else NatToStr(n / 10) + [Digit(n % 10)]
  }

  function Digit(d: nat): (c: char)
    requires d < 10
    ensures '0' <= c <= '9'
  {
    "0123456789"[d]
  }

  /** `String(v)`, and also what `buffer.toString()` and a template literal give. */
  function ToStr(v: Value): string {
    match v
    case Undefined => "undefined"
    case Null => "null"
    case Bool(b) => if b then "true" else "false"
    case Num(n) => if n < 0 then "-" + NatToStr(-n) else NatToStr(n)
    case Str(s) => s
    case Buffer(c) => c
  }
}
