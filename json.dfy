/**
 * JavaScript values as the signaling code sees them once `JSON.parse` has run:
 * a message is an object whose fields hold these values. Equality on `Value`
 * is JavaScript's strict equality `===`, which is also the key equality of a
 * JavaScript `Map` (JSON produces neither NaN nor -0, where the two differ).
 */
module Json {

  datatype Option<T> = None | Some(value: T)

  /** The values a message field can hold. `Undefined` is a field that is
      missing; `Ref` is a parsed object, compared by identity as `===` does. */
  datatype Value =
    | Undefined
    | Null
    | Bool(b: bool)
    | Num(n: int)
    | Str(s: string)
    | Ref(id: nat)

  /** A parsed JSON object: field name to value. */
  type Object = map<string, Value>

  /** `o[k]`: a missing field reads as `undefined`. */
  function Get(o: Object, k: string): Value
  {
    if k in o then o[k] else Undefined
  }

  /** `{...o, [k]: v}` as the receiver sees it after `JSON.stringify`: a field
      whose value is `undefined` is left out of the text. */
  function With(o: Object, k: string, v: Value): (r: Object)
    ensures Get(r, k) == v
    ensures forall k' :: k' != k ==> Get(r, k') == Get(o, k')
    ensures v != Undefined ==> k in r
  {
    if v == Undefined then o - {k} else o[k := v]
  }

  /** JavaScript truthiness: `undefined`, `null`, `false`, `0` and `""` are falsy. */
  predicate Truthy(v: Value)
  {
    match v
    case Undefined => false
    case Null => false
    case Bool(b) => b
    case Num(n) => n != 0
    case Str(s) => s != ""
    case Ref(_) => true
  }

  /** `v || null`. */
  function OrNull(v: Value): (r: Value)
    ensures Truthy(v) ==> r == v
    ensures !Truthy(v) ==> r == Null
    ensures r != Undefined && r != Str("")
  {
    if Truthy(v) then v else Null
  }

  function DigitChar(d: nat): (c: char)
    requires d < 10
    ensures '0' <= c <= '9' && c as int - '0' as int == d
  {
    ['0', '1', '2', '3', '4', '5', '6', '7', '8', '9'][d]
  }

  predicate IsDigit(c: char)
  {
    '0' <= c <= '9'
  }

  /** `String(n)` for a non-negative integer: its decimal digits, no leading zero. */
  function Decimal(n: nat): (s: string)
    ensures |s| >= 1
    ensures forall i :: 0 <= i < |s| ==> IsDigit(s[i])
    ensures s[0] == '0' ==> n == 0
    decreases n
  {
    if n < 10 then [DigitChar(n)] else Decimal(n / 10) + [DigitChar(n % 10)]
  }

  /** Reads a string of decimal digits back as a number. */
  function ParseDecimal(s: string): nat
    requires forall i :: 0 <= i < |s| ==> IsDigit(s[i])
  {
    if s == [] then 0
    else
      assert IsDigit(s[|s| - 1]);
      ParseDecimal(s[..|s| - 1]) * 10 + (s[|s| - 1] as int - '0' as int)
  }

  lemma {:induction false} ParseDecimalOfDecimal(n: nat)
    ensures ParseDecimal(Decimal(n)) == n
    decreases n
  {
    if n >= 10 {
      var s := Decimal(n);
      assert s[..|s| - 1] == Decimal(n / 10);
      ParseDecimalOfDecimal(n / 10);
    }
  }

  lemma {:induction false} DecimalLength(n: nat)
    ensures n < 10 ==> |Decimal(n)| == 1
    ensures 10 <= n < 100 ==> |Decimal(n)| == 2
  {
    if 10 <= n < 100 {
      DecimalLength(n / 10);
    }
  }

  /** The property key `obj[v]` looks up: `String(v)`. `Ref` stands for a
      plain object, whose string form is "[object Object]". */
  function PropertyKey(v: Value): string
  {
    match v
    case Undefined => "undefined"
    case Null => "null"
    case Bool(b) => if b then "true" else "false"
    case Num(n) => if n < 0 then "-" + Decimal(-n) else Decimal(n)
    case Str(s) => s
    case Ref(_) => "[object Object]"
  }
}
