/** The few ECMAScript value notions the client's logic depends on: absence,
    truthiness, property access on parsed JSON, and rendering an integer
    into a template literal. */
module JsValue {

  /** A value that may be absent (`undefined` or `null` in the source). */
  datatype Option<+T> = None | Some(value: T)

  /** A parsed JSON value. Numbers are integers here; JSON fractions and
      `NaN` play no part in the client's decisions. */
  datatype Json =
    | JNull
    | JBool(b: bool)
    | JNum(n: int)
    | JStr(s: string)
    | JArr(items: seq<Json>)
    | JObj(fields: map<string, Json>)

  /** ECMAScript truthiness of a possibly absent value: `undefined`, `null`,
      `false`, `0` and `""` are falsy, everything else (every object and
      array included) is truthy. */
  predicate Truthy(v: Option<Json>) {
    match v
    case None => false
    case Some(JNull) => false
    case Some(JBool(b)) => b
    case Some(JNum(n)) => n != 0
    case Some(JStr(s)) => s != ""
    case Some(JArr(_)) => true
    case Some(JObj(_)) => true
  }

  /** Property access `v.key` on a value that is not `null` or `undefined`:
      a missing key, and any key of a primitive, reads as `undefined`. */
  function Get(v: Json, key: string): (r: Option<Json>)
    ensures r.Some? <==> v.JObj? && key in v.fields
    ensures r.Some? ==> r.value == v.fields[key]
  {
    if v.JObj? && key in v.fields then Some(v.fields[key]) else None
  }

  /** Truthiness of a string that may be absent: the test `if (s)` or `s || x`. */
  predicate TruthyString(s: Option<string>) {
    s.Some? && s.value != ""
  }

  /** `s || fallback` for a possibly absent string. */
  function OrElse(s: Option<string>, fallback: string): (r: string)
    ensures TruthyString(s) ==> r == s.value
    ensures !TruthyString(s) ==> r == fallback
  {
    if TruthyString(s) then s.value else fallback
  }

  predicate AllDigits(s: string) {
    forall i :: 0 <= i < |s| ==> '0' <= s[i] <= '9'
  }

  /** The decimal digits of a natural number, most significant first. */
  function NatDigits(n: nat): (r: string)
    ensures |r| >= 1
    ensures AllDigits(r)
    ensures n < 10 <==> |r| == 1
    ensures n >= 1 ==> r[0] != '0'
    decreases n
  {
    var d := [('0' as int + n % 10) as char];
    if n < 10 then d else NatDigits(n / 10) + d
  }

  /** The value of a string of decimal digits. */
  function DigitsValue(s: string): nat
    requires AllDigits(s)
  {
    if s == [] then 0 else 10 * DigitsValue(s[..|s| - 1]) + (s[|s| - 1] as int - '0' as int)
  }

  lemma {:induction false} NatDigitsValue(n: nat)
    ensures DigitsValue(NatDigits(n)) == n
    decreases n
  {
    var r := NatDigits(n);
    if n >= 10 {
      NatDigitsValue(n / 10);
      assert r[..|r| - 1] == NatDigits(n / 10);
    }
  }

  /** `s` is the canonical decimal form of `n`: digits with no leading zero
      (`0` alone for zero), after a `-` when `n` is negative. */
  predicate Decimal(s: string, n: int) {
    if n >= 0 then
      |s| >= 1 && AllDigits(s) && DigitsValue(s) == n && (n > 0 ==> s[0] != '0')
    else
      |s| >= 2 && s[0] == '-' && AllDigits(s[1..]) && DigitsValue(s[1..]) == -n && s[1] != '0'
  }

  /** `${n}` for an integer `n`: its canonical decimal form, with a leading
      `-` when it is negative and no leading zero (`0` alone for zero). */
  function IntToString(n: int): (r: string)
    ensures n >= 0 ==> |r| >= 1 && AllDigits(r) && DigitsValue(r) == n
    ensures n < 0 ==> |r| >= 2 && r[0] == '-' && AllDigits(r[1..]) && DigitsValue(r[1..]) == -n
    ensures r[0] == '-' <==> n < 0
    ensures n > 0 ==> r[0] != '0'
    ensures n == 0 ==> r == "0"
    ensures n < 0 ==> r[1] != '0'
    ensures Decimal(r, n)
  {
    NatDigitsValue(if n >= 0 then n else -n);
    if n >= 0 then NatDigits(n) else "-" + NatDigits(-n)
  }

  /** Different integers render differently: the rendering can be read back. */
  lemma {:induction false} IntToStringInjective(a: int, b: int)
    ensures IntToString(a) == IntToString(b) <==> a == b
  {
    var r := IntToString(a);
    if r == IntToString(b) {
      if a >= 0 {
        assert DigitsValue(r) == a && DigitsValue(r) == b;
      } else {
        assert DigitsValue(r[1..]) == -a && DigitsValue(r[1..]) == -b;
      }
    }
  }
}
