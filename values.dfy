/** JavaScript values as the data-access layer sees them: the tests lodash applies
    (`_.isString`, `_.isNumber`, `_.isBoolean`, `_.isObject`), truthiness, and how a
    template literal writes a string, number or boolean. */
module Values {

  datatype Option<T> = None | Some(value: T)

  /** A value held by a filter, a modifier or a record field. */
  datatype Value =
    | Str(s: string)
    | Num(n: int)
    | Bool(b: bool)
    | Obj(entries: seq<(string, Value)>)  // a plain object, entries in iteration order
    | Arr(items: seq<Value>)              // an array: an object whose keys are "0", "1", ...
    | Null                                // null or undefined

  /** The values the filter compiler writes out: strings, numbers and booleans. */
  predicate IsScalar(v: Value) {
    v.Str? || v.Num? || v.Bool?
  }

  /** JavaScript truthiness, the test behind `if (o[k])`: the falsy values are exactly
      null/undefined, `0`, `false` and `""`. */
  predicate Truthy(v: Value): (t: bool)
    ensures !t <==> v == Null || v == Num(0) || v == Bool(false) || v == Str("")
  {
    match v
    case Str(s) => s != ""
    case Num(n) => n != 0
    case Bool(b) => b
    case Obj(_) => true
    case Arr(_) => true
    case Null => false
  }

  function Digit(d: nat): (c: char)
    requires d < 10
    ensures '0' <= c <= '9'
  {
    ('0' as int + d) as char
  }

  function DigitValue(c: char): nat {
    if '0' <= c <= '9' then c as int - '0' as int else 0
  }

  /** `${n}` for a non-negative integer: its decimal digits, most significant first. */
  function NatToString(n: nat): (s: string)
    ensures |s| > 0
  {
    if n < 10 then [Digit(n)] else NatToString(n / 10) + [Digit(n % 10)]
  }

  predicate AllDigits(s: string) {
    forall i :: 0 <= i < |s| ==> '0' <= s[i] <= '9'
  }

  lemma {:induction false} NatToStringDigits(n: nat)
    ensures AllDigits(NatToString(n))
    ensures n >= 10 ==> NatToString(n)[0] != '0'
  {
    if n >= 10 {
      NatToStringDigits(n / 10);
    }
  }

  /** Reads a string of decimal digits back, most significant first. */
  function ParseDigits(s: string): nat {
    if s == [] then 0 else ParseDigits(s[..|s| - 1]) * 10 + DigitValue(s[|s| - 1])
  }

  lemma {:induction false} NatToStringRoundTrip(n: nat)
    ensures ParseDigits(NatToString(n)) == n
  {
    var s := NatToString(n);
    if n >= 10 {
      NatToStringRoundTrip(n / 10);
      assert s[..|s| - 1] == NatToString(n / 10);
    } else {
      assert s[..|s| - 1] == [];
    }
  }

  /** Different numbers are written differently. */
  lemma NatToStringInjective(i: nat, j: nat)
    requires i != j
    ensures NatToString(i) != NatToString(j)
  {
    NatToStringRoundTrip(i);
    NatToStringRoundTrip(j);
  }

  /** `${n}` for an integer: a minus sign before the digits of a negative number. */
  function IntToString(n: int): (s: string)
    ensures |s| > 0
  {
    if n < 0 then "-" + NatToString(-n) else NatToString(n)
  }

  lemma IntToStringSign(n: int)
    ensures (IntToString(n)[0] == '-') <==> n < 0
    ensures AllDigits(IntToString(n)[1..])
    ensures n >= 0 ==> AllDigits(IntToString(n))
  {
    NatToStringDigits(if n < 0 then -n else n);
  }

  /** `${v}` for a number or boolean. */
  function Render(v: Value): (r: string)
    requires v.Num? || v.Bool?
    ensures |r| > 0
  {
    match v
    case Num(n) => IntToString(n)
    case Bool(b) => if b then "true" else "false"
  }

  /** A number or boolean is written without quotes: its text holds no `"`. */
  lemma RenderUnquoted(v: Value)
    requires v.Num? || v.Bool?
    ensures '"' !in Render(v)
  {
    if v.Num? {
      IntToStringSign(v.n);
      var r := Render(v);
      assert r[0] != '"';
      assert forall i :: 1 <= i < |r| ==> r[i] == r[1..][i - 1];
    }
  }
}
