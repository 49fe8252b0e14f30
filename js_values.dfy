/** JavaScript values as the handlers see them once the request body or a stored
    JSON column has been parsed, and the coercions the grading code applies to
    them: truthiness, `String(v)`, integer-to-decimal conversion and `parseInt`. */
module JsValues {

  datatype Option<+T> = None | Some(value: T)

  /** A parsed JSON value. `Undefined` is a missing property; numbers are
      integers. Objects never reach the coercions below. */
  datatype Value = Undefined | Null | Bool(b: bool) | Num(n: int) | Str(s: string) | Arr(items: seq<Value>)

  /** JavaScript truthiness: `undefined`, `null`, `false`, `0` and `""` are
      falsy; arrays are truthy. */
  predicate Truthy(v: Value) {
    match v
    case Undefined => false
    case Null => false
    case Bool(b) => b
    case Num(n) => n != 0
    case Str(s) => s != ""
    case Arr(_) => true
  }

  predicate IsDigit(c: char) {
    '0' <= c <= '9'
  }

  predicate AllDigits(s: string) {
    forall i :: 0 <= i < |s| ==> IsDigit(s[i])
  }

  function DigitChar(d: nat): (c: char)
    requires d < 10
    ensures IsDigit(c) && c as int - '0' as int == d
  {
    ('0' as int + d) as char
  }

  function DigitValue(c: char): (d: nat)
    requires IsDigit(c)
    ensures d < 10
  {
    c as int - '0' as int
  }

  /** Decimal notation of a natural number, without leading zeros. */
  function NatToString(n: nat): (s: string)
    ensures |s| > 0 && AllDigits(s)
    ensures |s| > 1 ==> s[0] != '0'
    decreases n
  {
    if n < 10 then [DigitChar(n)] else NatToString(n / 10) + [DigitChar(n % 10)]
  }

  /** `String(n)` for an integer-valued number. */
  function IntToString(n: int): string {
    if n < 0 then "-" + NatToString(-n) else NatToString(n)
  }

  /** `String(v)`. Inside an array, `undefined` and `null` join as the empty string. */
  function ToString(v: Value): string
    decreases v
  {
    match v
    case Undefined => "undefined"
    case Null => "null"
    case Bool(b) => if b then "true" else "false"
    case Num(n) => IntToString(n)
    case Str(s) => s
    case Arr(items) =>
      Join(seq(|items|, i requires 0 <= i < |items| =>
        if items[i] == Undefined || items[i] == Null then "" else ToString(items[i])))
  }

  /** `Array.prototype.join` with the default separator. */
  function Join(parts: seq<string>): string {
    if |parts| == 0 then ""
    else if |parts| == 1 then parts[0]
    else parts[0] + "," + Join(parts[1..])
  }

  /** The white space `parseInt` skips before the number. */
  predicate IsSpace(c: char) {
    c == ' ' || c == '\t' || c == '\n' || c == '\r' || c == '\U{B}' || c == '\U{C}'
    || c == '\U{A0}' || c == '\U{2028}' || c == '\U{2029}' || c == '\U{FEFF}'
  }

  /** Reads the longest run of decimal digits at the start of `s`, left to
      right, on top of the value `acc` already read. */
  function ReadDigits(s: string, acc: nat): nat {
    if |s| == 0 || !IsDigit(s[0]) then acc else ReadDigits(s[1..], acc * 10 + DigitValue(s[0]))
  }

  /** `parseInt(s)` in base 10: leading white space, an optional sign, then the
      longest run of digits; `None` is `NaN` (no digit at all). */
  function ParseInt(s: string): Option<int> {
    if |s| > 0 && IsSpace(s[0]) then ParseInt(s[1..]) else ParseSigned(s)
  }

  /** `parseInt` after the leading white space. */
  function ParseSigned(t: string): Option<int> {
    var negative := |t| > 0 && t[0] == '-';
    var u := if |t| > 0 && (t[0] == '-' || t[0] == '+') then t[1..] else t;
    var magnitude: int := ReadDigits(u, 0);
    if |u| == 0 || !IsDigit(u[0]) then None
    else Some(if negative then -magnitude else magnitude)
  }

  /** `parseInt(v)`: the value is first converted with `String(v)`. */
  function ParseIntValue(v: Value): Option<int> {
    ParseInt(ToString(v))
  }

  /** Reading stops at the first character that is not a digit. */
  lemma {:induction false} ReadDigitsStops(d: string, t: string, acc: nat)
    requires AllDigits(d)
    requires t == [] || !IsDigit(t[0])
    ensures ReadDigits(d + t, acc) == ReadDigits(d, acc)
    decreases |d|
  {
    if |d| > 0 {
      assert (d + t)[1..] == d[1..] + t;
      ReadDigitsStops(d[1..], t, acc * 10 + DigitValue(d[0]));
    } else {
      assert d + t == t;
    }
  }

  /** One more digit at the end multiplies what was read by ten and adds it. */
  lemma {:induction false} ReadDigitsAppend(d: string, c: char, acc: nat)
    requires AllDigits(d) && IsDigit(c)
    ensures ReadDigits(d + [c], acc) == ReadDigits(d, acc) * 10 + DigitValue(c)
    decreases |d|
  {
    if |d| == 0 {
      assert d + [c] == [c];
      assert [c][1..] == [];
    } else {
      assert (d + [c])[1..] == d[1..] + [c];
      ReadDigitsAppend(d[1..], c, acc * 10 + DigitValue(d[0]));
    }
  }

  lemma {:induction false} ReadDigitsOfNatToString(n: nat)
    ensures ReadDigits(NatToString(n), 0) == n
    decreases n
  {
    if n < 10 {
      assert NatToString(n)[1..] == [];
    } else {
      ReadDigitsOfNatToString(n / 10);
      ReadDigitsAppend(NatToString(n / 10), DigitChar(n % 10), 0);
    }
  }

  /** The digits after an optional sign: `parseInt` reads `d` and stops at `t`. */
  lemma {:induction false} ParseIntOfDigits(sign: string, d: string, t: string)
    requires sign == "" || sign == "-"
    requires |d| > 0 && AllDigits(d)
    requires t == [] || !IsDigit(t[0])
    ensures var v: int := ReadDigits(d, 0); ParseInt(sign + d + t) == Some(if sign == "-" then -v else v)
  {
    var s := sign + d + t;
    assert !IsSpace(s[0]);
    var u := if sign == "-" then s[1..] else s;
    assert u == d + t;
    ReadDigitsStops(d, t, 0);
  }

  /** `parseInt` reads back the decimal notation of any integer, and stops at the
      first character after it that is not a digit (so "2abc" and "2.5" read as 2). */
  lemma ParseIntOfIntToStringPrefix(n: int, t: string)
    requires t == [] || !IsDigit(t[0])
    ensures ParseInt(IntToString(n) + t) == Some(n)
  {
    var m: nat := if n < 0 then -n else n;
    ReadDigitsOfNatToString(m);
    if n < 0 {
      ParseIntOfDigits("-", NatToString(m), t);
    } else {
      ParseIntOfDigits("", NatToString(m), t);
      assert "" + NatToString(m) == NatToString(m);
    }
  }

  lemma ParseIntOfIntToString(n: int)
    ensures ParseInt(IntToString(n)) == Some(n)
  {
    ParseIntOfIntToStringPrefix(n, []);
    assert IntToString(n) + [] == IntToString(n);
  }

  /** A number property is read back by `parseInt` unchanged. */
  lemma ParseIntValueOfNum(n: int)
    ensures ParseIntValue(Num(n)) == Some(n)
  {
    ParseIntOfIntToString(n);
  }

  lemma NatToStringInjective(i: nat, j: nat)
    ensures NatToString(i) == NatToString(j) ==> i == j
  {
    ParseIntOfIntToString(i);
    ParseIntOfIntToString(j);
  }
}
