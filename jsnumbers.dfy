/**
 * Integers as the JavaScript runtime reads and writes them: the global
 * `parseInt` with no radix argument (which also serves `Number.parseInt`),
 * `Number.prototype.toString` on integers, and the `x || 0` idiom.
 * JavaScript numbers are doubles; here they are unbounded integers, with
 * `NaN` kept as its own value because the source branches on it.
 */
module JsNumbers {

  /** The result of `parseInt`: an integer, or `NaN` when no digits were found. */
  datatype IntOrNaN = NaN | Int(value: int)

  /** `x || 0` on a parsed number: `NaN` (and 0) become 0. */
  function OrZero(x: IntOrNaN): (r: int)
    ensures x.NaN? ==> r == 0
    ensures x.Int? ==> r == x.value
  {
    match x
    case NaN => 0
    case Int(n) => n
  }

  /** The white space and line terminators `parseInt` skips before the number. */
  predicate IsJsSpace(c: char) {
    || c == ' ' || c == '\t' || c == '\n' || c == '\r'
    || c == '\U{000B}' || c == '\U{000C}' || c == '\U{00A0}' || c == '\U{1680}'
    || ('\U{2000}' <= c <= '\U{200A}')
    || c == '\U{2028}' || c == '\U{2029}' || c == '\U{202F}' || c == '\U{205F}'
    || c == '\U{3000}' || c == '\U{FEFF}'
  }

  /** `s` without its leading white space: only white space is removed, and all of it. */
  function TrimStart(s: string): (t: string)
    ensures |t| <= |s| && t == s[|s| - |t|..]
    ensures forall i :: 0 <= i < |s| - |t| ==> IsJsSpace(s[i])
    ensures t != [] ==> !IsJsSpace(t[0])
    decreases |s|
  {
    if s != [] && IsJsSpace(s[0]) then TrimStart(s[1..]) else s
  }

  predicate IsDigitOf(c: char, radix: nat) {
    if radix == 16 then ('0' <= c <= '9') || ('a' <= c <= 'f') || ('A' <= c <= 'F')
    else '0' <= c <= '9'
  }

  function DigitValue(c: char): (d: nat)
    ensures d < 16
  {
    if '0' <= c <= '9' then (c as int - '0' as int)
    else if 'a' <= c <= 'f' then (c as int - 'a' as int) + 10
    else if 'A' <= c <= 'F' then (c as int - 'A' as int) + 10
    else 0
  }

  /** The longest prefix of `s` made of digits of the radix. */
  function DigitPrefix(s: string, radix: nat): (d: string)
    ensures |d| <= |s| && d == s[..|d|]
    ensures forall i :: 0 <= i < |d| ==> IsDigitOf(d[i], radix)
    ensures |d| < |s| ==> !IsDigitOf(s[|d|], radix)
    decreases |s|
  {
    if s != [] && IsDigitOf(s[0], radix) then [s[0]] + DigitPrefix(s[1..], radix) else ""
  }

  /** The value of a digit string, most significant digit first. */
  function DigitsValue(d: string, radix: nat): nat
    decreases |d|
  {
    if d == [] then 0 else DigitsValue(d[..|d| - 1], radix) * radix + DigitValue(d[|d| - 1])
  }

  /** The unsigned part of `parseInt`: base 16 after `0x`/`0X`, else base 10; no digits gives `NaN`. */
  function ParseUnsigned(u: string): (r: IntOrNaN)
    ensures r.Int? ==> r.value >= 0
  {
    var hex := |u| >= 2 && u[0] == '0' && (u[1] == 'x' || u[1] == 'X');
    var radix := if hex then 16 else 10;
    var digits := DigitPrefix(if hex then u[2..] else u, radix);
    if digits == [] then NaN else Int(DigitsValue(digits, radix))
  }

  /**
   * `parseInt(s)`: skip leading white space, read an optional sign, then
   * the unsigned part.
   */
  function ParseInt(s: string): (r: IntOrNaN)
    ensures TrimStart(s) == [] ==> r.NaN?
    ensures r.Int? && r.value < 0 ==> TrimStart(s)[0] == '-'
    ensures TrimStart(s) != [] && '1' <= TrimStart(s)[0] <= '9' ==> r.Int? && r.value >= 0
  {
    var t := TrimStart(s);
    if t != [] && t[0] == '-' then
      match ParseUnsigned(t[1..])
      case NaN => NaN
      case Int(m) => Int(-m)
    else if t != [] && t[0] == '+' then ParseUnsigned(t[1..])
    else ParseUnsigned(t)
  }

  function DigitChar(d: nat): (c: char)
    requires d < 10
    ensures IsDigitOf(c, 10) && DigitValue(c) == d
  {
    ('0' as int + d) as char
  }

  /** Decimal text of a natural number, without leading zeros. */
  function NatToString(n: nat): (s: string)
    ensures |s| >= 1
    ensures forall i :: 0 <= i < |s| ==> IsDigitOf(s[i], 10)
    ensures n >= 10 ==> s[0] != '0' && |s| >= 2
    ensures n < 10 ==> |s| == 1
  {
    if n < 10 then [DigitChar(n)] else NatToString(n / 10) + [DigitChar(n % 10)]
  }

  /** `String(n)` for an integer `n`. */
  function IntToString(n: int): (s: string)
    ensures |s| >= 1
    ensures s[0] == '-' <==> n < 0
    ensures forall i :: 0 < i < |s| ==> IsDigitOf(s[i], 10)
  {
    if n < 0 then "-" + NatToString(-n) else NatToString(n)
  }

  lemma {:induction false} DigitsValueOfNatToString(n: nat)
    ensures DigitsValue(NatToString(n), 10) == n
  {
    var s := NatToString(n);
    if n >= 10 {
      DigitsValueOfNatToString(n / 10);
      assert s[..|s| - 1] == NatToString(n / 10);
    }
  }

  lemma {:induction false} DigitPrefixOfDigits(s: string, radix: nat)
    requires forall i :: 0 <= i < |s| ==> IsDigitOf(s[i], radix)
    ensures DigitPrefix(s, radix) == s
    decreases |s|
  {
    if s != [] {
      DigitPrefixOfDigits(s[1..], radix);
    }
  }

  lemma ParseUnsignedOfNatToString(m: nat)
    ensures ParseUnsigned(NatToString(m)) == Int(m)
  {
    var digits := NatToString(m);
    DigitsValueOfNatToString(m);
    DigitPrefixOfDigits(digits, 10);
  }

  /** `parseInt(String(n)) == n`: decimal text read back gives the number. */
  lemma ParseIntToString(n: int)
    ensures ParseInt(IntToString(n)) == Int(n)
  {
    var m := if n < 0 then -n else n;
    var digits := NatToString(m);
    ParseUnsignedOfNatToString(m);
    var s := IntToString(n);
    assert !IsJsSpace(s[0]);
    assert TrimStart(s) == s;
    if n < 0 {
      assert s[1..] == digits;
    }
  }

  /** The decimal text of an integer contains no character other than digits and a leading minus. */
  lemma IntToStringChars(n: int, c: char)
    requires c != '-' && !IsDigitOf(c, 10)
    ensures c !in IntToString(n)
  {
    var s := IntToString(n);
    if n < 0 {
      assert forall i :: 1 <= i < |s| ==> s[i] == NatToString(-n)[i - 1];
    }
  }
}
