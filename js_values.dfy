/**
 * The few JavaScript value conversions the tool-argument handlers rely on:
 * `String(v)`, `Boolean(v)` and `parseInt(s)` / `parseInt(s, 10)`, over
 * values whose numbers are integers or `NaN`.
 */
module JsValues {
  import opened JsStrings

  /** A JavaScript number, restricted to the integers and `NaN`. */
  datatype Number = NaN | Finite(value: int)

  /**
   * A property value as the handlers see it: an array holds its elements;
   * functions and all other objects are `Object`.
   */
  datatype JsValue = Undefined | Null | Bool(b: bool) | Num(n: Number) | Str(s: string) | Array(elems: seq<JsValue>) | Object

  /** `String(v)`; an array is `join(',')` of its elements. */
  function ToString(v: JsValue): string
    decreases v, 1
  {
    match v
    case Undefined => "undefined"
    case Null => "null"
    case Bool(b) => if b then "true" else "false"
    case Num(NaN) => "NaN"
    case Num(Finite(i)) => IntToString(i)
    case Str(s) => s
    case Array(es) => JoinFrom(es, 0)
    case Object => "[object Object]"
  }

  /** `join(',')` of the elements from `i` on, where `undefined` and `null` turn into nothing. */
  function JoinFrom(es: seq<JsValue>, i: nat): string
    requires i <= |es|
    decreases Array(es), 0, |es| - i
  {
    if i == |es| then ""
    else
      var e := if es[i].Undefined? || es[i].Null? then "" else ToString(es[i]);
      if i == |es| - 1 then e else e + "," + JoinFrom(es, i + 1)
  }

  /** A one-element array converts as its element does, except that `undefined` and `null` become empty. */
  lemma SingletonArrayString(e: JsValue)
    ensures ToString(Array([e])) == if e.Undefined? || e.Null? then "" else ToString(e)
  {
  }

  /** Joining two non-empty arrays one after the other puts one `,` between their strings. */
  lemma ArrayConcatString(xs: seq<JsValue>, ys: seq<JsValue>)
    requires xs != [] && ys != []
    ensures ToString(Array(xs + ys)) == ToString(Array(xs)) + "," + ToString(Array(ys))
  {
    JoinFromConcat(xs, ys, 0);
  }

  lemma {:induction false} JoinFromConcat(xs: seq<JsValue>, ys: seq<JsValue>, i: nat)
    requires i < |xs| && ys != []
    ensures JoinFrom(xs + ys, i) == JoinFrom(xs, i) + "," + JoinFrom(ys, 0)
    decreases |xs| - i
  {
    var zs := xs + ys;
    assert zs[i] == xs[i];
    if i == |xs| - 1 {
      JoinFromShift(xs, ys, 0);
      JoinFromLast(zs, xs, i);
    } else {
      JoinFromConcat(xs, ys, i + 1);
      JoinFromStep(zs, xs, i);
    }
  }

  /** Two arrays that agree at `i` join from `i` alike up to the `,` after that element. */
  lemma JoinFromStep(zs: seq<JsValue>, xs: seq<JsValue>, i: nat)
    requires i < |xs| - 1 && i < |zs| - 1 && zs[i] == xs[i]
    ensures exists e: string :: JoinFrom(zs, i) == e + "," + JoinFrom(zs, i + 1) && JoinFrom(xs, i) == e + "," + JoinFrom(xs, i + 1)
  {
    var e := if xs[i].Undefined? || xs[i].Null? then "" else ToString(xs[i]);
    assert JoinFrom(zs, i) == e + "," + JoinFrom(zs, i + 1);
  }

  /** At the last element of `xs`, a longer array `zs` that agrees there goes on with a `,`. */
  lemma JoinFromLast(zs: seq<JsValue>, xs: seq<JsValue>, i: nat)
    requires i == |xs| - 1 && i < |zs| - 1 && zs[i] == xs[i]
    ensures JoinFrom(zs, i) == JoinFrom(xs, i) + "," + JoinFrom(zs, i + 1)
  {
  }

  /** From `|xs| + k` on, `xs + ys` joins as `ys` does from `k`. */
  lemma {:induction false} JoinFromShift(xs: seq<JsValue>, ys: seq<JsValue>, k: nat)
    requires k <= |ys|
    ensures JoinFrom(xs + ys, |xs| + k) == JoinFrom(ys, k)
    decreases |ys| - k
  {
    if k < |ys| {
      assert (xs + ys)[|xs| + k] == ys[k];
      JoinFromShift(xs, ys, k + 1);
    }
  }

  /** `Boolean(v)`: every array and object is truthy, even an empty one. */
  predicate Truthy(v: JsValue) {
    match v
    case Undefined => false
    case Null => false
    case Bool(b) => b
    case Num(n) => n.Finite? && n.value != 0
    case Str(s) => s != ""
    case Array(_) => true
    case Object => true
  }

  /** The value of `c` as a digit of radix up to 36; `36` for a character that is no digit at all. */
  function DigitValue(c: char): (d: nat)
    ensures d <= 36
    ensures IsDigit(c) <==> d < 10
  {
    if IsDigit(c) then c as int - '0' as int
    else if 'a' <= c <= 'z' then c as int - 'a' as int + 10
    else if 'A' <= c <= 'Z' then c as int - 'A' as int + 10
    else 36
  }

  /** The end of the run of digits of base `radix` that starts at `i`. */
  function RadixDigitsEnd(s: string, i: nat, radix: nat): (j: nat)
    requires i <= |s|
    ensures i <= j <= |s|
    ensures forall k :: i <= k < j ==> DigitValue(s[k]) < radix
    ensures j < |s| ==> DigitValue(s[j]) >= radix
    decreases |s| - i
  {
    if i == |s| || DigitValue(s[i]) >= radix then i else RadixDigitsEnd(s, i + 1, radix)
  }

  /** The value of the numeral `d` in base `radix`, most significant digit first. */
  function NumeralValue(d: string, radix: nat): nat
    decreases |d|
  {
    if d == [] then 0 else NumeralValue(d[..|d| - 1], radix) * radix + DigitValue(d[|d| - 1])
  }

  /**
   * `parseInt(s)` when `autoRadix` holds (a `0x`/`0X` prefix after the sign
   * switches to base 16), `parseInt(s, 10)` otherwise: leading whitespace and
   * one sign are skipped, then the longest run of digits is read; no digit
   * at all gives `NaN`.
   */
  function ParseInt(s: string, autoRadix: bool): Number {
    ParseSigned(s, SkipWhitespace(s, 0), autoRadix)
  }

  /** From the first non-whitespace character `j` on: an optional sign, then the digits. */
  function ParseSigned(s: string, j: nat, autoRadix: bool): Number
    requires j <= |s|
  {
    if j < |s| && s[j] == '-' then Negate(ParseUnsigned(s, j + 1, autoRadix))
    else if j < |s| && s[j] == '+' then ParseUnsigned(s, j + 1, autoRadix)
    else ParseUnsigned(s, j, autoRadix)
  }

  function Negate(n: Number): Number {
    if n.NaN? then NaN else Finite(-n.value)
  }

  /** After the sign: base 16 behind a `0x`/`0X` prefix when `autoRadix` holds, base 10 otherwise. */
  function ParseUnsigned(s: string, k: nat, autoRadix: bool): Number
    requires k <= |s|
  {
    if autoRadix && k + 1 < |s| && s[k] == '0' && (s[k + 1] == 'x' || s[k + 1] == 'X')
    then ParseDigits(s, k + 2, 16)
    else ParseDigits(s, k, 10)
  }

  /** The digits of base `radix` from `start` on; `NaN` when there is none. */
  function ParseDigits(s: string, start: nat, radix: nat): Number
    requires start <= |s|
  {
    var e := RadixDigitsEnd(s, start, radix);
    if e == start then NaN else Finite(NumeralValue(s[start..e], radix))
  }

  // ---------------------------------------------------------------------
  // Printing and parsing back

  /** Reading back the decimal digits of `n` gives `n`. */
  lemma {:induction false} NatNumeral(n: nat)
    ensures NumeralValue(NatToString(n), 10) == n
    decreases n
  {
    var r := NatToString(n);
    if n >= 10 {
      NatNumeral(n / 10);
      assert r[..|r| - 1] == NatToString(n / 10);
      assert DigitValue(r[|r| - 1]) == n % 10;
    }
  }

  /** A run of digits of a radix is read to its end. */
  lemma {:induction false} RunEnd(s: string, i: nat, radix: nat)
    requires i <= |s|
    requires forall k :: i <= k < |s| ==> DigitValue(s[k]) < radix
    ensures RadixDigitsEnd(s, i, radix) == |s|
    decreases |s| - i
  {
    if i < |s| {
      RunEnd(s, i + 1, radix);
    }
  }

  /** A non-empty run of decimal digits from `start` to the end is read as a whole. */
  lemma ParseDecimalTail(s: string, start: nat, autoRadix: bool)
    requires start < |s|
    requires forall k :: start <= k < |s| ==> IsDigit(s[k])
    ensures ParseUnsigned(s, start, autoRadix) == Finite(NumeralValue(s[start..], 10))
  {
    assert start + 1 < |s| ==> IsDigit(s[start + 1]);
    RunEnd(s, start, 10);
    assert s[start..RadixDigitsEnd(s, start, 10)] == s[start..];
  }

  /** `parseInt(String(n))` and `parseInt(String(n), 10)` both give back the integer `n`. */
  lemma ParsePrinted(n: int, autoRadix: bool)
    ensures ParseInt(IntToString(n), autoRadix) == Finite(n)
  {
    var m: nat := if n < 0 then -n else n;
    var digits := NatToString(m);
    NatNumeral(m);
    if n < 0 {
      var s := "-" + digits;
      assert s[1..] == digits;
      assert SkipWhitespace(s, 0) == 0;
      ParseDecimalTail(s, 1, autoRadix);
    } else {
      assert SkipWhitespace(digits, 0) == 0;
      assert digits[0..] == digits;
      ParseDecimalTail(digits, 0, autoRadix);
    }
  }

  /** A hexadecimal literal `0x…`: `parseInt` reads it in base 16. */
  lemma HexPrefixAuto(s: string)
    requires |s| > 2 && s[0] == '0' && s[1] == 'x'
    requires forall k :: 2 <= k < |s| ==> DigitValue(s[k]) < 16
    ensures ParseInt(s, true) == Finite(NumeralValue(s[2..], 16))
  {
    assert SkipWhitespace(s, 0) == 0;
    var e := RadixDigitsEnd(s, 2, 16);
    RunEnd(s, 2, 16);
    assert s[2..e] == s[2..];
    assert ParseDigits(s, 2, 16) == Finite(NumeralValue(s[2..], 16));
    assert ParseUnsigned(s, 0, true) == ParseDigits(s, 2, 16);
  }

  /** A hexadecimal literal `0x…`: `parseInt(…, 10)` stops at the `x` and gives 0. */
  lemma HexPrefixDecimal(s: string)
    requires |s| > 2 && s[0] == '0' && s[1] == 'x'
    ensures ParseInt(s, false) == Finite(0)
  {
    assert SkipWhitespace(s, 0) == 0;
    assert RadixDigitsEnd(s, 1, 10) == 1;
    assert RadixDigitsEnd(s, 0, 10) == 1;
    var t := s[0..1];
    assert t[..0] == [] && t[0] == '0';
    assert NumeralValue(t, 10) == NumeralValue([], 10) * 10 + DigitValue('0');
    assert ParseDigits(s, 0, 10) == Finite(0);
  }
}
