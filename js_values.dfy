/** JavaScript values as the dashboard reads them from JSON payloads, form
    inputs and application state, with the conversions it applies to them:
    `Number(x)`, `parseFloat`, `parseInt(x, 10)`, `String(x)`, truthiness,
    `??`, `||`, optional chaining `x?.k` and object spread `{...x}`.
    Numbers are exact reals plus NaN and the two infinities: binary
    floating-point rounding, overflow and negative zero are not modelled. */
module Js {
  import opened Text
  import opened Wrappers

  datatype Num = Fin(r: real) | NaN | PosInf | NegInf
  {
    /** `Number.isFinite` */
    predicate IsFinite() { Fin? }

    /** A number is falsy exactly when it is 0 or NaN. */
    predicate Truthy() { (Fin? && r != 0.0) || PosInf? || NegInf? }

    /** `a > b` on numbers: false whenever NaN is involved. */
    predicate Greater(other: Num)
    {
      match (this, other)
      case (Fin(a), Fin(b)) => a > b
      case (PosInf, Fin(_)) => true
      case (PosInf, NegInf) => true
      case (Fin(_), NegInf) => true
      case _ => false
    }
  }

  datatype Json =
    | Undefined
    | Null
    | Bool(b: bool)
    | Number(n: Num)
    | Str(s: string)
    | Arr(items: seq<Json>)
    | Obj(fields: map<string, Json>)

  function Int(i: int): Json { Number(Fin(i as real)) }

  /** `x == null` (loose): null or undefined. */
  predicate Nullish(j: Json) { j.Undefined? || j.Null? }

  /** `a ?? b` */
  function Coalesce(a: Json, b: Json): (r: Json)
    ensures !Nullish(a) ==> r == a
    ensures Nullish(a) ==> r == b
  {
    if Nullish(a) then b else a
  }

  predicate Truthy(j: Json)
  {
    match j
    case Undefined => false
    case Null => false
    case Bool(b) => b
    case Number(n) => n.Truthy()
    case Str(s) => s != ""
    case Arr(_) => true
    case Obj(_) => true
  }

  /** `a || b` */
  function Or(a: Json, b: Json): (r: Json)
    ensures Truthy(a) ==> r == a
    ensures !Truthy(a) ==> r == b
  {
    if Truthy(a) then a else b
  }

  /** `typeof x === 'object'` (true of null and of arrays, too). */
  predicate IsObjectType(j: Json) { j.Null? || j.Arr? || j.Obj? }

  /** `x?.key`. Only own keys of plain objects are read; the model never reads
      `length` or a prototype member through this function. */
  function Get(j: Json, key: string): (r: Json)
    ensures j.Obj? && key in j.fields ==> r == j.fields[key]
    ensures !(j.Obj? && key in j.fields) ==> r == Undefined
  {
    if j.Obj? && key in j.fields then j.fields[key] else Undefined
  }

  function Get2(j: Json, k1: string, k2: string): Json { Get(Get(j, k1), k2) }

  function Get3(j: Json, k1: string, k2: string, k3: string): Json { Get(Get(Get(j, k1), k2), k3) }

  /** The own enumerable entries that `{...x}` copies: an object's fields, an
      array's or a string's elements under their index, nothing otherwise. */
  function OwnEntries(j: Json): (m: map<string, Json>)
    ensures j.Obj? ==> m == j.fields
    ensures !(j.Obj? || j.Arr? || j.Str?) ==> m == map[]
  {
    match j
    case Obj(fields) => fields
    case Arr(items) =>
      NatToStringInjective();
      map i | 0 <= i < |items| :: NatToString(i) := items[i]
    case Str(s) =>
      NatToStringInjective();
      map i | 0 <= i < |s| :: NatToString(i) := Str([s[i]])
    case _ => map[]
  }

  lemma NatToStringInjective()
    ensures forall a: nat, b: nat {:trigger NatToString(a), NatToString(b)} ::
      NatToString(a) == NatToString(b) ==> a == b
  {
    forall a: nat, b: nat | NatToString(a) == NatToString(b) ensures a == b {
      assert DecimalValue(NatToString(a)) == a;
      assert DecimalValue(NatToString(b)) == b;
    }
  }

  // ---------------------------------------------------------------- String(x)

  /** `String(x)`. Arrays render as the comma-join of their elements, with
      null and undefined elements rendered empty. */
  function JsString(j: Json): string
    decreases j
  {
    match j
    case Undefined => "undefined"
    case Null => "null"
    case Bool(b) => if b then "true" else "false"
    case Number(n) => NumToString(n)
    case Str(s) => s
    case Arr(items) =>
      Join(seq(|items|, i requires 0 <= i < |items| =>
             if Nullish(items[i]) then "" else JsString(items[i])), ',')
    case Obj(_) => "[object Object]"
  }

  /** `String(n)` for numbers in plain decimal notation; at most twenty
      fractional digits are written. */
  function NumToString(n: Num): string
  {
    match n
    case NaN => "NaN"
    case PosInf => "Infinity"
    case NegInf => "-Infinity"
    case Fin(r) => if r < 0.0 then "-" + UnsignedToString(-r) else UnsignedToString(r)
  }

  function UnsignedToString(r: real): string
    requires r >= 0.0
  {
    var whole := r.Floor;
    var frac := r - whole as real;
    if frac == 0.0 then NatToString(whole) else NatToString(whole) + "." + FracDigits(frac, 20)
  }

  function FracDigits(f: real, fuel: nat): string
    requires 0.0 <= f < 1.0
    decreases fuel
  {
    if f == 0.0 || fuel == 0 then ""
    else
      var d := (f * 10.0).Floor;
      [DigitChar(d)] + FracDigits(f * 10.0 - d as real, fuel - 1)
  }

  // ---------------------------------------------------------------- Number(x)

  /** `Number(x)`. */
  function ToNumber(j: Json): Num
  {
    match j
    case Undefined => NaN
    case Null => Fin(0.0)
    case Bool(b) => if b then Fin(1.0) else Fin(0.0)
    case Number(n) => n
    case Str(s) => StringToNumber(s)
    case Arr(_) => StringToNumber(JsString(j))
    case Obj(_) => NaN
  }

  /** `Number(x) || 0`: NaN and 0 both become 0. */
  function ToNumberOrZero(j: Json): (n: Num)
    ensures n != NaN
    ensures ToNumber(j).Truthy() ==> n == ToNumber(j)
    ensures !ToNumber(j).Truthy() ==> n == Fin(0.0)
  {
    var n := ToNumber(j);
    if n.Truthy() then n else Fin(0.0)
  }

  /** Length of the run of decimal digits at the start of `s`. */
  function DigitRun(s: string): (k: nat)
    ensures k <= |s| && AllDigits(s[..k])
    ensures k < |s| ==> !IsDigit(s[k])
  {
    if s != [] && IsDigit(s[0]) then
      var k := 1 + DigitRun(s[1..]);
      assert s[..k] == [s[0]] + s[1..][..k - 1];
      k
    else 0
  }

  function Pow10Real(e: nat): (p: real)
    ensures p >= 1.0
  {
    Pow10(e) as real
  }

  /** `m * 10^e`, or `m / 10^e` when `negative`. */
  function ScaleByPow10(m: real, e: nat, negative: bool): (r: real)
    requires m >= 0.0
    ensures r >= 0.0
  {
    var p := Pow10Real(e);
    if negative then m / p else m * p
  }

  datatype Scan = Scan(len: nat, value: real)

  /** The longest prefix of `s` of the form `digits [. [digits]]` or
      `. digits`, as its length and value; length 0 when there is none. */
  function ScanMantissa(s: string): (res: Scan)
    ensures res.len <= |s| && res.value >= 0.0
  {
    var intLen := DigitRun(s);
    var hasDot := intLen < |s| && s[intLen] == '.';
    var fracLen := if hasDot then DigitRun(s[intLen + 1..]) else 0;
    if intLen == 0 && fracLen == 0 then Scan(0, 0.0)
    else
      var intVal := DecimalValue(s[..intLen]);
      var fracVal := if hasDot then DecimalValue(s[intLen + 1..][..fracLen]) else 0;
      Scan(if hasDot then intLen + 1 + fracLen else intLen,
           intVal as real + ScaleByPow10(fracVal as real, fracLen, true))
  }

  /** Extends a scanned mantissa ending at `m.len` with an exponent part
      `e|E [+|-] digits` when one follows. */
  function ScanExponent(s: string, m: Scan): (res: Scan)
    requires m.len <= |s| && m.value >= 0.0
    ensures m.len <= res.len <= |s| && res.value >= 0.0
  {
    var at := m.len + 1;
    if m.len < |s| && (s[m.len] == 'e' || s[m.len] == 'E') then
      var neg := at < |s| && s[at] == '-';
      var digitsAt := if at < |s| && (s[at] == '+' || s[at] == '-') then at + 1 else at;
      var expLen := DigitRun(s[digitsAt..]);
      if expLen == 0 then m
      else Scan(digitsAt + expLen, ScaleByPow10(m.value, DecimalValue(s[digitsAt..][..expLen]), neg))
    else m
  }

  /** The longest prefix of `s` that is an unsigned decimal literal
      (StrUnsignedDecimalLiteral without `Infinity`); length 0 when none. */
  function ScanUnsignedDecimal(s: string): (res: Scan)
    ensures res.len <= |s| && res.value >= 0.0
  {
    var m := ScanMantissa(s);
    if m.len == 0 then m else ScanExponent(s, m)
  }

  predicate IsRadixDigit(c: char, radix: nat)
  {
    (IsDigit(c) && DigitValue(c) < radix)
    || (radix == 16 && (('a' <= c <= 'f') || ('A' <= c <= 'F')))
  }

  function RadixDigitValue(c: char, radix: nat): nat
    requires IsRadixDigit(c, radix)
  {
    if IsDigit(c) then DigitValue(c)
    else if 'a' <= c <= 'f' then (c as int) - ('a' as int) + 10
    else (c as int) - ('A' as int) + 10
  }

  /** The value of a string of digits in the given radix, or None. */
  function RadixValue(s: string, radix: nat): Option<nat>
  {
    if s == [] then Some(0)
    else if !IsRadixDigit(s[|s| - 1], radix) then None
    else match RadixValue(s[..|s| - 1], radix)
      case None => None
      case Some(v) => Some(radix * v + RadixDigitValue(s[|s| - 1], radix))
  }

  function SignOf(s: string): (res: (real, nat))
  {
    if s != [] && s[0] == '-' then (-1.0, 1)
    else if s != [] && s[0] == '+' then (1.0, 1)
    else (1.0, 0)
  }

  /** `Number(s)` for a string: the whole trimmed text must be a numeric
      literal; the empty (or blank) string is 0. */
  function StringToNumber(s: string): Num
  {
    LiteralValue(Trim(s))
  }

  /** The value of a trimmed string as a StringNumericLiteral. */
  function LiteralValue(t: string): Num
  {
    if t == "" then Fin(0.0)
    else if |t| > 2 && t[0] == '0' && t[1] in "xXoObB" then
      var radix := if t[1] in "xX" then 16 else if t[1] in "oO" then 8 else 2;
      match RadixValue(t[2..], radix)
      case Some(v) => Fin(v as real)
      case None => NaN
    else SignedDecimalValue(t)
  }

  /** `[+|-] (Infinity | unsigned decimal literal)` covering all of `t`, else NaN. */
  function SignedDecimalValue(t: string): Num
  {
    var (sign, skip) := SignOf(t);
    var rest := t[skip..];
    if rest == "Infinity" then (if sign < 0.0 then NegInf else PosInf)
    else
      var sc := ScanUnsignedDecimal(rest);
      if sc.len > 0 && sc.len == |rest| then Fin(sign * sc.value) else NaN
  }

  /** `parseFloat(s)`: the longest numeric prefix after leading white space. */
  function ParseFloat(s: string): Num
  {
    var t := TrimStart(s);
    var (sign, skip) := SignOf(t);
    var rest := t[skip..];
    if StartsWith(rest, "Infinity") then (if sign < 0.0 then NegInf else PosInf)
    else
      var sc := ScanUnsignedDecimal(rest);
      if sc.len > 0 then Fin(sign * sc.value) else NaN
  }

  /** `parseInt(s, 10)`: the leading (signed) run of decimal digits, None for NaN. */
  function ParseInt10(s: string): (n: Option<int>)
  {
    var t := TrimStart(s);
    var (sign, skip) := SignOf(t);
    var rest := t[skip..];
    var k := DigitRun(rest);
    if k == 0 then None
    else
      var v := DecimalValue(rest[..k]);
      if sign < 0.0 then Some(-(v as int)) else Some(v as int)
  }

  // ---------------------------------------------------------------- literals

  lemma DigitRunOfDigits(d: string)
    requires AllDigits(d)
    ensures DigitRun(d) == |d|
  {
    if d != [] {
      DigitRunOfDigits(d[1..]);
    }
  }

  lemma DigitsAreTrimmed(d: string)
    requires AllDigits(d)
    ensures Trim(d) == d && TrimStart(d) == d
  {
    TrimOfTrimmed(d);
  }

  /** A string of decimal digits converts to its decimal value. */
  lemma {:induction false} NumberOfDigits(d: string)
    requires d != [] && AllDigits(d)
    ensures StringToNumber(d) == Fin(DecimalValue(d) as real)
  {
    DigitsAreTrimmed(d);
    DigitRunOfDigits(d);
    assert d[..|d|] == d;
    assert d != "Infinity" by { assert IsDigit(d[0]); }
  }

  lemma FractionShape(a: string, b: string)
    requires a != [] && AllDigits(a) && b != [] && AllDigits(b)
    ensures var rest := a + "." + b;
            && rest != [] && IsDigit(rest[0]) && IsDigit(rest[|rest| - 1])
            && ScanUnsignedDecimal(rest)
               == Scan(|rest|, DecimalValue(a) as real + DecimalValue(b) as real / Pow10Real(|b|))
  {
    var rest := a + "." + b;
    assert rest[0] == a[0] && rest[|rest| - 1] == b[|b| - 1];
    ScanFraction(a, b);
  }

  lemma {:induction false} NumberOfNegative(rest: string, v: real)
    requires rest != [] && IsDigit(rest[0]) && IsDigit(rest[|rest| - 1])
    requires |rest| > 0 && ScanUnsignedDecimal(rest) == Scan(|rest|, v)
    ensures StringToNumber("-" + rest) == Fin(-v)
  {
    NegativeIsTrimmed(rest);
    NegativeIsDecimal(rest);
    NegativeValue(rest);
  }

  lemma NegativeIsTrimmed(rest: string)
    requires rest != [] && IsDigit(rest[0]) && IsDigit(rest[|rest| - 1])
    ensures Trim("-" + rest) == "-" + rest
  {
    var t := "-" + rest;
    assert Trimmed(t);
    TrimOfTrimmed(t);
  }

  lemma NegativeIsDecimal(rest: string)
    requires rest != [] && IsDigit(rest[0])
    ensures LiteralValue("-" + rest) == SignedDecimalValue("-" + rest)
  {
  }

  lemma NegativeValue(rest: string)
    requires rest != [] && IsDigit(rest[0])
    ensures var sc := ScanUnsignedDecimal(rest);
            SignedDecimalValue("-" + rest) == if sc.len > 0 && sc.len == |rest| then Fin(-sc.value) else NaN
  {
    var t := "-" + rest;
    assert t[1..] == rest;
    assert rest != "Infinity" by { assert IsDigit(rest[0]); }
  }

  lemma {:induction false} ScanFraction(a: string, b: string)
    requires a != [] && AllDigits(a) && b != [] && AllDigits(b)
    ensures ScanUnsignedDecimal(a + "." + b)
         == Scan(|a| + 1 + |b|, DecimalValue(a) as real + DecimalValue(b) as real / Pow10Real(|b|))
  {
    var s := a + "." + b;
    assert s[..|a|] == a && s[|a|] == '.' && s[|a| + 1..] == b;
    assert DigitRun(s) == |a| by {
      DigitRunPrefix(a, "." + b);
      assert s == a + ("." + b);
    }
    DigitRunOfDigits(b);
    assert b[..|b|] == b;
    var m := ScanMantissa(s);
    assert m == Scan(|a| + 1 + |b|, DecimalValue(a) as real + DecimalValue(b) as real / Pow10Real(|b|));
    assert m.len == |s|;
  }

  lemma {:induction false} DigitRunPrefix(a: string, tail: string)
    requires AllDigits(a) && (tail == [] || !IsDigit(tail[0]))
    ensures DigitRun(a + tail) == |a|
  {
    if a != [] {
      assert (a + tail)[1..] == a[1..] + tail;
      DigitRunPrefix(a[1..], tail);
    }
  }
}
