/** Big integers as hexadecimal text and as base 2^32 digits, least significant first. */
module Bigint {
  import opened Basics

  const BASE := 0x1_0000_0000
  const INT32_MAX := 0x7fff_ffff
  const INT64_MAX := 0x7fff_ffff_ffff_ffff

  /** A Dart_CObject of kind kBigint; `digits` are the used ones. */
  datatype Bigint = Bigint(neg: bool, digits: seq<nat>)

  predicate Clamped(b: Bigint) {
    && BelowBase(b.digits)
    && (b.digits != [] ==> b.digits[|b.digits| - 1] != 0)
    && (b.neg ==> b.digits != [])
  }

  predicate IsHexDigit(c: char) {
    '0' <= c <= '9' || 'A' <= c <= 'F' || 'a' <= c <= 'f'
  }

  function HexDigitToInt(c: char): (n: nat)
    requires IsHexDigit(c)
    ensures n < 16
  {
    if '0' <= c <= '9' then c as int - '0' as int
    else if 'A' <= c <= 'F' then 10 + (c as int - 'A' as int)
    else 10 + (c as int - 'a' as int)
  }

  predicate IsUpperHexDigit(c: char) {
    '0' <= c <= '9' || 'A' <= c <= 'F'
  }

  function IntToHexDigit(i: nat): (c: char)
    requires i < 16
    ensures IsUpperHexDigit(c) && HexDigitToInt(c) == i
  {
    if i < 10 then ('0' as int + i) as char else ('A' as int + (i - 10)) as char
  }

  /** The digits in order, in the two ways of writing them. */
  const UPPER := "0123456789ABCDEF"
  const LOWER := "0123456789abcdef"

  /** The characters accepted are the digits, and the value of each is its position among them. */
  lemma DigitRead(c: char)
    ensures IsHexDigit(c) <==> c in UPPER || c in LOWER
    ensures IsHexDigit(c) ==> c == UPPER[HexDigitToInt(c)] || c == LOWER[HexDigitToInt(c)]
  {}

  /** And the digit written for a value is the one at its position. */
  lemma DigitWritten(i: nat, c: char)
    requires i < 16
    ensures IntToHexDigit(i) == UPPER[i]
    ensures IsUpperHexDigit(c) <==> c in UPPER
  {}

  // ----- What text and digits mean -----

  function Pow16(n: nat): (p: nat)
    ensures p > 0
  {
    if n == 0 then 1 else 16 * Pow16(n - 1)
  }

  predicate AllHex(s: string) {
    forall i :: 0 <= i < |s| ==> IsHexDigit(s[i])
  }

  /** Hexadecimal text, most significant digit first. */
  function HexValue(s: string): nat
    requires AllHex(s)
  {
    if s == [] then 0 else HexDigitToInt(s[0]) * Pow16(|s| - 1) + HexValue(s[1..])
  }

  function DigitsValue(ds: seq<nat>): nat {
    if ds == [] then 0 else ds[0] + BASE * DigitsValue(ds[1..])
  }

  function Value(b: Bigint): int {
    if b.neg then 0 - DigitsValue(b.digits) else DigitsValue(b.digits)
  }

  function Unsigned(s: string): string {
    if s != [] && s[0] == '-' then s[1..] else s
  }

  /** Exactly the texts of the form -?0[xX] and at least one hexadecimal digit. */
  predicate Accepted(s: string) {
    var t := Unsigned(s);
    |t| > 2 && t[0] == '0' && (t[1] == 'x' || t[1] == 'X') && AllHex(t[2..])
  }

  function TextValue(s: string): int
    requires Accepted(s)
  {
    if s[0] == '-' then 0 - HexValue(Unsigned(s)[2..]) else HexValue(Unsigned(s)[2..])
  }

  /** Canonical text: lower-case x, upper-case digits, no leading zeros, no negative zero. */
  predicate Canonical(s: string) {
    && Accepted(s)
    && var t := Unsigned(s);
       && t[1] == 'x'
       && (forall i :: 2 <= i < |t| ==> IsUpperHexDigit(t[i]))
       && (t[2] == '0' ==> |t| == 3 && s[0] != '-')
  }

  // ----- Arithmetic -----

  lemma Pow16Add(a: nat, b: nat)
    ensures Pow16(a + b) == Pow16(a) * Pow16(b)
  {
    if a > 0 { Pow16Add(a - 1, b); }
  }

  lemma BaseIsPow()
    ensures Pow16(8) == BASE
  {
    assert Pow16(1) == 16 && Pow16(2) == 256 && Pow16(3) == 4096 && Pow16(4) == 65536;
    Pow16Add(4, 4);
  }

  lemma MulMonotone(a: nat, b: nat, p: nat)
    requires a <= b
    ensures a * p <= b * p
  {}

  lemma {:induction false} HexBound(s: string)
    requires AllHex(s)
    ensures HexValue(s) < Pow16(|s|)
  {
    if s != [] {
      HexBound(s[1..]);
      MulMonotone(HexDigitToInt(s[0]), 15, Pow16(|s| - 1));
    }
  }

  lemma {:induction false} DigitsAppend(ds: seq<nat>, d: nat)
    ensures DigitsValue(ds + [d]) == DigitsValue(ds) + Pow16(8 * |ds|) * d
  {
    BaseIsPow();
    if ds == [] {
      assert ds + [d] == [d];
      assert DigitsValue([d][1..]) == 0;
    } else {
      assert (ds + [d])[1..] == ds[1..] + [d];
      DigitsAppend(ds[1..], d);
      Pow16Add(8, 8 * (|ds| - 1));
      var p := Pow16(8 * (|ds| - 1));
      assert BASE * (DigitsValue(ds[1..]) + p * d) == BASE * DigitsValue(ds[1..]) + (BASE * p) * d;
    }
  }

  // ----- Uniqueness: value and normal form determine digits and text -----

  lemma {:induction false} DigitsPositive(ds: seq<nat>)
    requires ds != [] && ds[|ds| - 1] != 0
    ensures DigitsValue(ds) > 0
  {
    if |ds| > 1 { DigitsPositive(ds[1..]); }
  }

  lemma {:induction false} DigitsUnique(a: seq<nat>, b: seq<nat>)
    requires Clamped(Bigint(false, a)) && Clamped(Bigint(false, b)) && DigitsValue(a) == DigitsValue(b)
    ensures a == b
  {
    if a == [] || b == [] {
      if a != [] { DigitsPositive(a); }
      if b != [] { DigitsPositive(b); }
    } else {
      assert a[0] == DigitsValue(a) % BASE && b[0] == DigitsValue(b) % BASE;
      DigitsUnique(a[1..], b[1..]);
      assert a == [a[0]] + a[1..] && b == [b[0]] + b[1..];
    }
  }

  lemma BigintUnique(a: Bigint, b: Bigint)
    requires Clamped(a) && Clamped(b) && Value(a) == Value(b)
    ensures a == b
  {
    if a.digits != [] { DigitsPositive(a.digits); }
    if b.digits != [] { DigitsPositive(b.digits); }
    DigitsUnique(a.digits, b.digits);
  }

  lemma {:induction false} HexUnique(s: string, t: string)
    requires AllHex(s) && AllHex(t) && |s| == |t| && HexValue(s) == HexValue(t)
    requires forall i :: 0 <= i < |s| ==> IsUpperHexDigit(s[i]) && IsUpperHexDigit(t[i])
    ensures s == t
  {
    if s != [] {
      HexBound(s[1..]);
      HexBound(t[1..]);
      QuotientUnique(HexDigitToInt(s[0]), HexValue(s[1..]), HexDigitToInt(t[0]), HexValue(t[1..]), Pow16(|s| - 1));
      HexUnique(s[1..], t[1..]);
      assert s == [s[0]] + s[1..] && t == [t[0]] + t[1..];
    }
  }

  lemma QuotientUnique(q: nat, r: nat, q': nat, r': nat, p: nat)
    requires r < p && r' < p && q * p + r == q' * p + r'
    ensures q == q' && r == r'
  {
    assert q >= q' || (q + 1) * p <= q' * p;
    assert q' >= q || (q' + 1) * p <= q * p;
  }

  lemma LeadingTerm(t: string)
    requires AllHex(t) && t != [] && t[0] != '0'
    ensures HexValue(t) >= Pow16(|t| - 1)
  {
    assert HexDigitToInt(t[0]) >= 1;
    MulMonotone(1, HexDigitToInt(t[0]), Pow16(|t| - 1));
  }

  /** A first digit other than 0 fixes the length. */
  lemma LengthFromValue(s: string, t: string)
    requires AllHex(s) && AllHex(t) && |s| < |t| && t[0] != '0'
    ensures HexValue(s) < HexValue(t)
  {
    HexBound(s);
    LeadingTerm(t);
    Pow16Monotone(|s|, |t| - 1);
  }

  lemma Pow16Monotone(a: nat, b: nat)
    requires a <= b
    ensures Pow16(a) <= Pow16(b)
  {
    if a < b { Pow16Monotone(a, b - 1); }
  }

  /** There is one canonical text for each value. */
  lemma CanonicalUnique(s: string, t: string)
    requires Canonical(s) && Canonical(t) && TextValue(s) == TextValue(t)
    ensures s == t
  {
    var u, v := Unsigned(s)[2..], Unsigned(t)[2..];
    HexZero(u);
    HexZero(v);
    if |u| < |v| { LengthFromValue(u, v); }
    if |v| < |u| { LengthFromValue(v, u); }
    HexUnique(u, v);
    assert Unsigned(s) == "0x" + u && Unsigned(t) == "0x" + v;
    assert s == (if s[0] == '-' then "-" else "") + Unsigned(s);
    assert t == (if t[0] == '-' then "-" else "") + Unsigned(t);
  }

  lemma HexZero(s: string)
    requires AllHex(s) && s != []
    ensures s == "0" ==> HexValue(s) == 0
    ensures s[0] != '0' ==> HexValue(s) > 0
  {
    if s[0] != '0' {
      LeadingTerm(s);
    } else if s == "0" {
      assert HexValue(s[1..]) == 0;
    }
  }

  // ----- The parser -----

  lemma HexPrepend(c: char, s: string)
    requires IsHexDigit(c) && AllHex(s)
    ensures AllHex([c] + s) && HexValue([c] + s) == HexDigitToInt(c) * Pow16(|s|) + HexValue(s)
  {
    assert ([c] + s)[1..] == s;
  }

  lemma Rearrange(h: nat, p: nat, q: nat, d: nat)
    ensures h * (p * q) + p * d == p * (d + h * q)
  {
    assert p * (d + h * q) == p * d + p * (h * q);
    assert h * (p * q) == p * (h * q);
  }

  /** Adding one more hexadecimal digit on top of a partial base 2^32 digit. */
  lemma AddHexDigit(h: nat, digit: nat, used: nat, j: nat)
    requires h < 16 && digit < Pow16(j) && j < 8
    ensures h * Pow16(8 * used + j) + Pow16(8 * used) * digit == Pow16(8 * used) * (digit + h * Pow16(j))
    ensures digit + h * Pow16(j) < Pow16(j + 1) <= BASE
  {
    Pow16Add(8 * used, j);
    Rearrange(h, Pow16(8 * used), Pow16(j), digit);
    MulMonotone(h, 15, Pow16(j));
    BaseIsPow();
    Pow16Monotone(j + 1, 8);
  }

  /** `digit` with hexadecimal digit `h` shifted in above its `j` hexadecimal digits. */
  function ShiftIn(digit: nat, h: nat, j: nat): nat {
    digit + h * Pow16(j)
  }

  lemma ShiftInValue(ds: seq<nat>, digit: nat, h: nat, j: nat)
    requires h < 16 && digit < Pow16(j) && j < 8
    ensures DigitsValue(ds + [ShiftIn(digit, h, j)]) == h * Pow16(8 * |ds| + j) + DigitsValue(ds + [digit])
    ensures ShiftIn(digit, h, j) < Pow16(j + 1) <= BASE
  {
    AddHexDigit(h, digit, |ds|, j);
    DigitsAppend(ds, digit);
    DigitsAppend(ds, ShiftIn(digit, h, j));
  }

  /** One character of the parser: the value so far is that of the finished digits and the partial one. */
  lemma ParseStep(s: string, k: nat, ds: seq<nat>, digit: nat, j: nat)
    requires k < |s| && AllHex(s[k + 1..]) && IsHexDigit(s[k])
    requires |s| - (k + 1) == 8 * |ds| + j && j < 8 && digit < Pow16(j)
    requires HexValue(s[k + 1..]) == DigitsValue(ds + [digit])
    ensures AllHex(s[k..]) && HexValue(s[k..]) == DigitsValue(ds + [ShiftIn(digit, HexDigitToInt(s[k]), j)])
    ensures ShiftIn(digit, HexDigitToInt(s[k]), j) < Pow16(j + 1) <= BASE
  {
    assert s[k..] == [s[k]] + s[k + 1..];
    HexPrepend(s[k], s[k + 1..]);
    ShiftInValue(ds, digit, HexDigitToInt(s[k]), j);
  }

  lemma AppendZero(ds: seq<nat>)
    ensures DigitsValue(ds + [0]) == DigitsValue(ds)
  {
    DigitsAppend(ds, 0);
  }

  lemma {:induction false} DropZero(ds: seq<nat>)
    requires ds != [] && ds[|ds| - 1] == 0
    ensures DigitsValue(ds[..|ds| - 1]) == DigitsValue(ds)
  {
    assert ds == ds[..|ds| - 1] + [0];
    AppendZero(ds[..|ds| - 1]);
  }

  /**
   CObject::NewBigint. The text is a C string, so it holds no zero character. Exactly the accepted
   texts are parsed, into the clamped digits of their value.
   */
  method NewBigint(hexValue: Option<string>) returns (r: Option<Bigint>)
    requires hexValue.Some? ==> forall i :: 0 <= i < |hexValue.value| ==> hexValue.value[i] != '\0'
    ensures r.Some? <==> hexValue.Some? && Accepted(hexValue.value)
    ensures r.Some? ==> Clamped(r.value) && Value(r.value) == TextValue(hexValue.value)
  {
    if hexValue.None? {
      return None;
    }
    var s := hexValue.value;
    var neg := false;
    if |s| > 0 && s[0] == '-' {
      neg := true;
      s := s[1..];
    }
    if |s| < 2 || s[0] != '0' || (s[1] != 'x' && s[1] != 'X') {
      return None;
    }
    s := s[2..];
    if |s| == 0 {
      return None;
    }
    var digits := ParseDigits(s);
    if digits.None? {
      return None;
    }
    if digits.value == [] {
      neg := false;
    }
    return Some(Bigint(neg, digits.value));
  }

  predicate BelowBase(ds: seq<nat>) {
    forall i :: 0 <= i < |ds| ==> ds[i] < BASE
  }

  method Push(digits: array<nat>, used: nat, digit: nat) returns (used': nat)
    requires used < digits.Length && BelowBase(digits[..used]) && digit < BASE
    modifies digits
    ensures used' == used + 1 && digits[..used'] == old(digits[..used]) + [digit] && BelowBase(digits[..used'])
  {
    digits[used] := digit;
    used' := used + 1;
  }

  /** The digit loop of NewBigint, from the last character to the first, and the clamping after it. */
  method ParseDigits(s: string) returns (r: Option<seq<nat>>)
    requires s != []
    ensures r.Some? <==> AllHex(s)
    ensures r.Some? ==> Clamped(Bigint(false, r.value)) && DigitsValue(r.value) == HexValue(s)
  {
    var hexI: int := |s|;
    var digits := new nat[(hexI + 8 - 1) / 8];
    var used: nat, digit: nat, bitI: nat := 0, 0, 0;
    ghost var j: nat := 0;
    assert |s| <= 8 * digits.Length;
    assert s[hexI..] == [] && DigitsValue([0]) == 0;
    while hexI > 0
      invariant 0 <= hexI <= |s| && AllHex(s[hexI..])
      invariant |s| - hexI == 8 * used + j && bitI == 4 * j && j < 8
      invariant digit < Pow16(j) <= BASE
      invariant used <= digits.Length && BelowBase(digits[..used])
      invariant HexValue(s[hexI..]) == DigitsValue(digits[..used] + [digit])
    {
      hexI := hexI - 1;
      if !IsHexDigit(s[hexI]) {
        assert !AllHex(s);
        return None;
      }
      ParseStep(s, hexI, digits[..used], digit, j);
      digit := ShiftIn(digit, HexDigitToInt(s[hexI]), bitI / 4);
      bitI, j := bitI + 4, j + 1;
      if bitI == 32 {
        bitI, j := 0, 0;
        used := Push(digits, used, digit);
        digit := 0;
        AppendZero(digits[..used]);
      }
    }
    assert s[hexI..] == s;
    used := Finish(digits, used, digit, bitI);
    return Some(digits[..used]);
  }

  /** After the loop: the partial digit is stored, and leading zero digits are dropped. */
  method Finish(digits: array<nat>, from: nat, digit: nat, bitI: nat) returns (used: nat)
    requires from <= digits.Length && BelowBase(digits[..from]) && digit < BASE
    requires if bitI != 0 then from < digits.Length else digit == 0
    modifies digits
    ensures used <= digits.Length && BelowBase(digits[..used]) && (used > 0 ==> digits[used - 1] != 0)
    ensures DigitsValue(digits[..used]) == DigitsValue(old(digits[..from]) + [digit])
  {
    used := from;
    if bitI != 0 {
      used := Push(digits, used, digit);
    } else {
      AppendZero(digits[..used]);
    }
    used := Clamp(digits, used);
  }

  /** Drops leading zero digits. */
  method Clamp(digits: array<nat>, from: nat) returns (used: nat)
    requires from <= digits.Length
    ensures used <= from && (used > 0 ==> digits[used - 1] != 0)
    ensures DigitsValue(digits[..used]) == DigitsValue(digits[..from])
  {
    used := from;
    while used > 0 && digits[used - 1] == 0
      invariant used <= from
      invariant DigitsValue(digits[..used]) == DigitsValue(digits[..from])
    {
      DropZero(digits[..used]);
      assert digits[..used][..used - 1] == digits[..used - 1];
      used := used - 1;
    }
  }

  // ----- The printer -----

  /** The lowest `j` hexadecimal digits of `d`. */
  function LowHex(d: nat, j: nat): string {
    if j == 0 then "" else LowHex(d / 16, j - 1) + [IntToHexDigit(d % 16)]
  }

  /** The hexadecimal digits of `d`, none for zero. */
  function TopHex(d: nat): string {
    if d == 0 then "" else TopHex(d / 16) + [IntToHexDigit(d % 16)]
  }

  function LowText(ds: seq<nat>): string {
    if ds == [] then "" else LowText(ds[1..]) + LowHex(ds[0], 8)
  }

  function Prefix(neg: bool): string {
    if neg then "-0x" else "0x"
  }

  function Body(ds: seq<nat>): string
    requires ds != []
  {
    TopHex(ds[|ds| - 1]) + LowText(ds[..|ds| - 1])
  }

  /** What the printer writes for a nonzero number. */
  function PrintText(b: Bigint): string
    requires b.digits != []
  {
    Prefix(b.neg) + Body(b.digits)
  }

  predicate AllUpper(s: string) {
    forall i :: 0 <= i < |s| ==> IsUpperHexDigit(s[i])
  }

  lemma {:induction false} HexConcat(a: string, b: string)
    requires AllHex(a) && AllHex(b)
    ensures AllHex(a + b) && HexValue(a + b) == HexValue(a) * Pow16(|b|) + HexValue(b)
  {
    if a == "" {
      assert a + b == b;
    } else {
      HexConcat(a[1..], b);
      assert (a + b)[1..] == a[1..] + b;
      Pow16Add(|a| - 1, |b|);
      Distribute(HexDigitToInt(a[0]), Pow16(|a| - 1), Pow16(|b|), HexValue(a[1..]));
    }
  }

  lemma Distribute(h: nat, p: nat, q: nat, v: nat)
    ensures h * (p * q) + v * q == (h * p + v) * q
  {
    assert h * (p * q) == (h * p) * q;
  }

  lemma SnocDigit(a: string, d: nat)
    requires AllHex(a)
    ensures AllHex(a + [IntToHexDigit(d % 16)])
    ensures HexValue(a + [IntToHexDigit(d % 16)]) == 16 * HexValue(a) + d % 16
  {
    var c := [IntToHexDigit(d % 16)];
    HexConcat(a, c);
    assert Pow16(1) == 16 && Pow16(0) == 1 && HexValue(c[1..]) == 0;
  }

  lemma {:induction false} TopHexValue(d: nat)
    ensures AllHex(TopHex(d)) && AllUpper(TopHex(d)) && HexValue(TopHex(d)) == d
    ensures d != 0 ==> TopHex(d) != "" && TopHex(d)[0] != '0'
  {
    if d != 0 {
      TopHexValue(d / 16);
      SnocDigit(TopHex(d / 16), d);
    }
  }

  lemma {:induction false} LowHexValue(d: nat, j: nat)
    requires d < Pow16(j)
    ensures |LowHex(d, j)| == j && AllHex(LowHex(d, j)) && AllUpper(LowHex(d, j)) && HexValue(LowHex(d, j)) == d
  {
    if j > 0 {
      LowHexValue(d / 16, j - 1);
      SnocDigit(LowHex(d / 16, j - 1), d);
    }
  }

  lemma {:induction false} LowTextValue(ds: seq<nat>)
    requires BelowBase(ds)
    ensures |LowText(ds)| == 8 * |ds| && AllHex(LowText(ds)) && AllUpper(LowText(ds))
    ensures HexValue(LowText(ds)) == DigitsValue(ds)
  {
    if ds != [] {
      BaseIsPow();
      LowHexValue(ds[0], 8);
      LowTextValue(ds[1..]);
      HexConcat(LowText(ds[1..]), LowHex(ds[0], 8));
    }
  }

  lemma BodyValue(ds: seq<nat>)
    requires ds != [] && Clamped(Bigint(false, ds))
    ensures AllHex(Body(ds)) && AllUpper(Body(ds)) && HexValue(Body(ds)) == DigitsValue(ds)
    ensures Body(ds) != "" && Body(ds)[0] != '0'
    ensures |Body(ds)| == 8 * (|ds| - 1) + |TopHex(ds[|ds| - 1])|
  {
    var low, top := ds[..|ds| - 1], ds[|ds| - 1];
    assert ds == low + [top];
    TopHexValue(top);
    LowTextValue(low);
    HexConcat(TopHex(top), LowText(low));
    DigitsAppend(low, top);
  }

  /** The printed text is the canonical text of the number. */
  lemma PrintTextCorrect(b: Bigint)
    requires Clamped(b) && b.digits != []
    ensures Canonical(PrintText(b)) && TextValue(PrintText(b)) == Value(b)
  {
    BodyValue(b.digits);
    var s, t := PrintText(b), Body(b.digits);
    assert Unsigned(s) == "0x" + t;
    assert Unsigned(s)[2..] == t;
  }

  /** Bytes allocated by the printer, with the terminating zero. */
  function BufferLength(b: Bigint): nat
    requires b.digits != []
  {
    |PrintText(b)| + 1
  }

  /** The guard on the number of digits; `intptrMax` is kIntptrMax of the platform. */
  predicate TooManyDigits(b: Bigint, intptrMax: nat) {
    |b.digits| > (intptrMax - 4) / 8
  }

  /** A digit takes at most `j` characters exactly when it is below the power. */
  lemma {:induction false} TopHexLength(d: nat, j: nat)
    ensures |TopHex(d)| <= j <==> d < Pow16(j)
  {
    if d == 0 {
      assert Pow16(j) > 0;
    } else if j > 0 {
      TopHexLength(d / 16, j - 1);
      assert d < 16 * Pow16(j - 1) <==> d / 16 < Pow16(j - 1);
    }
  }

  /** The digits of a number whose text, with sign and terminating zero, is no longer than an int32_t can say. */
  predicate LengthFits(b: Bigint) {
    var n := |b.digits|;
    n < 0x1000_0000 || (n == 0x1000_0000 && b.digits[n - 1] < if b.neg then 0x1000 else 0x1_0000)
  }

  /** Whatever the platform's guard lets through, the length fits its int32_t exactly for these numbers. */
  lemma LengthFitsIff(b: Bigint)
    requires Clamped(b) && b.digits != []
    ensures BufferLength(b) <= INT32_MAX <==> LengthFits(b)
  {
    var top := b.digits[|b.digits| - 1];
    BaseIsPow();
    BodyValue(b.digits);
    TopHexLength(top, 8);
    TopHexLength(top, 4);
    TopHexLength(top, 3);
    TopHexLength(top, 0);
    assert Pow16(3) == 0x1000 && Pow16(4) == 0x1_0000 by { SmallPowers(); }
  }

  lemma SmallPowers()
    ensures Pow16(0) == 1 && Pow16(3) == 0x1000 && Pow16(4) == 0x1_0000
  {
    assert Pow16(1) == 16 && Pow16(2) == 16 * Pow16(1);
    assert Pow16(3) == 16 * Pow16(2) && Pow16(4) == 16 * Pow16(3);
  }

  /** On a 32-bit platform the guard is enough. */
  lemma GuardSuffices32(b: Bigint)
    requires Clamped(b) && b.digits != [] && !TooManyDigits(b, INT32_MAX)
    ensures LengthFits(b) && BufferLength(b) <= INT32_MAX
  {
    LengthFitsIff(b);
  }

  /** On a 64-bit platform it is not: a number passes the guard whose length does not fit. */
  lemma GuardTooWeak64() returns (b: Bigint)
    ensures Clamped(b) && b.digits != [] && !TooManyDigits(b, INT64_MAX)
    ensures !LengthFits(b) && BufferLength(b) > INT32_MAX
  {
    b := Bigint(false, seq(0x1000_0001, i => 1));
    LengthFitsIff(b);
  }

  /**
   CObject::BigintToHexValue. The buffer is filled from its end and exactly: every index is in
   bounds and nothing is left over. LengthFits says when the length survives in its int32_t.
   */
  method BigintToHexValue(b: Bigint, intptrMax: nat) returns (r: Option<string>)
    requires Clamped(b) && intptrMax >= INT32_MAX
    requires TooManyDigits(b, intptrMax) || LengthFits(b)
    ensures r.None? <==> TooManyDigits(b, intptrMax)
    ensures r.Some? ==> Canonical(r.value) && TextValue(r.value) == Value(b)
  {
    var used := |b.digits|;
    if used == 0 {
      assert HexValue("0") == 0 by { HexZero("0"); }
      assert Unsigned("0x0")[2..] == "0";
      return Some("0x0");
    }
    if used > (intptrMax - 4) / 8 {
      return None;
    }
    BodyValue(b.digits);
    PrintTextCorrect(b);
    var hexLen := (used - 1) * 8;
    var digit := b.digits[used - 1];
    while digit != 0
      invariant hexLen + |TopHex(digit)| == |Body(b.digits)|
      decreases digit
    {
      hexLen := hexLen + 1;
      digit := digit / 16;
    }
    var len := (if b.neg then 1 else 0) + 2 + hexLen + 1;
    assert len == BufferLength(b) <= INT32_MAX by { LengthFitsIff(b); }
    var hex := new char[len](_ => '\0');
    WriteText(b, hex);
    return Some(hex[..len - 1]);
  }

  /** The part of the printer that fills the buffer. */
  method WriteText(b: Bigint, hex: array<char>)
    requires Clamped(b) && b.digits != [] && hex.Length == BufferLength(b)
    modifies hex
    ensures hex[..hex.Length - 1] == PrintText(b) && hex[hex.Length - 1] == '\0'
  {
    ghost var text := PrintText(b);
    var used, pos := |b.digits|, hex.Length;
    ghost var top := TopHex(b.digits[used - 1]);
    pos := pos - 1;
    hex[pos] := '\0';
    assert PrintText(b) == Prefix(b.neg) + top + LowText(b.digits[..used - 1]);
    pos := WriteLow(text, hex, pos, Prefix(b.neg) + top, b.digits[..used - 1]);
    pos := WriteTop(text, hex, pos, Prefix(b.neg), b.digits[used - 1]);
    pos := pos - 1;
    hex[pos] := 'x';
    pos := pos - 1;
    hex[pos] := '0';
    if b.neg {
      pos := pos - 1;
      hex[pos] := '-';
    }
    assert pos == 0;
  }

  /** All digits but the most significant, eight characters each. */
  method WriteLow(ghost text: string, hex: array<char>, from: int, ghost front: string, ds: seq<nat>) returns (pos: int)
    requires Unwritten(text, hex, from, front + LowText(ds)) && hex[hex.Length - 1] == '\0'
    modifies hex
    ensures Unwritten(text, hex, pos, front) && hex[hex.Length - 1] == '\0'
  {
    pos := from;
    for i := 0 to |ds|
      invariant Unwritten(text, hex, pos, front + LowText(ds[i..])) && hex[hex.Length - 1] == '\0'
    {
      var digit := ds[i];
      ghost var before := front + LowText(ds[i + 1..]);
      assert ds[i..][1..] == ds[i + 1..];
      assert front + LowText(ds[i..]) == before + LowHex(digit, 8);
      for j := 0 to 8
        invariant Unwritten(text, hex, pos, before + LowHex(digit, 8 - j)) && hex[hex.Length - 1] == '\0'
      {
        assert before + LowHex(digit, 8 - j) == before + LowHex(digit / 16, 7 - j) + [IntToHexDigit(digit % 16)];
        pos := WriteHex(text, hex, pos, before + LowHex(digit / 16, 7 - j), digit % 16);
        digit := digit / 16;
      }
      assert before + LowHex(digit, 0) == before;
    }
    assert front + LowText([]) == front;
  }

  /** The most significant digit, without leading zeros. */
  method WriteTop(ghost text: string, hex: array<char>, from: int, ghost front: string, top: nat) returns (pos: int)
    requires Unwritten(text, hex, from, front + TopHex(top)) && hex[hex.Length - 1] == '\0'
    modifies hex
    ensures Unwritten(text, hex, pos, front) && hex[hex.Length - 1] == '\0'
  {
    pos := from;
    var digit := top;
    while digit != 0
      invariant Unwritten(text, hex, pos, front + TopHex(digit)) && hex[hex.Length - 1] == '\0'
      decreases digit
    {
      assert front + TopHex(digit) == front + TopHex(digit / 16) + [IntToHexDigit(digit % 16)];
      pos := WriteHex(text, hex, pos, front + TopHex(digit / 16), digit % 16);
      digit := digit / 16;
    }
    assert front + TopHex(0) == front;
  }

  /** `rest` is what is still to be written in front of `pos`; behind it the text is in place. */
  ghost predicate Unwritten(text: string, hex: array<char>, pos: int, rest: string)
    reads hex
  {
    hex.Length == |text| + 1 && 0 <= pos < hex.Length && |rest| == pos && text == rest + hex[pos..hex.Length - 1]
  }

  method WriteHex(ghost text: string, hex: array<char>, pos: int, ghost rest: string, i: nat) returns (pos': int)
    requires i < 16 && Unwritten(text, hex, pos, rest + [IntToHexDigit(i)]) && hex[hex.Length - 1] == '\0'
    modifies hex
    ensures pos' == pos - 1 && Unwritten(text, hex, pos', rest) && hex[hex.Length - 1] == '\0'
  {
    pos' := pos - 1;
    hex[pos'] := IntToHexDigit(i);
  }

  // ----- The two undo each other -----

  /** Printing a clamped number and parsing the text gives the number back. */
  method PrintThenParse(b: Bigint, intptrMax: nat) returns (r: Option<Bigint>)
    requires Clamped(b) && intptrMax >= INT32_MAX && (TooManyDigits(b, intptrMax) || LengthFits(b))
    ensures r == if TooManyDigits(b, intptrMax) then None else Some(b)
  {
    var text := BigintToHexValue(b, intptrMax);
    r := NewBigint(text);
    if r.Some? { BigintUnique(r.value, b); }
  }

  function Stripped(t: string): string {
    if t != "" && t[0] == '0' then Stripped(t[1..]) else t
  }

  lemma {:induction false} StrippedValue(t: string)
    requires AllHex(t)
    ensures AllHex(Stripped(t)) && HexValue(Stripped(t)) == HexValue(t) && |Stripped(t)| <= |t|
    ensures Stripped(t) == "" || Stripped(t)[0] != '0'
  {
    if t != "" && t[0] == '0' {
      StrippedValue(t[1..]);
      assert HexDigitToInt('0') * Pow16(|t| - 1) == 0;
    }
  }

  /** The text without leading zeros, with its sign and the terminating zero, is no longer than an int32_t can say. */
  predicate TextFits(s: string)
    requires Accepted(s)
  {
    |Stripped(Unsigned(s)[2..])| + 3 + (if s[0] == '-' then 1 else 0) <= INT32_MAX
  }

  /**
   Parsing an accepted text and printing it gives the canonical text of the same value, as long as
   the printed text has a length that the printer can hold.
   */
  method ParseThenPrint(s: string) returns (r: Option<string>)
    requires forall i :: 0 <= i < |s| ==> s[i] != '\0'
    requires Accepted(s) ==> TextFits(s)
    ensures r.Some? <==> Accepted(s)
    ensures r.Some? ==> Canonical(r.value) && TextValue(r.value) == TextValue(s)
    ensures Canonical(s) ==> r == Some(s)
  {
    var b := NewBigint(Some(s));
    if b.None? {
      return None;
    }
    ParsedLength(s, b.value);
    r := BigintToHexValue(b.value, INT64_MAX);
    if Canonical(s) {
      CanonicalUnique(r.value, s);
    }
  }

  /** The digits parsed fit the printer exactly when the text without leading zeros does. */
  lemma ParsedLength(s: string, b: Bigint)
    requires Accepted(s) && Clamped(b) && Value(b) == TextValue(s)
    ensures LengthFits(b) <==> TextFits(s)
  {
    var t := Unsigned(s)[2..];
    var stripped := Stripped(t);
    StrippedValue(t);
    if stripped != "" { HexZero(stripped); }
    if b.digits != [] {
      BodyValue(b.digits);
      DigitsPositive(b.digits);
      assert HexValue(stripped) > 0;
      SameLength(stripped, Body(b.digits));
      LengthFitsIff(b);
    }
  }

  lemma SameLength(s: string, t: string)
    requires AllHex(s) && AllHex(t) && s != "" && t != "" && s[0] != '0' && t[0] != '0' && HexValue(s) == HexValue(t)
    ensures |s| == |t|
  {
    if |s| < |t| { LengthFromValue(s, t); }
    if |t| < |s| { LengthFromValue(t, s); }
  }
}
