/** JSON number literals (section 6 of RFC 8259), the numbers they denote, and exact parsing of them
    (internal/capability/schema.go). */
module Numerals {
  import opened Wrappers
  import opened Text

  predicate IsDigit(c: char) { '0' <= c <= '9' }

  predicate AllDigits(s: string) { forall i :: 0 <= i < |s| ==> IsDigit(s[i]) }

  type Decimals = s: string | AllDigits(s)
  type Decimals1 = s: string | s != "" && AllDigits(s) witness "0"

  /** No leading zero but the literal 0 itself. */
  type WholePart = s: string | s != "" && AllDigits(s) && (s[0] == '0' ==> |s| == 1) witness "0"
  type Mark = c: char | c == 'e' || c == 'E' witness 'e'

  datatype Sign = Plus | Minus | Unsigned
  datatype Exponent = NoExponent | Exponent(mark: Mark, sign: Sign, digits: Decimals1)

  /** A number literal by its parts; an empty fraction is one that is not written. */
  datatype Numeral = Numeral(negative: bool, whole: WholePart, fraction: Decimals, exponent: Exponent)

  // ---------- the literal and its value ----------

  function SpelledSign(s: Sign): string { match s case Plus => "+" case Minus => "-" case Unsigned => "" }

  function SpelledExponent(e: Exponent): string
  {
    match e
    case NoExponent => ""
    case Exponent(mark, sign, digits) => [mark] + (SpelledSign(sign) + digits)
  }

  function SpelledFraction(f: Decimals): string { if f == "" then "" else "." + f }

  function SpelledTail(n: Numeral): string { SpelledFraction(n.fraction) + SpelledExponent(n.exponent) }

  /** The text of the literal. */
  function Spelled(n: Numeral): string { (if n.negative then "-" else "") + (n.whole + SpelledTail(n)) }

  function ExponentValue(e: Exponent): int
  {
    match e
    case NoExponent => 0
    case Exponent(_, sign, digits) => if sign.Minus? then -DigitsValue(digits) else DigitsValue(digits)
  }

  /** `m` times ten to the `e`. */
  function Scaled(m: int, e: int): real
    decreases if e < 0 then -e else e
  {
    if e == 0 then m as real
    else if e > 0 then 10.0 * Scaled(m, e - 1)
    else 0.1 * Scaled(m, e + 1)
  }

  /** The number a literal denotes: its whole part and its fraction, each in its place. */
  function Denoted(n: Numeral): real
  {
    var x := ExponentValue(n.exponent);
    var magnitude := Scaled(DigitsValue(n.whole), x) + Scaled(DigitsValue(n.fraction), x - |n.fraction|);
    if n.negative then -magnitude else magnitude
  }

  // ---------- exact parsing ----------

  const MAX_SHIFT := 1_000_000
  const TWO_63 := 0x8000_0000_0000_0000

  /** All digits as one integer, without the point. */
  function Mantissa(n: Numeral): int { DigitsValue(n.whole + n.fraction) }

  /** The power of ten that the mantissa is to be multiplied by. */
  function Shift(n: Numeral): int { ExponentValue(n.exponent) - |n.fraction| }

  /** Exact rational parsing. It reads the exponent as a 64-bit number, takes a zero mantissa for
      zero, and declines a shift beyond its limit. */
  function Exact(n: Numeral): Option<real>
  {
    var e := ExponentValue(n.exponent);
    if !(-TWO_63 <= e < TWO_63) then None
    else if Mantissa(n) == 0 then Some(0.0)
    else if !(-MAX_SHIFT <= Shift(n) <= MAX_SHIFT) then None
    else
      var magnitude := Scaled(Mantissa(n), Shift(n));
      Some(if n.negative then -magnitude else magnitude)
  }

  /** The literals that are declined. */
  predicate Declined(n: Numeral)
  {
    var e := ExponentValue(n.exponent);
    e < -TWO_63 || e >= TWO_63 || (HasDigit(n) && (e - |n.fraction| < -MAX_SHIFT || e - |n.fraction| > MAX_SHIFT))
  }

  /** Some digit of the literal, before or after the point, is not 0. */
  predicate HasDigit(n: Numeral)
  {
    || (exists i :: 0 <= i < |n.whole| && n.whole[i] != '0')
    || (exists i :: 0 <= i < |n.fraction| && n.fraction[i] != '0')
  }

  lemma {:induction false} ScaledAdd(a: int, b: int, e: int)
    ensures Scaled(a + b, e) == Scaled(a, e) + Scaled(b, e)
    decreases if e < 0 then -e else e
  {
    if e != 0 { ScaledAdd(a, b, if e > 0 then e - 1 else e + 1); }
  }

  lemma {:induction false} ScaledZero(e: int)
    ensures Scaled(0, e) == 0.0
    decreases if e < 0 then -e else e
  {
    if e != 0 { ScaledZero(if e > 0 then e - 1 else e + 1); }
  }

  lemma {:induction false} ScaledPositive(m: int, e: int)
    ensures m > 0 ==> Scaled(m, e) > 0.0
    decreases if e < 0 then -e else e
  {
    if e != 0 { ScaledPositive(m, if e > 0 then e - 1 else e + 1); }
  }

  lemma {:induction false} ScaledTen(m: int, e: int)
    ensures Scaled(10 * m, e) == Scaled(m, e + 1)
    decreases if e < 0 then -e else e
  {
    if e > 0 {
      ScaledTen(m, e - 1);
    } else if e < 0 {
      ScaledTen(m, e + 1);
    }
  }

  lemma {:induction false} ScaledShift(m: int, f: nat, e: int)
    ensures Scaled(m * Power10(f), e) == Scaled(m, e + f)
    decreases f
  {
    if f > 0 {
      ScaledShift(m, f - 1, e + 1);
      ScaledTen(m * Power10(f - 1), e);
      assert m * Power10(f) == 10 * (m * Power10(f - 1));
    }
  }

  lemma {:induction false} ScaledGrows(e: nat)
    ensures Scaled(1, e) >= e as real + 1.0
  {
    if e > 0 { ScaledGrows(e - 1); }
  }

  lemma {:induction false} DigitsAppend(a: string, b: string)
    ensures DigitsValue(a + b) == DigitsValue(a) * Power10(|b|) + DigitsValue(b)
    decreases |b|
  {
    if b == "" {
      assert a + b == a;
    } else {
      var front := b[..|b| - 1];
      assert (a + b)[..|a + b| - 1] == a + front;
      DigitsAppend(a, front);
      assert Power10(|b|) == 10 * Power10(|front|);
      assert DigitsValue(a) * Power10(|b|) == 10 * (DigitsValue(a) * Power10(|front|));
    }
  }

  lemma {:induction false} DigitsZero(s: Decimals)
    ensures DigitsValue(s) >= 0
    ensures DigitsValue(s) == 0 <==> forall i :: 0 <= i < |s| ==> s[i] == '0'
  {
    if s != "" {
      var front: Decimals := s[..|s| - 1];
      DigitsZero(front);
      assert forall i :: 0 <= i < |front| ==> s[i] == front[i];
    }
  }

  lemma MantissaZero(n: Numeral)
    ensures Mantissa(n) == 0 <==> !HasDigit(n)
    ensures Mantissa(n) == 0 ==> DigitsValue(n.whole) == 0 && DigitsValue(n.fraction) == 0
  {
    DigitsZero(n.whole + n.fraction);
    DigitsZero(n.whole);
    DigitsZero(n.fraction);
    AllZeros(n.whole, n.fraction);
  }

  lemma AllZeros(a: string, b: string)
    ensures (forall i :: 0 <= i < |a + b| ==> (a + b)[i] == '0') <==>
            (forall i :: 0 <= i < |a| ==> a[i] == '0') && (forall i :: 0 <= i < |b| ==> b[i] == '0')
  {
    assert forall i :: 0 <= i < |a| ==> (a + b)[i] == a[i];
    assert forall i :: 0 <= i < |b| ==> (a + b)[|a| + i] == b[i];
  }

  /** The digits as one number, shifted, are the whole part and the fraction in their places. */
  lemma ShiftedMantissa(n: Numeral)
    ensures Scaled(Mantissa(n), Shift(n)) ==
            Scaled(DigitsValue(n.whole), ExponentValue(n.exponent)) + Scaled(DigitsValue(n.fraction), Shift(n))
  {
    var f, e := |n.fraction|, Shift(n);
    DigitsAppend(n.whole, n.fraction);
    ScaledAdd(DigitsValue(n.whole) * Power10(f), DigitsValue(n.fraction), e);
    ScaledShift(DigitsValue(n.whole), f, e);
  }

  /** Exact parsing gives the number the literal denotes, whatever its magnitude, or declines it. */
  lemma ExactIsDenoted(n: Numeral)
    ensures Exact(n).None? <==> Declined(n)
    ensures Exact(n).Some? ==> Exact(n).value == Denoted(n)
  {
    MantissaZero(n);
    ShiftedMantissa(n);
    ScaledZero(ExponentValue(n.exponent));
    ScaledZero(Shift(n));
  }

  // ---------- literals by example ----------

  /** The plain literal of a natural number. */
  function Plain(k: nat): Numeral
  {
    DigitsRead(k);
    Numeral(false, Digits(k), "", NoExponent)
  }

  lemma PlainDenotes(k: nat)
    ensures !Declined(Plain(k)) && Denoted(Plain(k)) == k as real
  {
    DigitsRead(k);
    assert Scaled(0, 0) == 0.0;
  }

  /** A zero at the end of the fraction changes nothing. */
  lemma TrailingZero(n: Numeral)
    ensures Denoted(n.(fraction := n.fraction + "0")) == Denoted(n)
  {
    var f, x := n.fraction, ExponentValue(n.exponent);
    assert (f + "0")[..|f + "0"| - 1] == f;
    assert DigitsValue(f + "0") == 10 * DigitsValue(f);
    ScaledTen(DigitsValue(f), x - |f| - 1);
  }

  function One(fraction: Decimals, exponent: Exponent): Numeral { Numeral(false, "1", fraction, exponent) }

  /** 1, 1.0 and 1e0 are one number in three spellings. */
  lemma SpellingsOfOne()
    ensures Exact(One("", NoExponent)) == Some(1.0)
    ensures Exact(One("0", NoExponent)) == Some(1.0)
    ensures Exact(One("", Exponent('e', Unsigned, "0"))) == Some(1.0)
  {
    assert DigitsValue("1"[..0]) == 0 && DigitsValue("0"[..0]) == 0;
    assert DigitsValue("1") == 1 && DigitsValue("0") == 0 && DigitsValue("") == 0;
    ExactIsDenoted(One("", NoExponent));
    ExactIsDenoted(One("0", NoExponent));
    ExactIsDenoted(One("", Exponent('e', Unsigned, "0")));
    TrailingZero(One("", NoExponent));
    assert "" + "0" == "0";
  }

  /** One with an exponent one beyond the limit. */
  function Huge(): Numeral
  {
    DigitsRead(MAX_SHIFT + 1);
    Numeral(false, "1", "", Exponent('e', Unsigned, Digits(MAX_SHIFT + 1)))
  }

  lemma HugeDeclined()
    ensures Declined(Huge()) && Denoted(Huge()) > 1.0 && Spelled(Huge()) == "1e" + Digits(MAX_SHIFT + 1)
  {
    DigitsRead(MAX_SHIFT + 1);
    assert Huge().whole[0] != '0';
    assert DigitsValue("1"[..0]) == 0;
    assert DigitsValue("1") == 1;
    ScaledGrows(MAX_SHIFT + 1);
    ScaledZero(MAX_SHIFT + 1);
  }

  // ---------- the text determines the literal ----------

  /** Digits end at the first character that is none. */
  lemma DigitsEnd(a: Decimals, x: string, b: Decimals, y: string)
    requires a + x == b + y
    requires (x != "" ==> !IsDigit(x[0])) && (y != "" ==> !IsDigit(y[0]))
    ensures a == b && x == y
  {
    DigitsNotLonger(a, x, b, y);
    DigitsNotLonger(b, y, a, x);
    assert a == (a + x)[..|a|] && b == (b + y)[..|a|];
    assert x == (a + x)[|a|..] && y == (b + y)[|a|..];
  }

  lemma DigitsNotLonger(a: Decimals, x: string, b: Decimals, y: string)
    requires a + x == b + y && (x != "" ==> !IsDigit(x[0]))
    ensures |b| <= |a|
  {
    var s := a + x;
    assert |a| < |s| ==> s[|a|] == x[0];
    assert forall i :: 0 <= i < |b| ==> s[i] == b[i];
  }

  lemma ExponentDetermined(a: Exponent, b: Exponent)
    requires SpelledExponent(a) == SpelledExponent(b)
    ensures a == b
  {
    if a.Exponent? && b.Exponent? {
      var s, t := SpelledExponent(a)[1..], SpelledExponent(b)[1..];
      assert s == SpelledSign(a.sign) + a.digits && t == SpelledSign(b.sign) + b.digits;
      assert a.sign.Unsigned? ==> s == a.digits && IsDigit(s[0]);
      assert b.sign.Unsigned? ==> t == b.digits && IsDigit(t[0]);
      assert !a.sign.Unsigned? ==> [s[0]] == SpelledSign(a.sign) && s[1..] == a.digits;
      assert !b.sign.Unsigned? ==> [t[0]] == SpelledSign(b.sign) && t[1..] == b.digits;
    }
  }

  lemma TailDetermined(m: Numeral, n: Numeral)
    requires SpelledTail(m) == SpelledTail(n)
    ensures m.fraction == n.fraction && m.exponent == n.exponent
  {
    TailParts(m);
    TailParts(n);
    DigitsEnd(m.fraction, SpelledExponent(m.exponent), n.fraction, SpelledExponent(n.exponent));
    ExponentDetermined(m.exponent, n.exponent);
  }

  lemma TailParts(n: Numeral)
    ensures var tail, x := SpelledTail(n), SpelledExponent(n.exponent);
            if tail != "" && tail[0] == '.' then tail[1..] == n.fraction + x else tail == n.fraction + x
    ensures var x := SpelledExponent(n.exponent);
            x != "" ==> !IsDigit(x[0])
  {
    if n.fraction != "" {
      assert SpelledTail(n)[0] == '.' && SpelledTail(n)[1..] == n.fraction + SpelledExponent(n.exponent);
    }
  }

  /** Two literals with one text are one literal. */
  lemma SpelledInjective(m: Numeral, n: Numeral)
    requires Spelled(m) == Spelled(n)
    ensures m == n
  {
    var s, t := m.whole + SpelledTail(m), n.whole + SpelledTail(n);
    assert IsDigit(s[0]) && IsDigit(t[0]);
    assert m.negative ==> Spelled(m)[0] == '-' && Spelled(m)[1..] == s;
    assert n.negative ==> Spelled(n)[0] == '-' && Spelled(n)[1..] == t;
    assert !m.negative ==> Spelled(m) == s;
    assert !n.negative ==> Spelled(n) == t;
    DigitsEnd(m.whole, SpelledTail(m), n.whole, SpelledTail(n));
    TailDetermined(m, n);
  }

  // ---------- multiples ----------

  function Times(k: int, unit: real): real { k as real * unit }

  ghost predicate MultipleOf(r: real, unit: real) { exists k :: r == Times(k, unit) }

  ghost predicate Whole(r: real) { MultipleOf(r, 1.0) }

  lemma Interchange(a: real, b: real, c: real)
    ensures a * (b * c) == b * (a * c)
  {
  }

  lemma {:induction false} ScaledTimes(m: int, e: int)
    ensures Scaled(m, e) == Times(m, Scaled(1, e))
    decreases if e < 0 then -e else e
  {
    if e > 0 {
      ScaledTimes(m, e - 1);
      Interchange(m as real, 10.0, Scaled(1, e - 1));
    } else if e < 0 {
      ScaledTimes(m, e + 1);
      Interchange(m as real, 0.1, Scaled(1, e + 1));
    }
  }

  lemma MultipleOfMultiple(r: real, unit: real, finer: real)
    requires MultipleOf(r, unit) && MultipleOf(unit, finer)
    ensures MultipleOf(r, finer)
  {
    var k :| r == Times(k, unit);
    var j :| unit == Times(j, finer);
    ProductOfTimes(k, j, finer);
    assert r == Times(k * j, finer);
  }

  lemma ProductOfTimes(k: int, j: int, unit: real)
    ensures Times(k, Times(j, unit)) == Times(k * j, unit)
  {
    var a, b := k as real, j as real;
    assert (k * j) as real == a * b;
    assert a * (b * unit) == (a * b) * unit;
  }

  lemma DifferenceOfMultiples(a: real, b: real, unit: real)
    requires MultipleOf(a, unit) && MultipleOf(b, unit)
    ensures MultipleOf(a - b, unit)
  {
    var i :| a == Times(i, unit);
    var j :| b == Times(j, unit);
    assert a - b == Times(i - j, unit);
  }

  // ---------- the numbers that are read ----------

  /** The least number above zero that exact parsing reads. */
  function Unit(): real { Scaled(1, -MAX_SHIFT) }

  function Magnitude(k: int): nat { if k < 0 then -k else k }

  /** `k` times that number. */
  function Units(k: int): Numeral
  {
    DigitsRead(Magnitude(k));
    DigitsRead(MAX_SHIFT);
    Numeral(k < 0, Digits(Magnitude(k)), "", Exponent('e', Minus, Digits(MAX_SHIFT)))
  }

  lemma UnitsRead(k: int)
    ensures !Declined(Units(k)) && Denoted(Units(k)) == Times(k, Unit())
  {
    DigitsRead(Magnitude(k));
    DigitsRead(MAX_SHIFT);
    UnitsDenote(Units(k), k, -MAX_SHIFT);
  }

  lemma UnitsDenote(n: Numeral, k: int, e: int)
    requires n.fraction == "" && DigitsValue(n.whole) == Magnitude(k) && n.negative == (k < 0)
    requires ExponentValue(n.exponent) == e
    ensures Denoted(n) == Times(k, Scaled(1, e))
  {
    ScaledZero(e);
    ScaledTimes(Magnitude(k), e);
    NegatedTimes(k, Scaled(1, e));
  }

  lemma InUnits(m: int, shift: int, least: int) returns (k: int)
    requires least <= shift
    ensures Scaled(m, shift) == Times(k, Scaled(1, least))
  {
    k := m * Power10(shift - least);
    ScaledShift(m, shift - least, least);
    ScaledTimes(k, least);
  }

  lemma NegatedTimes(k: int, unit: real)
    ensures Times(-k, unit) == -Times(k, unit)
  {
  }

  lemma ReadIsUnits(n: Numeral) returns (k: int)
    requires !Declined(n)
    ensures Denoted(n) == Times(k, Unit())
  {
    ExactIsDenoted(n);
    if Mantissa(n) == 0 {
      k := 0;
    } else {
      var m := InUnits(Mantissa(n), Shift(n), -MAX_SHIFT);
      NegatedTimes(m, Unit());
      k := if n.negative then -m else m;
    }
  }

  ghost predicate Readable(r: real) { exists n :: !Declined(n) && Denoted(n) == r }

  /** The numbers with a literal that is read are exactly the multiples of ten to the minus one million:
      of any size, but no finer. */
  lemma ReadableIff(r: real)
    ensures Readable(r) <==> MultipleOf(r, Unit())
  {
    if Readable(r) {
      var n :| !Declined(n) && Denoted(n) == r;
      var k := ReadIsUnits(n);
    }
    if MultipleOf(r, Unit()) {
      var k :| r == Times(k, Unit());
      UnitsRead(k);
    }
  }

  // ---------- every number has a literal that is declined ----------

  function Zeros(k: nat): Decimals { seq(k, _ => '0') }

  /** The literal with `k` more zeros at the end of its fraction. */
  function Padded(n: Numeral, k: nat): Numeral { n.(fraction := n.fraction + Zeros(k)) }

  lemma {:induction false} TrailingZeros(n: Numeral, k: nat)
    ensures Denoted(Padded(n, k)) == Denoted(n)
    decreases k
  {
    if k == 0 {
      assert n.fraction + Zeros(0) == n.fraction;
    } else {
      TrailingZeros(n, k - 1);
      TrailingZero(Padded(n, k - 1));
      assert Padded(n, k - 1).fraction + "0" == n.fraction + Zeros(k);
    }
  }

  /** How many zeros push the literal's shift beyond the limit. */
  function Padding(n: Numeral): nat { if Shift(n) < -MAX_SHIFT then 0 else Shift(n) + MAX_SHIFT + 1 }

  /** An exponent too large for 64 bits. */
  function Overflow(): Decimals1
  {
    DigitsRead(TWO_63);
    Digits(TWO_63)
  }

  /** The literal with such an exponent, spelled with `k` zeros before it. */
  function Overflowing(n: Numeral, k: nat): Numeral
  {
    n.(exponent := Exponent('e', Unsigned, Zeros(k) + Overflow()))
  }

  /** Another spelling of the same number, of `k` characters or more, that is declined. */
  function Obscured(n: Numeral, k: nat): Numeral
  {
    if HasDigit(n) then Padded(n, k + Padding(n)) else Overflowing(n, k)
  }

  lemma ObscuredFacts(n: Numeral, k: nat)
    ensures Declined(Obscured(n, k)) && Denoted(Obscured(n, k)) == Denoted(n) && |Spelled(Obscured(n, k))| >= k
  {
    if HasDigit(n) {
      assert Obscured(n, k) == Padded(n, k + Padding(n));
      TrailingZeros(n, k + Padding(n));
      PaddedIsDeclined(n, k + Padding(n));
    } else {
      assert Obscured(n, k) == Overflowing(n, k);
      OverflowingIsDeclined(n, k);
      ZeroDenotes(n);
      ZeroDenotes(Overflowing(n, k));
    }
  }

  lemma PaddedIsDeclined(n: Numeral, k: nat)
    requires HasDigit(n) && k >= Padding(n)
    ensures Declined(Padded(n, k)) && |Spelled(Padded(n, k))| >= k
  {
    var o := Padded(n, k);
    if i :| 0 <= i < |n.fraction| && n.fraction[i] != '0' {
      assert o.fraction[i] != '0';
    }
    assert HasDigit(o) && Shift(o) == Shift(n) - k;
  }

  lemma OverflowingIsDeclined(n: Numeral, k: nat)
    ensures Declined(Overflowing(n, k)) && |Spelled(Overflowing(n, k))| >= k
  {
    DigitsRead(TWO_63);
    LeadingZeros(k, Overflow(), TWO_63);
    assert ExponentValue(Overflowing(n, k).exponent) == TWO_63;
  }

  lemma LeadingZeros(k: nat, digits: string, value: int)
    requires DigitsValue(digits) == value
    ensures DigitsValue(Zeros(k) + digits) == value
  {
    DigitsZero(Zeros(k));
    DigitsAppend(Zeros(k), digits);
  }

  lemma ZeroDenotes(n: Numeral)
    requires !HasDigit(n)
    ensures Denoted(n) == 0.0
  {
    MantissaZero(n);
    ScaledZero(ExponentValue(n.exponent));
    ScaledZero(Shift(n));
  }

  // ---------- whole numbers ----------

  /** The literal denotes a whole number exactly when the digits that its shift puts behind the point
      are zeros. */
  lemma WholeIff(n: Numeral)
    ensures Whole(Denoted(n)) <==> Shift(n) >= 0 || Mantissa(n) % Power10(-Shift(n)) == 0
  {
    ShiftedMantissa(n);
    var m, e := Mantissa(n), Shift(n);
    WholeNegated(Scaled(m, e));
    if e >= 0 {
      ScaledShift(m, e, 0);
      assert Scaled(m, e) == Times(m * Power10(e), 1.0);
    } else {
      WholeFraction(m, -e, e);
    }
  }

  lemma WholeNegated(r: real)
    ensures Whole(r) <==> Whole(-r)
  {
    if Whole(r) {
      var k :| r == Times(k, 1.0);
      assert -r == Times(-k, 1.0);
    }
    if Whole(-r) {
      var k :| -r == Times(k, 1.0);
      assert r == Times(-k, 1.0);
    }
  }

  lemma WholeFraction(m: int, f: nat, e: int)
    requires e == 0 - f
    ensures Whole(Scaled(m, e)) <==> m % Power10(f) == 0
  {
    if m % Power10(f) == 0 {
      PointMoved(m / Power10(f), m, f, e);
    }
    if Whole(Scaled(m, e)) {
      WholeDivides(m, f, e, Scaled(m, e));
    }
  }

  lemma PointMoved(q: int, m: int, f: nat, e: int)
    requires e == 0 - f && m == q * Power10(f)
    ensures Scaled(m, e) == Times(q, 1.0)
  {
    ScaledShift(q, f, e);
  }

  lemma WholeDivides(m: int, f: nat, e: int, r: real)
    requires e == 0 - f && r == Scaled(m, e) && Whole(r)
    ensures m % Power10(f) == 0
  {
    var k :| r == Times(k, 1.0);
    PointMoved(k, k * Power10(f), f, e);
    ScaledSame(m, k * Power10(f), e);
    NoRemainder(k, Power10(f));
  }

  lemma NoRemainder(k: int, p: int)
    requires p > 0
    ensures (k * p) % p == 0
  {
    var q, r := (k * p) / p, (k * p) % p;
    assert (k - q) * p == r;
    assert k - q >= 1 ==> (k - q) * p >= p;
    assert k - q <= -1 ==> (k - q) * p <= -p;
  }

  lemma {:induction false} ScaledSame(a: int, b: int, e: int)
    requires Scaled(a, e) == Scaled(b, e)
    ensures a == b
    decreases if e < 0 then -e else e
  {
    if e != 0 { ScaledSame(a, b, if e > 0 then e - 1 else e + 1); }
  }
}
