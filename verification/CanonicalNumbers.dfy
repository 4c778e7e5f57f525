/** The one spelling per number that digests are computed over (internal/idempotency/digest.go). */
module CanonicalNumbers {

  import opened Wrappers
  import opened Json
  import opened Numerals
  import opened Text

  // ---------- reading a literal ----------

  /** How many digits a text starts with. */
  function DigitRun(s: string): (k: nat)
    ensures k <= |s| && AllDigits(s[..k]) && (k < |s| ==> !IsDigit(s[k]))
  {
    if s == "" || !IsDigit(s[0]) then 0
    else
      var k := DigitRun(s[1..]);
      assert s[..k + 1] == [s[0]] + s[1..][..k];
      k + 1
  }

  function ReadSign(s: string): Sign
  {
    if s != "" && s[0] == '+' then Plus else if s != "" && s[0] == '-' then Minus else Unsigned
  }

  function ReadExponent(s: string): Option<Exponent>
  {
    if s == "" then Some(NoExponent)
    else if s[0] != 'e' && s[0] != 'E' then None
    else
      var sign := ReadSign(s[1..]);
      var digits := if sign.Unsigned? then s[1..] else s[2..];
      if digits == "" || DigitRun(digits) < |digits| then None
      else
        assert digits == digits[..DigitRun(digits)];
        Some(Exponent(s[0], sign, digits))
  }

  function ReadFraction(negative: bool, whole: WholePart, s: string): Option<Numeral>
    requires s != "" && s[0] == '.'
  {
    var k := DigitRun(s[1..]);
    var exponent := ReadExponent(s[1 + k..]);
    if k == 0 || exponent.None? then None else Some(Numeral(negative, whole, s[1..][..k], exponent.value))
  }

  /** The part after the digits before the point. */
  function ReadTail(negative: bool, whole: WholePart, s: string): Option<Numeral>
  {
    if s != "" && s[0] == '.' then ReadFraction(negative, whole, s)
    else
      var exponent := ReadExponent(s);
      if exponent.None? then None else Some(Numeral(negative, whole, "", exponent.value))
  }

  function ReadUnsigned(negative: bool, s: string): Option<Numeral>
  {
    var k := DigitRun(s);
    if k == 0 || (k > 1 && s[0] == '0') then None else ReadTail(negative, s[..k], s[k..])
  }

  function ReadNumeral(s: string): Option<Numeral>
  {
    if s != "" && s[0] == '-' then ReadUnsigned(true, s[1..]) else ReadUnsigned(false, s)
  }

  lemma {:induction false} RunOf(a: Decimals, x: string)
    requires x != "" ==> !IsDigit(x[0])
    ensures DigitRun(a + x) == |a|
    decreases |a|
  {
    if a == "" {
      assert a + x == x;
    } else {
      var rest: Decimals := a[1..];
      RunOf(rest, x);
      assert (a + x)[1..] == rest + x;
    }
  }

  lemma ExponentReads(e: Exponent)
    ensures ReadExponent(SpelledExponent(e)) == Some(e)
  {
    if e.Exponent? {
      var s := SpelledExponent(e);
      var rest := SpelledSign(e.sign) + e.digits;
      assert s[1..] == rest;
      assert e.sign.Unsigned? ==> rest == e.digits && IsDigit(rest[0]);
      assert !e.sign.Unsigned? ==> rest[1..] == e.digits && s[2..] == e.digits;
      RunOf(e.digits, "");
      assert e.digits + "" == e.digits;
    }
  }

  lemma FractionReads(f: Decimals, x: string, s: string)
    requires f != "" && (x != "" ==> !IsDigit(x[0])) && s == "." + f + x
    ensures s[0] == '.' && DigitRun(s[1..]) == |f| && s[1..][..|f|] == f && s[1 + |f|..] == x
  {
    assert s[1..] == f + x;
    RunOf(f, x);
  }

  lemma TailReads(n: Numeral)
    ensures ReadTail(n.negative, n.whole, SpelledTail(n)) == Some(n)
  {
    var s, x := SpelledTail(n), SpelledExponent(n.exponent);
    ExponentReads(n.exponent);
    if n.fraction == "" {
      assert s == x;
    } else {
      TailParts(n);
      FractionReads(n.fraction, x, s);
    }
  }

  lemma NumeralReads(n: Numeral)
    ensures ReadNumeral(Spelled(n)) == Some(n)
  {
    var s := n.whole + SpelledTail(n);
    TailStart(n);
    RunOf(n.whole, SpelledTail(n));
    assert s[..|n.whole|] == n.whole && s[|n.whole|..] == SpelledTail(n);
    TailReads(n);
    assert IsDigit(s[0]);
    assert n.negative ==> Spelled(n)[0] == '-' && Spelled(n)[1..] == s;
    assert !n.negative ==> Spelled(n) == s;
  }

  lemma TailStart(n: Numeral)
    ensures SpelledTail(n) != "" ==> !IsDigit(SpelledTail(n)[0])
  {
    TailParts(n);
    assert n.fraction != "" ==> SpelledTail(n)[0] == '.';
  }

  lemma ExponentSpelled(s: string)
    requires ReadExponent(s).Some?
    ensures SpelledExponent(ReadExponent(s).value) == s
  {
    if s != "" {
      var e := ReadExponent(s).value;
      assert s == [s[0]] + s[1..];
      assert s[1..] == SpelledSign(e.sign) + e.digits;
    }
  }

  lemma Rejoined(s: string, k: nat)
    requires k <= |s|
    ensures s[..k] + s[k..] == s
  {
  }

  lemma RejoinedAtPoint(s: string, k: nat)
    requires s != "" && s[0] == '.' && k <= |s[1..]|
    ensures ("." + s[1..][..k]) + s[1 + k..] == s
  {
    Rejoined(s, 1 + k);
    assert s[..1 + k] == "." + s[1..][..k];
  }

  lemma PlainTailSpelled(n: Numeral, s: string)
    requires n.fraction == "" && SpelledExponent(n.exponent) == s
    ensures SpelledTail(n) == s
  {
    assert "" + s == s;
  }

  lemma PointTailSpelled(n: Numeral, f: string, x: string, s: string)
    requires n.fraction == f && f != "" && SpelledExponent(n.exponent) == x && ("." + f) + x == s
    ensures SpelledTail(n) == s
  {
  }

  lemma PlainTail(negative: bool, whole: WholePart, s: string)
    requires ReadTail(negative, whole, s).Some? && !(s != "" && s[0] == '.')
    ensures SpelledTail(ReadTail(negative, whole, s).value) == s
  {
    ExponentSpelled(s);
    PlainTailSpelled(ReadTail(negative, whole, s).value, s);
  }

  lemma FractionParts(negative: bool, whole: WholePart, s: string, k: nat)
    requires s != "" && s[0] == '.' && k == DigitRun(s[1..]) && ReadFraction(negative, whole, s).Some?
    ensures k > 0 && ReadExponent(s[1 + k..]).Some?
    ensures var n := ReadFraction(negative, whole, s).value;
            n.fraction == s[1..][..k] && n.exponent == ReadExponent(s[1 + k..]).value
  {
  }

  lemma PointTail(negative: bool, whole: WholePart, s: string)
    requires s != "" && s[0] == '.' && ReadFraction(negative, whole, s).Some?
    ensures SpelledTail(ReadFraction(negative, whole, s).value) == s
  {
    var k := DigitRun(s[1..]);
    var n, f, x := ReadFraction(negative, whole, s).value, s[1..][..k], s[1 + k..];
    FractionParts(negative, whole, s, k);
    ExponentSpelled(x);
    RejoinedAtPoint(s, k);
    PointTailSpelled(n, f, x, s);
  }

  lemma TailSpelled(negative: bool, whole: WholePart, s: string)
    requires ReadTail(negative, whole, s).Some?
    ensures SpelledTail(ReadTail(negative, whole, s).value) == s
  {
    if s != "" && s[0] == '.' {
      PointTail(negative, whole, s);
    } else {
      PlainTail(negative, whole, s);
    }
  }

  lemma TailKeeps(negative: bool, whole: WholePart, s: string)
    requires ReadTail(negative, whole, s).Some?
    ensures var n := ReadTail(negative, whole, s).value;
            n.negative == negative && n.whole == whole
  {
  }

  lemma UnsignedSpelled(negative: bool, s: string)
    requires ReadUnsigned(negative, s).Some?
    ensures var n := ReadUnsigned(negative, s).value;
            n.negative == negative && n.whole + SpelledTail(n) == s
  {
    var k := DigitRun(s);
    TailSpelled(negative, s[..k], s[k..]);
    TailKeeps(negative, s[..k], s[k..]);
    Rejoined(s, k);
  }

  lemma SignSpelled(n: Numeral, t: string)
    requires n.whole + SpelledTail(n) == t
    ensures Spelled(n) == if n.negative then "-" + t else t
  {
    assert "" + t == t;
  }

  lemma NegativeSpelled(s: string)
    requires s != "" && s[0] == '-' && ReadNumeral(s).Some?
    ensures Spelled(ReadNumeral(s).value) == s
  {
    UnsignedSpelled(true, s[1..]);
    SignSpelled(ReadNumeral(s).value, s[1..]);
    assert s == "-" + s[1..];
  }

  lemma NumeralSpelled(s: string)
    requires ReadNumeral(s).Some?
    ensures Spelled(ReadNumeral(s).value) == s
  {
    if s != "" && s[0] == '-' {
      NegativeSpelled(s);
    } else {
      UnsignedSpelled(false, s);
      SignSpelled(ReadNumeral(s).value, s);
    }
  }

  /** The reader accepts exactly the texts of number literals. */
  lemma ReadsIff(s: string, n: Numeral)
    ensures ReadNumeral(s) == Some(n) <==> s == Spelled(n)
  {
    NumeralReads(n);
    if ReadNumeral(s) == Some(n) {
      NumeralSpelled(s);
    }
  }

  // ---------- the canonical spelling ----------

  function TrimRightZeros(s: Decimals): Decimals
    decreases |s|
  {
    if s != "" && s[|s| - 1] == '0' then TrimRightZeros(s[..|s| - 1]) else s
  }

  function TrimLeftZeros(s: Decimals): Decimals
    decreases |s|
  {
    if s != "" && s[0] == '0' then TrimLeftZeros(s[1..]) else s
  }

  /** The digits from the first to the last that is not 0. */
  function Significant(n: Numeral): Decimals { TrimLeftZeros(TrimRightZeros(n.whole + n.fraction)) }

  /** The power of ten that belongs to the last of them. */
  function Place(n: Numeral): int
  {
    var digits := n.whole + n.fraction;
    Shift(n) + |digits| - |TrimRightZeros(digits)|
  }

  const ZERO: Numeral := Numeral(false, "0", "", NoExponent)

  /** Digits with the point after the first, and the power of ten that belongs to it. */
  function Scientific(negative: bool, digits: Decimals, place: int): (n: Numeral)
    requires digits != "" && digits[0] != '0'
    ensures n.negative == negative && n.whole + n.fraction == digits && Shift(n) == place
  {
    var e := place + |digits| - 1;
    DigitsRead(Magnitude(e));
    Numeral(negative, digits[..1], digits[1..], Exponent('e', if e < 0 then Minus else Unsigned, Digits(Magnitude(e))))
  }

  /** The canonical spelling of a number literal. */
  function Canonical(n: Numeral): Numeral
  {
    LeftTrimmed(TrimRightZeros(n.whole + n.fraction));
    if Significant(n) == "" then ZERO else Scientific(n.negative, Significant(n), Place(n))
  }

  lemma {:induction false} LeftTrimmed(s: Decimals)
    ensures var t := TrimLeftZeros(s);
            && DigitsValue(t) == DigitsValue(s)
            && (t != "" ==> t[0] != '0' && t[|t| - 1] == s[|s| - 1])
            && |t| <= |s|
    decreases |s|
  {
    if s != "" && s[0] == '0' {
      var rest: Decimals := s[1..];
      LeftTrimmed(rest);
      assert s == "0" + rest;
      DigitsAppend("0", rest);
      assert DigitsValue("0"[..0]) == 0;
    }
  }

  lemma {:induction false} RightTrimmed(s: Decimals, e: int)
    ensures var t := TrimRightZeros(s);
            && |t| <= |s| && (t != "" ==> t[|t| - 1] != '0')
            && Scaled(DigitsValue(s), e) == Scaled(DigitsValue(t), e + |s| - |t|)
    decreases |s|
  {
    if s != "" && s[|s| - 1] == '0' {
      var front: Decimals := s[..|s| - 1];
      RightTrimmed(front, e + 1);
      ScaledTen(DigitsValue(front), e);
    }
  }

  /** A number by its significant digits, without sign. */
  lemma SignificantDenotes(n: Numeral)
    ensures var d := Significant(n);
            && Scaled(Mantissa(n), Shift(n)) == Scaled(DigitsValue(d), Place(n))
            && (d != "" ==> d[0] != '0' && d[|d| - 1] != '0')
  {
    var digits: Decimals := n.whole + n.fraction;
    RightTrimmed(digits, Shift(n));
    LeftTrimmed(TrimRightZeros(digits));
  }

  function Signed(negative: bool, r: real): real { if negative then -r else r }

  lemma DenotedByDigits(n: Numeral)
    ensures Denoted(n) == Signed(n.negative, Scaled(DigitsValue(Significant(n)), Place(n)))
  {
    ShiftedMantissa(n);
    SignificantDenotes(n);
  }

  lemma ScientificDenotes(negative: bool, digits: Decimals, place: int)
    requires digits != "" && digits[0] != '0'
    ensures Denoted(Scientific(negative, digits, place)) == Signed(negative, Scaled(DigitsValue(digits), place))
  {
    DenotedWith(Scientific(negative, digits, place), digits, place);
  }

  lemma DenotedWith(n: Numeral, digits: string, place: int)
    requires n.whole + n.fraction == digits && Shift(n) == place
    ensures Denoted(n) == Signed(n.negative, Scaled(DigitsValue(digits), place))
  {
    ShiftedMantissa(n);
  }

  /** The canonical spelling is of the same number. */
  lemma CanonicalDenotes(n: Numeral)
    ensures Denoted(Canonical(n)) == Denoted(n)
  {
    DenotedByDigits(n);
    SignificantDenotes(n);
    if Significant(n) == "" {
      ScaledZero(Place(n));
      ZeroDenotes(ZERO);
    } else {
      ScientificDenotes(n.negative, Significant(n), Place(n));
    }
  }

  // ---------- one spelling per number ----------

  lemma LastDigit(d: Decimals)
    requires d != "" && d[0] != '0' && d[|d| - 1] != '0'
    ensures DigitsValue(d) > 0 && DigitsValue(d) % 10 != 0
  {
    DigitsZero(d);
    var front: Decimals := d[..|d| - 1];
    var last := d[|d| - 1] as int - '0' as int;
    assert IsDigit(d[|d| - 1]);
    assert DigitsValue(d) == 10 * DigitsValue(front) + last && 0 < last < 10;
  }

  lemma HigherPlaceEndsInZero(a: int, p: int, b: int, q: int)
    requires Scaled(a, p) == Scaled(b, q) && p > q
    ensures b % 10 == 0
  {
    var f := p - q - 1;
    ScaledShift(a, p - q, q);
    ScaledSame(a * Power10(p - q), b, q);
    TimesTen(a, f);
  }

  lemma TimesTen(a: int, f: nat)
    ensures (a * Power10(f + 1)) % 10 == 0
  {
    var x := a * Power10(f);
    assert a * Power10(f + 1) == 10 * x;
  }

  lemma SamePlace(a: int, p: int, b: int, q: int)
    requires Scaled(a, p) == Scaled(b, q) && a % 10 != 0 && b % 10 != 0
    ensures p == q && a == b
  {
    if p > q {
      HigherPlaceEndsInZero(a, p, b, q);
      assert false;
    }
    if q > p {
      HigherPlaceEndsInZero(b, q, a, p);
      assert false;
    }
    ScaledSame(a, b, p);
  }

  lemma {:induction false} DigitsOfValue(d: Decimals)
    requires d != "" && d[0] != '0'
    ensures DigitsValue(d) > 0 && Digits(DigitsValue(d)) == d
    decreases |d|
  {
    var last := d[|d| - 1] as int - '0' as int;
    assert IsDigit(d[|d| - 1]);
    assert Digit(last) == d[|d| - 1];
    if |d| == 1 {
      assert DigitsValue(d[..0]) == 0;
      assert d == [d[0]];
    } else {
      var front: Decimals := d[..|d| - 1];
      DigitsOfValue(front);
      assert DigitsValue(d) == 10 * DigitsValue(front) + last;
      assert d == front + [d[|d| - 1]];
    }
  }

  lemma NonzeroDenotes(n: Numeral)
    requires Significant(n) != ""
    ensures Denoted(n) != 0.0 && (n.negative <==> Denoted(n) < 0.0)
    ensures DigitsValue(Significant(n)) % 10 != 0
  {
    SignificantDenotes(n);
    LastDigit(Significant(n));
    DenotedByDigits(n);
    ScaledPositive(DigitsValue(Significant(n)), Place(n));
  }

  lemma ZeroIff(n: Numeral)
    ensures Significant(n) == "" <==> Denoted(n) == 0.0
  {
    if Significant(n) == "" {
      DenotedByDigits(n);
      ScaledZero(Place(n));
    } else {
      NonzeroDenotes(n);
    }
  }

  lemma SameDigits(m: Numeral, n: Numeral)
    requires Denoted(m) == Denoted(n) && Significant(m) != "" && Significant(n) != ""
    ensures m.negative == n.negative && Significant(m) == Significant(n) && Place(m) == Place(n)
  {
    NonzeroDenotes(m);
    NonzeroDenotes(n);
    DenotedByDigits(m);
    DenotedByDigits(n);
    SamePlace(DigitsValue(Significant(m)), Place(m), DigitsValue(Significant(n)), Place(n));
    SignificantDenotes(m);
    SignificantDenotes(n);
    DigitsOfValue(Significant(m));
    DigitsOfValue(Significant(n));
  }

  /** Two literals have one canonical spelling exactly when they denote one number, whatever their
      exponents. */
  lemma CanonicalIff(m: Numeral, n: Numeral)
    ensures Canonical(m) == Canonical(n) <==> Denoted(m) == Denoted(n)
  {
    CanonicalDenotes(m);
    CanonicalDenotes(n);
    ZeroIff(m);
    ZeroIff(n);
    if Denoted(m) == Denoted(n) && Significant(m) != "" {
      SameDigits(m, n);
    }
  }

  lemma CanonicalTwice(n: Numeral)
    ensures Canonical(Canonical(n)) == Canonical(n)
  {
    CanonicalDenotes(n);
    CanonicalIff(Canonical(n), n);
  }

  // ---------- the rewriting of a text ----------

  method ScanDigits(s: string, from: nat) returns (to: nat)
    requires from <= |s|
    ensures to == from + DigitRun(s[from..])
  {
    to := from;
    while to < |s| && IsDigit(s[to])
      invariant from <= to <= |s|
      invariant DigitRun(s[from..]) == to - from + DigitRun(s[to..])
    {
      assert s[to..][1..] == s[to + 1..];
      to := to + 1;
    }
  }

  method ScanExponent(s: string, from: nat) returns (r: Option<Exponent>)
    requires from <= |s|
    ensures r == ReadExponent(s[from..])
  {
    if from == |s| {
      return Some(NoExponent);
    }
    if s[from] != 'e' && s[from] != 'E' {
      return None;
    }
    var i, sign := from + 1, Unsigned;
    if i < |s| && (s[i] == '+' || s[i] == '-') {
      sign := if s[i] == '-' then Minus else Plus;
      i := i + 1;
    }
    ghost var tail := s[from..];
    assert tail[1..] == s[from + 1..] && (from + 2 <= |s| ==> tail[2..] == s[from + 2..]);
    var end := ScanDigits(s, i);
    if end == i || end != |s| {
      return None;
    }
    assert s[i..] == s[i..end];
    r := Some(Exponent(s[from], sign, s[i..end]));
  }

  method ScanNumeral(s: string) returns (r: Option<Numeral>)
    ensures r == ReadNumeral(s)
  {
    var i, negative := 0, false;
    if |s| > 0 && s[0] == '-' {
      i, negative := 1, true;
    }
    var end := ScanDigits(s, i);
    ghost var rest := s[i..];
    assert s[0..] == s;
    if end == i || (end - i > 1 && s[i] == '0') {
      return None;
    }
    assert rest[..end - i] == s[i..end] && rest[end - i..] == s[end..];
    r := ScanTail(s, end, negative, s[i..end]);
  }

  method ScanTail(s: string, from: nat, negative: bool, whole: WholePart) returns (r: Option<Numeral>)
    requires from <= |s|
    ensures r == ReadTail(negative, whole, s[from..])
  {
    var i, fraction := from, "";
    ghost var tail := s[from..];
    if i < |s| && s[i] == '.' {
      assert tail[1..] == s[from + 1..];
      i := ScanDigits(s, from + 1);
      fraction := s[from + 1..i];
      if fraction == "" {
        return None;
      }
      assert tail[1..][..i - from - 1] == fraction && tail[i - from..] == s[i..];
    }
    var exponent := ScanExponent(s, i);
    if exponent.None? {
      return None;
    }
    r := Some(Numeral(negative, whole, fraction, exponent.value));
  }

  method WriteCanonical(n: Numeral) returns (text: string)
    ensures text == Spelled(Canonical(n))
  {
    var digits := n.whole + n.fraction;
    var place := ExponentValue(n.exponent) - |n.fraction|;
    var trimmed := TrimRightZeros(digits);
    place := place + |digits| - |trimmed|;
    digits := TrimLeftZeros(trimmed);
    if digits == "" {
      ZeroSpelled();
      return "0";
    }
    LeftTrimmed(trimmed);
    WrittenScientific(n.negative, digits, place);
    text := WriteScientific(n.negative, digits, place);
  }

  lemma ZeroSpelled()
    ensures Spelled(ZERO) == "0"
  {
  }

  /** Every literal is rewritten to its canonical spelling; any other text is refused. */
  method CanonicalJSONNumber(s: string) returns (r: Result<string, string>)
    ensures forall n :: s == Spelled(n) ==> r == Ok(Spelled(Canonical(n)))
    ensures (forall n :: s != Spelled(n)) ==> r.Err?
  {
    var read := ScanNumeral(s);
    forall n: Numeral ensures read == Some(n) <==> s == Spelled(n) { ReadsIff(s, n); }
    if read.None? {
      return Err("invalid JSON number");
    }
    var text := WriteCanonical(read.value);
    r := Ok(text);
  }

  function WriteScientific(negative: bool, digits: string, place: int): string
    requires digits != ""
  {
    var point := if |digits| > 1 then "." + digits[1..] else "";
    (if negative then "-" else "") + (digits[..1] + (point + ("e" + Itoa(place + |digits| - 1))))
  }

  lemma WrittenScientific(negative: bool, digits: Decimals, place: int)
    requires digits != "" && digits[0] != '0'
    ensures WriteScientific(negative, digits, place) == Spelled(Scientific(negative, digits, place))
  {
    var n := Scientific(negative, digits, place);
    WrittenExponent(n.exponent, place + |digits| - 1);
  }

  lemma WrittenExponent(x: Exponent, e: int)
    requires x.Exponent? && x.mark == 'e' && x.sign == (if e < 0 then Minus else Unsigned)
    requires x.digits == Digits(Magnitude(e))
    ensures SpelledExponent(x) == "e" + Itoa(e)
  {
    assert "" + x.digits == x.digits;
  }

  // ---------- documents ----------

  /** A document with every number in its canonical spelling. */
  function Normalized(v: Value): Value
    decreases v
  {
    match v
    case Number(n) => Number(Canonical(n))
    case Array(items) => Array(seq(|items|, i requires 0 <= i < |items| => Normalized(items[i])))
    case Object(fields) => Object(map name | name in fields :: Normalized(fields[name]))
    case _ => v
  }

  /** Two documents normalise alike exactly when they are the same JSON value. */
  lemma {:induction false} NormalizedIff(v: Value, w: Value)
    ensures Normalized(v) == Normalized(w) <==> SameValue(v, w)
    decreases v
  {
    match (v, w)
    case (Number(m), Number(n)) =>
      CanonicalIff(m, n);
    case (Array(x), Array(y)) =>
      assert |Normalized(v).items| == |x| && |Normalized(w).items| == |y|;
      if |x| == |y| {
        forall i | 0 <= i < |x| ensures Normalized(x[i]) == Normalized(y[i]) <==> SameValue(x[i], y[i]) {
          NormalizedIff(x[i], y[i]);
        }
        ItemsAgree(Normalized(v).items, Normalized(w).items, x, y);
      }
    case (Object(x), Object(y)) =>
      assert Normalized(v).fields.Keys == x.Keys && Normalized(w).fields.Keys == y.Keys;
      if x.Keys == y.Keys {
        forall k | k in x ensures Normalized(x[k]) == Normalized(y[k]) <==> SameValue(x[k], y[k]) {
          NormalizedIff(x[k], y[k]);
        }
        FieldsAgree(Normalized(v).fields, Normalized(w).fields, x, y);
      }
    case _ =>
  }

  lemma ItemsAgree(a: seq<Value>, b: seq<Value>, x: seq<Value>, y: seq<Value>)
    requires |a| == |b| == |x| == |y|
    requires forall i :: 0 <= i < |x| ==> a[i] == Normalized(x[i]) && b[i] == Normalized(y[i])
    ensures a == b <==> forall i :: 0 <= i < |x| ==> Normalized(x[i]) == Normalized(y[i])
  {
    if forall i :: 0 <= i < |x| ==> Normalized(x[i]) == Normalized(y[i]) {
      assert forall i :: 0 <= i < |a| ==> a[i] == b[i];
    }
  }

  lemma FieldsAgree(a: map<string, Value>, b: map<string, Value>, x: map<string, Value>, y: map<string, Value>)
    requires a.Keys == b.Keys == x.Keys == y.Keys
    requires forall k :: k in x ==> a[k] == Normalized(x[k]) && b[k] == Normalized(y[k])
    ensures a == b <==> forall k :: k in x ==> Normalized(x[k]) == Normalized(y[k])
  {
    if forall k :: k in x ==> Normalized(x[k]) == Normalized(y[k]) {
      assert forall k :: k in a ==> a[k] == b[k];
    }
  }
}
