/** What bounds on numbers and lengths mean, by the numbers that their literals denote, against what
    the validator enforces (internal/capability/schema.go). */
module BoundMeaning {

  import opened Wrappers
  import opened Json
  import opened Numerals
  import opened Schema
  import opened Text

  // ---------- the meaning ----------

  /** The number literal under a keyword. */
  function Literal(s: Fields, key: string): Option<Numeral>
  {
    if key in s && s[key].Number? then Some(s[key].numeral) else None
  }

  ghost predicate AtLeast(low: Option<Numeral>, r: real) { low.Some? ==> Denoted(low.value) <= r }

  ghost predicate AtMost(high: Option<Numeral>, r: real) { high.Some? ==> r <= Denoted(high.value) }

  ghost predicate InSteps(step: Option<Numeral>, r: real)
  {
    step.Some? && Denoted(step.value) != 0.0 ==> MultipleOf(r, Denoted(step.value))
  }

  ghost predicate InBounds(low: Option<Numeral>, high: Option<Numeral>, step: Option<Numeral>, r: real)
  {
    AtLeast(low, r) && AtMost(high, r) && InSteps(step, r)
  }

  /** The number keywords, whatever literals are used. */
  ghost predicate BoundsMeant(s: Fields, v: Value)
  {
    v.Number? ==>
      InBounds(Literal(s, "minimum"), Literal(s, "maximum"), Literal(s, "multipleOf"), Denoted(v.numeral))
  }

  /** The length keywords, whatever literals are used. */
  ghost predicate LengthMeant(s: Fields, v: Value)
  {
    v.Str? ==> AtLeast(Literal(s, "minLength"), |v.text| as real) && AtMost(Literal(s, "maxLength"), |v.text| as real)
  }

  // ---------- what is enforced ----------

  /** A declined bound counts as none. */
  function Read(bound: Option<Numeral>): Option<Numeral>
  {
    if bound.Some? && Declined(bound.value) then None else bound
  }

  lemma BoundsEnforced(s: Fields, n: Numeral)
    ensures BoundsHold(s, Number(n)) <==>
            (!Declined(n) ==> InBounds(Read(Literal(s, "minimum")), Read(Literal(s, "maximum")),
                                       Read(Literal(s, "multipleOf")), Denoted(n)))
  {
    ReadIsMeant(s, "minimum");
    ReadIsMeant(s, "maximum");
    ReadIsMeant(s, "multipleOf");
  }

  lemma ReadIsMeant(s: Fields, key: string)
    ensures Meant(At(s, key)).Some? <==> Read(Literal(s, key)).Some?
    ensures Meant(At(s, key)).Some? ==> Meant(At(s, key)).value == Denoted(Read(Literal(s, key)).value)
  {
  }

  lemma LengthEnforced(s: Fields, text: string)
    ensures LengthHolds(s, Str(text)) <==>
            AtLeast(Read(Literal(s, "minLength")), |text| as real) &&
            AtMost(Read(Literal(s, "maxLength")), |text| as real)
  {
    ReadIsMeant(s, "minLength");
    ReadIsMeant(s, "maxLength");
  }

  /** What the bounds allow is never refused. */
  lemma NeverTooStrict(s: Fields, v: Value)
    ensures BoundsMeant(s, v) ==> BoundsHold(s, v)
    ensures LengthMeant(s, v) ==> LengthHolds(s, v)
  {
    if v.Number? {
      BoundsEnforced(s, v.numeral);
    } else if v.Str? {
      LengthEnforced(s, v.text);
    }
  }

  // ---------- numbers far out ----------

  lemma Archimedes(b: real, unit: real) returns (n: int)
    requires unit > 0.0
    ensures n >= 0 && Times(n, unit) > b
  {
    var q := b / unit;
    n := if q < 0.0 then 1 else q.Floor + 1;
    assert q * unit == b;
    LargerProduct(n as real, q, unit);
  }

  lemma LargerProduct(x: real, y: real, unit: real)
    requires x > y && unit > 0.0
    ensures x * unit > y * unit
  {
    var d := x - y;
    assert d * unit > 0.0;
    assert x * unit == y * unit + d * unit;
  }

  /** Below any number there is one in the given steps. */
  lemma FarBelow(b: real, unit: real, j: int) returns (k: int)
    requires unit > 0.0 && j != 0
    ensures Times(k, unit) < b && MultipleOf(Times(k, unit), Times(j, unit))
  {
    var n := Archimedes(-b, unit);
    var i := if j > 0 then -n else n;
    k := i * j;
    ProductOfTimes(i, j, unit);
    assert k <= -n by { SignedProduct(n, j); }
    TimesMonotone(k, -n, unit);
    NegatedTimes(n, unit);
  }

  lemma SignedProduct(n: int, j: int)
    requires n >= 0 && j != 0
    ensures (if j > 0 then -n else n) * j <= -n
  {
  }

  lemma TimesMonotone(a: int, b: int, unit: real)
    requires a <= b && unit > 0.0
    ensures Times(a, unit) <= Times(b, unit)
  {
    assert ((b - a) as real) * unit >= 0.0;
  }

  lemma FarAbove(b: real, unit: real, j: int) returns (k: int)
    requires unit > 0.0 && j != 0
    ensures Times(k, unit) > b && MultipleOf(Times(k, unit), Times(j, unit))
  {
    var i := FarBelow(-b, unit, j);
    k := -i;
    NegatedTimes(i, unit);
    var m :| Times(i, unit) == Times(m, Times(j, unit));
    NegatedTimes(m, Times(j, unit));
  }

  // ---------- which bounds bind the numbers that are read ----------

  /** A number that is read gets through although a bound forbids it. */
  ghost predicate Slips(low: Option<Numeral>, high: Option<Numeral>, step: Option<Numeral>, n: Numeral)
  {
    !Declined(n) && InBounds(Read(low), Read(high), Read(step), Denoted(n)) && !InBounds(low, high, step, Denoted(n))
  }

  /** Minimum and maximum leave no room for a number that is no multiple of the step. */
  ghost predicate Pinched(low: Option<Numeral>, high: Option<Numeral>, step: real)
  {
    low.Some? && high.Some? &&
    (Denoted(low.value) > Denoted(high.value) ||
     (Denoted(low.value) == Denoted(high.value) && MultipleOf(Denoted(low.value), step)))
  }

  /** The step is read, or ignored as zero, or finer than all that is read, or without effect. */
  ghost predicate StepBinds(low: Option<Numeral>, high: Option<Numeral>, step: Option<Numeral>)
  {
    step.Some? && Declined(step.value) ==>
      || Denoted(step.value) == 0.0
      || MultipleOf(Unit(), Denoted(step.value))
      || Pinched(low, high, Denoted(step.value))
  }

  ghost predicate AllBind(low: Option<Numeral>, high: Option<Numeral>, step: Option<Numeral>)
  {
    && (low.Some? ==> !Declined(low.value))
    && (high.Some? ==> !Declined(high.value))
    && StepBinds(low, high, step)
  }

  /** The step of a schema in units, one where there is none to keep. */
  lemma StepInUnits(step: Option<Numeral>) returns (j: int)
    ensures j != 0 && forall r :: MultipleOf(r, Times(j, Unit())) ==> InSteps(Read(step), r)
  {
    j := 1;
    if Read(step).Some? && Denoted(step.value) != 0.0 {
      j := ReadIsUnits(step.value);
      assert j != 0;
    }
  }

  lemma LowSlips(low: Option<Numeral>, high: Option<Numeral>, step: Option<Numeral>) returns (n: Numeral)
    requires low.Some? && Declined(low.value)
    ensures Slips(low, high, step, n)
  {
    var b := Denoted(low.value);
    if high.Some? && Denoted(high.value) < b {
      b := Denoted(high.value);
    }
    var j := StepInUnits(step);
    ScaledPositive(1, -MAX_SHIFT);
    var k := FarBelow(b, Unit(), j);
    UnitsRead(k);
    n := Units(k);
  }

  lemma HighSlips(low: Option<Numeral>, high: Option<Numeral>, step: Option<Numeral>) returns (n: Numeral)
    requires high.Some? && Declined(high.value)
    ensures Slips(low, high, step, n)
  {
    var b := Denoted(high.value);
    if low.Some? && Denoted(low.value) > b {
      b := Denoted(low.value);
    }
    var j := StepInUnits(step);
    ScaledPositive(1, -MAX_SHIFT);
    var k := FarAbove(b, Unit(), j);
    UnitsRead(k);
    n := Units(k);
  }

  /** The neighbour of a multiple is none, unless the unit itself is one. */
  lemma NeighbourIsNoMultiple(r: real, unit: real, d: real)
    requires MultipleOf(r, d) && !MultipleOf(unit, d)
    ensures !MultipleOf(r + unit, d) && !MultipleOf(r - unit, d)
  {
    if MultipleOf(r + unit, d) {
      DifferenceOfMultiples(r + unit, r, d);
    }
    if MultipleOf(r - unit, d) {
      DifferenceOfMultiples(r, r - unit, d);
    }
  }

  lemma TimesNext(k: int, unit: real)
    ensures Times(k + 1, unit) == Times(k, unit) + unit && Times(k - 1, unit) == Times(k, unit) - unit
  {
  }

  /** The next number that is read, and the one before. */
  lemma Neighbours(n: Numeral) returns (next: Numeral, previous: Numeral)
    requires !Declined(n)
    ensures !Declined(next) && Denoted(next) == Denoted(n) + Unit()
    ensures !Declined(previous) && Denoted(previous) == Denoted(n) - Unit()
  {
    var k := ReadIsUnits(n);
    UnitsRead(k + 1);
    UnitsRead(k - 1);
    TimesNext(k, Unit());
    next, previous := Units(k + 1), Units(k - 1);
  }

  /** Nothing between two neighbours is read. */
  lemma AtLeastNext(m: Numeral, n: Numeral)
    requires !Declined(m) && !Declined(n) && Denoted(m) < Denoted(n)
    ensures Denoted(m) + Unit() <= Denoted(n)
  {
    var i := ReadIsUnits(m);
    var k := ReadIsUnits(n);
    ScaledPositive(1, -MAX_SHIFT);
    OrderedTimes(i, k, Unit());
  }

  lemma OrderedTimes(i: int, k: int, unit: real)
    requires unit > 0.0 && Times(i, unit) < Times(k, unit)
    ensures Times(i, unit) + unit <= Times(k, unit)
  {
    if k <= i {
      TimesMonotone(k, i, unit);
      assert false;
    }
    TimesNext(i, unit);
    TimesMonotone(i + 1, k, unit);
  }

  lemma StepSlips(low: Option<Numeral>, high: Option<Numeral>, step: Option<Numeral>) returns (n: Numeral)
    requires low.Some? ==> !Declined(low.value)
    requires high.Some? ==> !Declined(high.value)
    requires !StepBinds(low, high, step)
    ensures Slips(low, high, step, n)
  {
    var d := Denoted(step.value);
    ScaledPositive(1, -MAX_SHIFT);
    if low.Some? {
      n := StepSlipsAbove(low.value, high, d);
    } else if high.Some? {
      n := StepSlipsBelow(high.value, d);
    } else {
      UnitsRead(1);
      n := Units(1);
    }
  }

  lemma StepSlipsAbove(low: Numeral, high: Option<Numeral>, d: real) returns (n: Numeral)
    requires !Declined(low) && (high.Some? ==> !Declined(high.value))
    requires !MultipleOf(Unit(), d) && !Pinched(Some(low), high, d)
    ensures !Declined(n) && Denoted(low) <= Denoted(n) && AtMost(high, Denoted(n)) && !MultipleOf(Denoted(n), d)
  {
    if MultipleOf(Denoted(low), d) {
      var next, previous := Neighbours(low);
      NeighbourIsNoMultiple(Denoted(low), Unit(), d);
      ScaledPositive(1, -MAX_SHIFT);
      if high.Some? {
        AtLeastNext(low, high.value);
      }
      n := next;
    } else {
      n := low;
    }
  }

  lemma StepSlipsBelow(high: Numeral, d: real) returns (n: Numeral)
    requires !Declined(high) && !MultipleOf(Unit(), d)
    ensures !Declined(n) && Denoted(n) <= Denoted(high) && !MultipleOf(Denoted(n), d)
  {
    if MultipleOf(Denoted(high), d) {
      var next, previous := Neighbours(high);
      NeighbourIsNoMultiple(Denoted(high), Unit(), d);
      ScaledPositive(1, -MAX_SHIFT);
      n := previous;
    } else {
      n := high;
    }
  }

  lemma NoneSlips(low: Option<Numeral>, high: Option<Numeral>, step: Option<Numeral>, n: Numeral)
    requires AllBind(low, high, step)
    ensures !Slips(low, high, step, n)
  {
    if !Declined(n) && step.Some? && Declined(step.value) {
      var k := ReadIsUnits(n);
      assert MultipleOf(Denoted(n), Unit());
      if MultipleOf(Unit(), Denoted(step.value)) {
        MultipleOfMultiple(Denoted(n), Unit(), Denoted(step.value));
      }
    }
  }

  function BoundsOf(s: Fields): (Option<Numeral>, Option<Numeral>, Option<Numeral>)
  {
    (Literal(s, "minimum"), Literal(s, "maximum"), Literal(s, "multipleOf"))
  }

  /** Every number that is read and accepted is within the bounds of a schema exactly when minimum and
      maximum are read, and so is the step unless it is zero, finer than all that is read, or without
      effect between the two. */
  lemma BoundsBindIff(s: Fields)
    ensures var b := BoundsOf(s);
            (forall n :: !Declined(n) && BoundsHold(s, Number(n)) ==> BoundsMeant(s, Number(n))) <==>
            AllBind(b.0, b.1, b.2)
  {
    var (low, high, step) := BoundsOf(s);
    forall n: Numeral ensures Slips(low, high, step, n) <==>
                              !Declined(n) && BoundsHold(s, Number(n)) && !BoundsMeant(s, Number(n))
    {
      BoundsEnforced(s, n);
    }
    if AllBind(low, high, step) {
      forall n: Numeral ensures !Slips(low, high, step, n) { NoneSlips(low, high, step, n); }
    } else if low.Some? && Declined(low.value) {
      var n := LowSlips(low, high, step);
    } else if high.Some? && Declined(high.value) {
      var n := HighSlips(low, high, step);
    } else {
      var n := StepSlips(low, high, step);
    }
  }

  /** One keyword at a time: a minimum or a maximum binds what is read exactly when it is read itself,
      for below and above every number there is one that is read. */
  lemma EachBoundIff(m: Numeral)
    ensures (forall n :: !Declined(n) && BoundsHold(map["minimum" := Number(m)], Number(n)) ==>
                           Denoted(m) <= Denoted(n)) <==> !Declined(m)
    ensures (forall n :: !Declined(n) && BoundsHold(map["maximum" := Number(m)], Number(n)) ==>
                           Denoted(n) <= Denoted(m)) <==> !Declined(m)
    ensures (forall n :: !Declined(n) && BoundsHold(map["multipleOf" := Number(m)], Number(n)) ==>
                           InSteps(Some(m), Denoted(n))) <==>
            !Declined(m) || Denoted(m) == 0.0 || MultipleOf(Unit(), Denoted(m))
  {
    BoundsBindIff(map["minimum" := Number(m)]);
    BoundsBindIff(map["maximum" := Number(m)]);
    BoundsBindIff(map["multipleOf" := Number(m)]);
  }

  /** The bounds of a schema are all read. */
  ghost predicate BoundsRead(s: Fields)
  {
    var b := BoundsOf(s);
    Read(b.0) == b.0 && Read(b.1) == b.1 && Read(b.2) == b.2
  }

  /** If nothing is declined, bounds are enforced exactly. */
  lemma ReadBoundsExact(s: Fields, n: Numeral)
    requires BoundsRead(s) && !Declined(n)
    ensures BoundsHold(s, Number(n)) <==> BoundsMeant(s, Number(n))
  {
    BoundsEnforced(s, n);
  }

  /** From the side of the value: bounds that are read bind a number exactly when it is read itself. */
  lemma ValueBoundIff(n: Numeral)
    ensures (forall s: Fields :: BoundsRead(s) && BoundsHold(s, Number(n)) ==> BoundsMeant(s, Number(n))) <==>
            !Declined(n)
  {
    if Declined(n) {
      var k := if Denoted(n) < 0.0 then 0 else Denoted(n).Floor + 1;
      PlainDenotes(k);
      var s: Fields := map["minimum" := Number(Plain(k))];
      assert Denoted(n) < k as real;
      assert BoundsRead(s) && BoundsHold(s, Number(n)) && !BoundsMeant(s, Number(n));
    } else {
      forall s: Fields | BoundsRead(s) && BoundsHold(s, Number(n)) ensures BoundsMeant(s, Number(n)) {
        ReadBoundsExact(s, n);
      }
    }
  }

  // ---------- which bounds bind all numbers ----------

  /** A declined spelling of a number gets past any bounds. */
  lemma ObscuredPasses(s: Fields, n: Numeral)
    ensures BoundsHold(s, Number(Obscured(n, 0)))
    ensures BoundsMeant(s, Number(Obscured(n, 0))) <==> BoundsMeant(s, Number(n))
  {
    ObscuredFacts(n, 0);
    BoundsEnforced(s, Obscured(n, 0));
  }

  lemma {:induction false} ScaledShrinks(e: int)
    requires e >= 0
    ensures Scaled(1, -e) > 0.0 && Times(e + 1, Scaled(1, -e)) <= 1.0
  {
    if e > 0 {
      ScaledShrinks(e - 1);
      var x := Scaled(1, -(e - 1));
      assert Scaled(1, -e) == 0.1 * x;
      TenthTimes(e, x);
    }
  }

  lemma TenthTimes(e: int, x: real)
    requires e > 0 && x > 0.0 && Times(e, x) <= 1.0
    ensures Times(e + 1, 0.1 * x) <= 1.0
  {
    var a := e as real;
    assert (a + 1.0) * (0.1 * x) == 0.1 * (a * x) + 0.1 * x;
    assert x <= a * x;
  }

  /** A number between zero and any other. */
  lemma Finer(d: real) returns (n: Numeral)
    requires d != 0.0
    ensures 0.0 < Denoted(n) < (if d < 0.0 then -d else d)
  {
    var width := if d < 0.0 then -d else d;
    var e := Archimedes(1.0, width);
    DigitsRead(e);
    n := Numeral(false, "1", "", Exponent('e', Minus, Digits(e)));
    assert DigitsValue("1"[..0]) == 0;
    UnitsDenote(n, 1, -e);
    ScaledShrinks(e);
    Narrower(e, Scaled(1, -e), width);
  }

  lemma Narrower(e: int, x: real, width: real)
    requires e >= 0 && Times(e + 1, x) <= 1.0 < Times(e, width) && width > 0.0
    ensures x < width
  {
    var a := e as real;
    assert Times(e + 1, x) == a * x + x;
    assert x >= width ==> a * (x - width) >= 0.0;
  }

  lemma TooFine(r: real, d: real)
    requires 0.0 < r < (if d < 0.0 then -d else d)
    ensures !MultipleOf(r, d)
  {
    forall k ensures r != Times(k, d) {
      if d > 0.0 {
        NotBetween(k, d);
      } else {
        NotBetween(-k, -d);
        assert Times(-k, -d) == Times(k, d);
      }
    }
  }

  lemma NotBetween(k: int, d: real)
    requires d > 0.0
    ensures Times(k, d) <= 0.0 || Times(k, d) >= d
  {
    if k <= 0 {
      TimesMonotone(k, 0, d);
    } else {
      TimesMonotone(1, k, d);
    }
  }

  /** A number outside the bounds, if there are any. */
  lemma Outside(s: Fields) returns (n: Numeral)
    requires var b := BoundsOf(s);
             b.0.Some? || b.1.Some? || (b.2.Some? && Denoted(b.2.value) != 0.0)
    ensures !BoundsMeant(s, Number(n))
  {
    var (low, high, step) := BoundsOf(s);
    ScaledPositive(1, -MAX_SHIFT);
    if low.Some? {
      var k := FarBelow(Denoted(low.value), Unit(), 1);
      UnitsRead(k);
      n := Units(k);
    } else if high.Some? {
      var k := FarAbove(Denoted(high.value), Unit(), 1);
      UnitsRead(k);
      n := Units(k);
    } else {
      n := Finer(Denoted(step.value));
      TooFine(Denoted(n), Denoted(step.value));
    }
  }

  /** Over all numbers, spelled in any way, only a schema without bounds is enforced. */
  lemma BoundsBindAllIff(s: Fields)
    ensures var b := BoundsOf(s);
            (forall n :: BoundsHold(s, Number(n)) ==> BoundsMeant(s, Number(n))) <==>
            b.0.None? && b.1.None? && (b.2.None? || Denoted(b.2.value) == 0.0)
  {
    var (low, high, step) := BoundsOf(s);
    if !(low.None? && high.None? && (step.None? || Denoted(step.value) == 0.0)) {
      var n := Outside(s);
      ObscuredPasses(s, n);
    }
  }

  // ---------- lengths ----------

  /** The lengths of a string are natural numbers, so a declined minimum that is not above zero, or
      under a maximum below zero, does no harm. */
  ghost predicate LengthsBind(low: Option<Numeral>, high: Option<Numeral>)
  {
    && (high.Some? ==> !Declined(high.value))
    && (low.Some? && Declined(low.value) ==>
          Denoted(low.value) <= 0.0 || (high.Some? && Denoted(high.value) < 0.0))
  }

  function Repeated(k: nat): string { seq(k, _ => 'x') }

  /** Every accepted string has a length within the bounds exactly when these are so. */
  lemma LengthsBindIff(s: Fields)
    ensures (forall text :: LengthHolds(s, Str(text)) ==> LengthMeant(s, Str(text))) <==>
            LengthsBind(Literal(s, "minLength"), Literal(s, "maxLength"))
  {
    var low, high := Literal(s, "minLength"), Literal(s, "maxLength");
    if high.Some? && Declined(high.value) {
      var b := if low.Some? && Denoted(low.value) > Denoted(high.value) then Denoted(low.value)
               else Denoted(high.value);
      var n := Archimedes(b, 1.0);
      var text := Repeated(n);
      LengthEnforced(s, text);
      assert LengthHolds(s, Str(text)) && !LengthMeant(s, Str(text));
    } else if LengthsBind(low, high) {
      forall text | LengthHolds(s, Str(text)) ensures LengthMeant(s, Str(text)) {
        LengthEnforced(s, text);
      }
    } else {
      LengthEnforced(s, "");
      assert LengthHolds(s, Str("")) && !LengthMeant(s, Str(""));
    }
  }

  // ---------- integers ----------

  /** The type of a value, whatever literal is used. */
  ghost predicate TypeMeant(v: Value, name: string)
  {
    if name == "integer" then v.Number? && Whole(Denoted(v.numeral)) else HasType(v, name)
  }

  /** The digits that the shift of the literal puts behind the point are not all zeros. */
  predicate Fractional(n: Numeral) { Shift(n) < 0 && Mantissa(n) % Power10(-Shift(n)) != 0 }

  /** The type of a number is told exactly when it is read or has a fractional part. */
  lemma TypeIff(n: Numeral)
    ensures (forall name :: HasType(Number(n), name) <==> TypeMeant(Number(n), name)) <==>
            !Declined(n) || Fractional(n)
  {
    WholeIff(n);
    if Declined(n) && !Fractional(n) {
      assert TypeMeant(Number(n), "integer") && !HasType(Number(n), "integer");
    }
  }

  // ---------- inputs ----------

  /** A literal beyond the limit of exact parsing passes a maximum that it exceeds, as a bound it keeps
      no smaller number out and no string short, and it is no integer. */
  lemma HugeEscapes(text: string)
    ensures Denoted(Huge()) > Denoted(Plain(1)) && Whole(Denoted(Huge()))
    ensures BoundsHold(map["maximum" := Number(Plain(1))], Number(Huge()))
    ensures BoundsHold(map["minimum" := Number(Huge())], Number(Plain(1)))
    ensures LengthHolds(map["minLength" := Number(Huge())], Str(text))
    ensures !HasType(Number(Huge()), "integer")
  {
    HugeDeclined();
    PlainDenotes(1);
    HugeIsWhole();
    BoundsEnforced(map["maximum" := Number(Plain(1))], Huge());
    BoundsEnforced(map["minimum" := Number(Huge())], Plain(1));
    LengthEnforced(map["minLength" := Number(Huge())], text);
  }

  lemma HugeIsWhole()
    ensures Whole(Denoted(Huge()))
  {
    DigitsRead(MAX_SHIFT + 1);
    assert Shift(Huge()) == MAX_SHIFT + 1;
    WholeIff(Huge());
  }
}
