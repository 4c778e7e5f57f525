/** What `enum` means, membership by value, against the printed texts that the validator compares
    (internal/capability/schema.go). */
module EnumMeaning {

  import opened Wrappers
  import opened Json
  import opened Numerals
  import opened Schema
  import opened Text

  // ---------- the meaning ----------

  ghost predicate Listed(list: seq<Value>, v: Value) { exists e :: e in list && SameValue(e, v) }

  ghost predicate Matched(list: seq<Value>, v: Value) { exists e :: e in list && EnumMatch(e, v) }

  /** A member that only prints like the value. */
  ghost predicate Confuses(e: Value, v: Value)
  {
    !BothExact(e, v) && Format(e) == Format(v) && !SameValue(e, v)
  }

  /** A member that is the value but prints differently. */
  ghost predicate Misses(e: Value, v: Value)
  {
    !BothExact(e, v) && Format(e) != Format(v) && SameValue(e, v)
  }

  lemma MatchIsSame(e: Value, v: Value)
    ensures EnumMatch(e, v) && !SameValue(e, v) <==> Confuses(e, v)
    ensures SameValue(e, v) && !EnumMatch(e, v) <==> Misses(e, v)
  {
  }

  /** For one value, the enum test is membership exactly when a member that only prints like the value
      comes with one that is it, and a member that is the value with one that matches it. */
  lemma EnumIff(list: seq<Value>, v: Value)
    ensures (Matched(list, v) <==> Listed(list, v)) <==>
            ((exists e :: e in list && Confuses(e, v)) ==> Listed(list, v)) &&
            ((exists e :: e in list && Misses(e, v)) ==> Matched(list, v))
  {
    forall e ensures EnumMatch(e, v) && !SameValue(e, v) <==> Confuses(e, v) { MatchIsSame(e, v); }
    forall e ensures SameValue(e, v) && !EnumMatch(e, v) <==> Misses(e, v) { MatchIsSame(e, v); }
  }

  // ---------- a declined spelling of every number inside a value ----------

  predicate NumberFree(v: Value)
    decreases v
  {
    match v
    case Number(_) => false
    case Array(items) => forall i :: 0 <= i < |items| ==> NumberFree(items[i])
    case Object(fields) => forall k :: k in fields ==> NumberFree(fields[k])
    case _ => true
  }

  function Obscure(v: Value, k: nat): Value
    decreases v
  {
    match v
    case Number(n) => Number(Obscured(n, k))
    case Array(items) => Array(seq(|items|, i requires 0 <= i < |items| => Obscure(items[i], k)))
    case Object(fields) => Object(map name | name in fields :: Obscure(fields[name], k))
    case _ => v
  }

  lemma {:induction false} ObscureSame(v: Value, k: nat)
    ensures SameValue(v, Obscure(v, k))
    decreases v
  {
    match v
    case Number(n) =>
      ObscuredFacts(n, k);
    case Array(items) =>
      forall i | 0 <= i < |items| ensures SameValue(items[i], Obscure(v, k).items[i]) {
        ObscureSame(items[i], k);
      }
    case Object(fields) =>
      forall name | name in fields ensures SameValue(fields[name], Obscure(v, k).fields[name]) {
        ObscureSame(fields[name], k);
      }
    case _ =>
  }

  lemma {:induction false} JoinLength(parts: seq<string>, sep: char, i: nat)
    requires i < |parts|
    ensures |Join(parts, sep)| >= |parts[i]|
    decreases |parts|
  {
    if |parts| > 1 && i > 0 {
      JoinLength(parts[1..], sep, i - 1);
    }
  }

  /** The printed items of a list. */
  function ItemTexts(items: seq<Value>): seq<string>
  {
    seq(|items|, i requires 0 <= i < |items| => Format(items[i]))
  }

  function FieldTexts(fields: map<string, Value>): seq<string>
  {
    var keys := InOrder(fields.Keys);
    seq(|keys|, i requires 0 <= i < |keys| => keys[i] + ":" + Format(fields[keys[i]]))
  }

  lemma FormatParts(v: Value)
    ensures v.Array? ==> Format(v) == "[" + Join(ItemTexts(v.items), ' ') + "]"
    ensures v.Object? ==> Format(v) == "map[" + Join(FieldTexts(v.fields), ' ') + "]"
  {
  }

  lemma ItemLength(v: Value, i: nat)
    requires v.Array? && i < |v.items|
    ensures |Format(v)| >= |Format(v.items[i])|
  {
    FormatParts(v);
    JoinLength(ItemTexts(v.items), ' ', i);
  }

  lemma FieldLength(v: Value, name: string)
    requires v.Object? && name in v.fields
    ensures |Format(v)| >= |Format(v.fields[name])|
  {
    FormatParts(v);
    var keys := InOrder(v.fields.Keys);
    assert name in keys;
    var i :| 0 <= i < |keys| && keys[i] == name;
    JoinLength(FieldTexts(v.fields), ' ', i);
  }

  lemma {:induction false} ObscureLong(v: Value, k: nat)
    requires !NumberFree(v)
    ensures |Format(Obscure(v, k))| >= k
    decreases v
  {
    match v
    case Number(n) =>
      ObscuredFacts(n, k);
    case Array(items) =>
      var i :| 0 <= i < |items| && !NumberFree(items[i]);
      ObscureLong(items[i], k);
      ItemLength(Obscure(v, k), i);
    case Object(fields) =>
      var name :| name in fields && !NumberFree(fields[name]);
      ObscureLong(fields[name], k);
      FieldLength(Obscure(v, k), name);
  }

  function Longest(list: seq<Value>): (n: nat)
    ensures forall e :: e in list ==> |Format(e)| <= n
  {
    if list == [] then 0
    else
      var rest := Longest(list[1..]);
      assert list == [list[0]] + list[1..];
      if |Format(list[0])| > rest then |Format(list[0])| else rest
  }

  /** A member with a number inside has a spelling that the test does not find. */
  lemma ObscureMissed(list: seq<Value>, e: Value) returns (v: Value)
    requires e in list && !NumberFree(e)
    ensures Listed(list, v) && !Matched(list, v) && (e.Number? ==> v.Number?)
  {
    var k := Longest(list) + 1;
    v := Obscure(e, k);
    ObscureSame(e, k);
    ObscureLong(e, k);
    if e.Number? {
      ObscuredFacts(e.numeral, k);
    }
    assert Meant(Some(v)).None?;
  }

  // ---------- all values ----------

  lemma {:induction false} SameIsEqual(e: Value, v: Value)
    requires NumberFree(e) && SameValue(e, v)
    ensures e == v
    decreases e
  {
    match e
    case Array(items) =>
      forall i | 0 <= i < |items| ensures items[i] == v.items[i] {
        SameIsEqual(items[i], v.items[i]);
      }
      assert items == v.items;
    case Object(fields) =>
      forall k | k in fields ensures fields[k] == v.fields[k] {
        SameIsEqual(fields[k], v.fields[k]);
      }
      assert fields == v.fields;
    case _ =>
  }

  /** Whatever prints like a member is listed. */
  ghost predicate ClosedUnderPrinting(list: seq<Value>)
  {
    forall e, v :: e in list && Format(e) == Format(v) ==> Listed(list, v)
  }

  ghost predicate NumberFreeList(list: seq<Value>) { forall e :: e in list ==> NumberFree(e) }

  /** The enum test is membership for every value exactly when no member has a number inside and
      whatever prints like a member is listed too. */
  lemma EnumExactIff(list: seq<Value>)
    ensures (forall v :: Matched(list, v) <==> Listed(list, v)) <==> NumberFreeList(list) && ClosedUnderPrinting(list)
  {
    if NumberFreeList(list) {
      forall e, v | e in list ensures EnumMatch(e, v) <==> Format(e) == Format(v) {
        assert !e.Number?;
      }
      forall e, v | e in list && SameValue(e, v) ensures EnumMatch(e, v) {
        SameIsEqual(e, v);
      }
    } else {
      var e :| e in list && !NumberFree(e);
      var v := ObscureMissed(list, e);
    }
  }

  // ---------- scalars ----------

  predicate Scalar(v: Value) { !v.Array? && !v.Object? }

  predicate ScalarList(list: seq<Value>) { forall e :: e in list ==> Scalar(e) }

  ghost predicate SpellsNumber(text: string) { exists n :: Spelled(n) == text }

  lemma SpelledStart(n: Numeral)
    ensures Spelled(n)[0] == '-' || IsDigit(Spelled(n)[0])
    ensures Spelled(n) !in ["<nil>", "true", "false"]
  {
    assert IsDigit((n.whole + SpelledTail(n))[0]);
  }

  /** Null and the booleans are listed together with the texts they print as. */
  predicate NamesClosed(list: seq<Value>)
  {
    && (Null in list <==> Str("<nil>") in list)
    && (Bool(true) in list <==> Str("true") in list)
    && (Bool(false) in list <==> Str("false") in list)
  }

  /** Two scalars that print alike are the same, or a name and its text, or a number and its text. */
  lemma PrintsAlike(e: Value, v: Value)
    requires Scalar(e) && Scalar(v) && Format(e) == Format(v) && e != v
    ensures e.Str? != v.Str?
    ensures var named := if e.Str? then v else e;
            var text := if e.Str? then e else v;
            named in [Null, Bool(true), Bool(false)] || (named.Number? && text == Str(Spelled(named.numeral)))
    ensures e.Null? || v.Null? ==> Str("<nil>") in [e, v]
    ensures Bool(true) in [e, v] ==> Str("true") in [e, v]
    ensures Bool(false) in [e, v] ==> Str("false") in [e, v]
  {
    if e.Number? { SpelledStart(e.numeral); }
    if v.Number? { SpelledStart(v.numeral); }
    if e.Number? && v.Number? { SpelledInjective(e.numeral, v.numeral); }
  }

  lemma ListedScalar(list: seq<Value>, v: Value)
    requires !v.Number? && Scalar(v)
    ensures Listed(list, v) <==> v in list
  {
    assert SameValue(v, v);
  }

  /** The test is membership for the text of a listed name, and for the name of a listed text. */
  lemma NamesNeeded(list: seq<Value>)
    requires forall v :: Scalar(v) && !v.Number? ==> (Matched(list, v) <==> Listed(list, v))
    ensures NamesClosed(list)
  {
    NameNeeded(list, Null, "<nil>");
    NameNeeded(list, Bool(true), "true");
    NameNeeded(list, Bool(false), "false");
  }

  lemma NameNeeded(list: seq<Value>, name: Value, text: string)
    requires forall v :: Scalar(v) && !v.Number? ==> (Matched(list, v) <==> Listed(list, v))
    requires (name.Null? || name.Bool?) && Format(name) == text
    ensures name in list <==> Str(text) in list
  {
    assert EnumMatch(name, Str(text)) && EnumMatch(Str(text), name);
    ListedScalar(list, name);
    ListedScalar(list, Str(text));
  }

  lemma NamesSuffice(list: seq<Value>, e: Value, v: Value)
    requires NamesClosed(list) && e in list && Scalar(e) && Scalar(v) && Format(e) == Format(v)
    requires !e.Number? && !v.Number?
    ensures v in list
  {
    if e != v {
      PrintsAlike(e, v);
    }
  }

  /** For a list of scalars the enum test is membership for every scalar exactly when the list has no
      number, no text that spells one, and null, true and false only together with their texts: every
      number has a spelling that is declined, and so is found under no other. */
  lemma ScalarEnumIff(list: seq<Value>)
    requires ScalarList(list)
    ensures (forall v :: Scalar(v) ==> (Matched(list, v) <==> Listed(list, v))) <==>
            (forall e :: e in list ==> !e.Number? && !(e.Str? && SpellsNumber(e.text))) && NamesClosed(list)
  {
    if forall v :: Scalar(v) ==> (Matched(list, v) <==> Listed(list, v)) {
      NamesNeeded(list);
      forall e | e in list ensures !e.Number? {
        if e.Number? {
          var v := ObscureMissed(list, e);
          assert false;
        }
      }
      forall e | e in list && e.Str? ensures !SpellsNumber(e.text) {
        forall n ensures Spelled(n) != e.text {
          TextNotSpelled(list, e, n);
        }
      }
    }
    if (forall e :: e in list ==> !e.Number? && !(e.Str? && SpellsNumber(e.text))) && NamesClosed(list) {
      forall v | Scalar(v) ensures Matched(list, v) <==> Listed(list, v) {
        NumberFreeScalars(list, v);
      }
    }
  }

  lemma TextNotSpelled(list: seq<Value>, e: Value, n: Numeral)
    requires e in list && e.Str? && (forall x :: x in list ==> !x.Number?)
    requires Matched(list, Number(n)) <==> Listed(list, Number(n))
    ensures Spelled(n) != e.text
  {
    assert Spelled(n) == e.text ==> EnumMatch(e, Number(n));
  }

  lemma NumberFreeScalars(list: seq<Value>, v: Value)
    requires ScalarList(list) && Scalar(v) && NamesClosed(list)
    requires forall e :: e in list ==> !e.Number? && !(e.Str? && SpellsNumber(e.text))
    ensures Matched(list, v) <==> Listed(list, v)
  {
    if e :| e in list && EnumMatch(e, v) {
      assert Format(e) == Format(v);
      if v.Number? {
        PrintsAlike(e, v);
        assert false;
      }
      NamesSuffice(list, e, v);
      ListedScalar(list, v);
    }
    if e :| e in list && SameValue(e, v) {
      assert e == v && EnumMatch(e, v);
    }
  }

  // ---------- scalars that are read ----------

  predicate ReadScalar(v: Value) { Scalar(v) && (v.Number? ==> !Declined(v.numeral)) }

  /** Numbers are listed together with their texts, and texts that spell a number with one of its value. */
  ghost predicate TextsClosed(list: seq<Value>)
  {
    && (forall n :: Number(n) in list ==> Str(Spelled(n)) in list)
    && (forall n :: Str(Spelled(n)) in list && !Declined(n) ==> Listed(list, Number(n)))
  }

  ghost predicate ListedRead(list: seq<Value>, r: real)
  {
    exists n :: Number(n) in list && !Declined(n) && Denoted(n) == r
  }

  /** A declined number is listed only where no spelling of it is read, or with one that is. */
  ghost predicate NumbersRead(list: seq<Value>)
  {
    forall n :: Number(n) in list && Declined(n) && Readable(Denoted(n)) ==> ListedRead(list, Denoted(n))
  }

  /** A spelling that is read, of `k` characters or more. */
  lemma LongRead(r: real, k: nat) returns (n: Numeral)
    requires Readable(r)
    ensures !Declined(n) && Denoted(n) == r && |Spelled(n)| >= k
  {
    ReadableIff(r);
    var i :| r == Times(i, Unit());
    UnitsRead(i);
    var u := Units(i);
    n := u.(exponent := u.exponent.(digits := Zeros(k) + u.exponent.digits));
    LeadingZeros(k, u.exponent.digits, DigitsValue(u.exponent.digits));
    assert ExponentValue(n.exponent) == ExponentValue(u.exponent);
  }

  lemma NumberNeedsRead(list: seq<Value>, n: Numeral)
    requires forall v :: ReadScalar(v) ==> (Matched(list, v) <==> Listed(list, v))
    requires Number(n) in list && Readable(Denoted(n))
    ensures ListedRead(list, Denoted(n))
  {
    var m := LongRead(Denoted(n), Longest(list) + 1);
    var v := Number(m);
    assert SameValue(Number(n), v) && Listed(list, v) && ReadScalar(v);
    LongMatchIsRead(list, m);
  }

  lemma LongMatchIsRead(list: seq<Value>, m: Numeral)
    requires Matched(list, Number(m)) && |Spelled(m)| > Longest(list)
    ensures ListedRead(list, Denoted(m))
  {
    var v := Number(m);
    var e :| e in list && EnumMatch(e, v);
    assert BothExact(e, v);
  }

  lemma TextNeeded(list: seq<Value>, n: Numeral)
    requires forall v :: ReadScalar(v) ==> (Matched(list, v) <==> Listed(list, v))
    ensures Number(n) in list ==> Str(Spelled(n)) in list
    ensures Str(Spelled(n)) in list && !Declined(n) ==> Listed(list, Number(n))
  {
    var number, text := Number(n), Str(Spelled(n));
    assert EnumMatch(number, text) && EnumMatch(text, number);
    ListedScalar(list, text);
  }

  lemma ReadMatchListed(list: seq<Value>, v: Value)
    requires ScalarList(list) && ReadScalar(v) && NamesClosed(list) && TextsClosed(list) && Matched(list, v)
    ensures Listed(list, v)
  {
    var e :| e in list && EnumMatch(e, v);
    if !BothExact(e, v) && e != v {
      PrintsAlike(e, v);
      if e.Number? || v.Number? {
        ListedText(list, e, v);
      } else {
        NamesSuffice(list, e, v);
        ListedScalar(list, v);
      }
    }
  }

  lemma ListedText(list: seq<Value>, e: Value, v: Value)
    requires TextsClosed(list) && e in list && ReadScalar(v)
    requires (e.Number? && v == Str(Spelled(e.numeral))) || (v.Number? && e == Str(Spelled(v.numeral)))
    ensures Listed(list, v)
  {
    if v.Str? {
      ListedScalar(list, v);
    }
  }

  lemma ReadListedMatch(list: seq<Value>, v: Value)
    requires ScalarList(list) && ReadScalar(v) && NumbersRead(list) && Listed(list, v)
    ensures Matched(list, v)
  {
    var e :| e in list && SameValue(e, v);
    if v.Number? {
      assert Readable(Denoted(v.numeral));
      assert Declined(e.numeral) ==> ListedRead(list, Denoted(v.numeral));
      ReadNumberMatch(list, v.numeral);
    } else {
      assert e == v && EnumMatch(e, v);
    }
  }

  lemma ReadNumberMatch(list: seq<Value>, m: Numeral)
    requires !Declined(m) && ListedRead(list, Denoted(m))
    ensures Matched(list, Number(m))
  {
    var n :| Number(n) in list && !Declined(n) && Denoted(n) == Denoted(m);
    assert EnumMatch(Number(n), Number(m));
  }

  /** For a list of scalars the enum test is membership for every scalar that is read exactly when
      names, numbers and texts are listed together where they print alike, and every listed number that
      can be read is listed so that it is. */
  lemma ReadEnumIff(list: seq<Value>)
    requires ScalarList(list)
    ensures (forall v :: ReadScalar(v) ==> (Matched(list, v) <==> Listed(list, v))) <==>
            NamesClosed(list) && TextsClosed(list) && NumbersRead(list)
  {
    if forall v :: ReadScalar(v) ==> (Matched(list, v) <==> Listed(list, v)) {
      NamesNeeded(list);
      forall n: Numeral ensures Number(n) in list ==> Str(Spelled(n)) in list { TextNeeded(list, n); }
      forall n: Numeral ensures Str(Spelled(n)) in list && !Declined(n) ==> Listed(list, Number(n)) {
        TextNeeded(list, n);
      }
      forall n | Number(n) in list && Declined(n) && Readable(Denoted(n)) ensures ListedRead(list, Denoted(n)) {
        NumberNeedsRead(list, n);
      }
    }
    if NamesClosed(list) && TextsClosed(list) && NumbersRead(list) {
      forall v | ReadScalar(v) ensures Matched(list, v) <==> Listed(list, v) {
        if Matched(list, v) { ReadMatchListed(list, v); }
        if Listed(list, v) { ReadListedMatch(list, v); }
      }
    }
  }

  // ---------- inputs ----------

  /** The string "1" passes an enum that lists only the number 1. */
  lemma EnumConfusesTextAndNumber()
    ensures Matched([Number(Plain(1))], Str("1")) && !Listed([Number(Plain(1))], Str("1"))
  {
    var one := Number(Plain(1));
    assert Format(one) == "1" == Format(Str("1"));
    assert EnumMatch(one, Str("1"));
  }

  /** 1E1000001 is refused where 1e1000001 is listed, and the list [1.0] where the list [1] is. */
  lemma EnumMissesSpellings()
    ensures var capital := Huge().(exponent := Huge().exponent.(mark := 'E'));
            Listed([Number(Huge())], Number(capital)) && !Matched([Number(Huge())], Number(capital))
    ensures var one, same := Array([Number(One("", NoExponent))]), Array([Number(One("0", NoExponent))]);
            Listed([one], same) && !Matched([one], same)
  {
    CapitalMissed();
    ListMissed();
  }

  lemma CapitalMissed()
    ensures var capital := Huge().(exponent := Huge().exponent.(mark := 'E'));
            Listed([Number(Huge())], Number(capital)) && !Matched([Number(Huge())], Number(capital))
  {
    HugeDeclined();
    MarkMatters(Huge(), Huge().(exponent := Huge().exponent.(mark := 'E')));
  }

  lemma MarkMatters(m: Numeral, n: Numeral)
    requires m.exponent.Exponent? && n == m.(exponent := m.exponent.(mark := 'E')) && m.exponent.mark == 'e'
    requires Declined(m)
    ensures Listed([Number(m)], Number(n)) && !Matched([Number(m)], Number(n))
  {
    if Spelled(m) == Spelled(n) {
      SpelledInjective(m, n);
      assert false;
    }
    assert SameValue(Number(m), Number(n));
  }

  lemma ListMissed()
    ensures var one, same := Array([Number(One("", NoExponent))]), Array([Number(One("0", NoExponent))]);
            Listed([one], same) && !Matched([one], same)
  {
    var one, same := Array([Number(One("", NoExponent))]), Array([Number(One("0", NoExponent))]);
    TrailingZero(One("", NoExponent));
    assert "" + "0" == "0";
    assert SameValue(one, same);
    FormatParts(one);
    FormatParts(same);
    assert Join(ItemTexts(one.items), ' ') == "1" && Join(ItemTexts(same.items), ' ') == "1.0";
    assert |Format(one)| == 3 && |Format(same)| == 5;
  }
}
