/** What a whole argument schema means, against what the validator accepts
    (internal/capability/schema.go). */
module SchemaMeaning {

  import opened Wrappers
  import opened Json
  import opened Numerals
  import opened BoundMeaning
  import opened EnumMeaning
  import opened Schema
  import Registry

  // ---------- additionalProperties ----------

  function Declared(s: Fields): set<string> { if Properties(s).Some? then Properties(s).value.Keys else {} }

  function RequiredSet(s: Fields): set<string>
  {
    set r | r in RequiredNames(s) && r.Str? :: r.text
  }

  /** No object conforms, whatever its fields. */
  predicate NoObject(s: Fields) { TypeName(s).Some? && TypeName(s).value != "object" }

  /** `additionalProperties: false` shuts out every undeclared field exactly when `properties` is an
      object, or the schema's own type already shuts out every object. */
  lemma ClosedIff(s: Fields)
    requires ClosedToOthers(s)
    ensures (forall v: Value :: v.Object? && ObjectConforms(s, v) ==> v.fields.Keys <= Declared(s)) <==>
            Properties(s).Some? || NoObject(s)
  {
    if Properties(s).None? && !NoObject(s) {
      var v := Object(map name | name in RequiredSet(s) + {"extra"} :: Null);
      assert ObjectConforms(s, v);
      assert "extra" in v.fields.Keys;
    }
  }

  // ---------- the meaning of a schema ----------

  function EnumOf(s: Fields): Option<seq<Value>>
  {
    if "enum" in s && s["enum"].Array? then Some(s["enum"].items) else None
  }

  ghost predicate EnumMeant(s: Fields, v: Value) { EnumOf(s).Some? ==> Listed(EnumOf(s).value, v) }

  /** The keywords that look at the value alone. */
  ghost predicate OwnMeant(s: Fields, v: Value)
  {
    && (TypeName(s).Some? ==> TypeMeant(v, TypeName(s).value))
    && EnumMeant(s, v) && BoundsMeant(s, v) && LengthMeant(s, v)
  }

  /** The same keywords as the validator applies them. */
  ghost predicate OwnHolds(s: Fields, v: Value)
  {
    && (TypeName(s).Some? ==> HasType(v, TypeName(s).value))
    && EnumHolds(s, v) && BoundsHold(s, v) && LengthHolds(s, v)
  }

  ghost predicate SchemaMeant(s: Fields, v: Value)
    decreases v, 1
  {
    && OwnMeant(s, v)
    && (v.Array? && "items" in s && s["items"].Object? ==>
          forall i :: 0 <= i < |v.items| ==> SchemaMeant(s["items"].fields, v.items[i]))
    && (v.Object? ==> ObjectMeant(s, v))
  }

  ghost predicate ObjectMeant(s: Fields, v: Value)
    requires v.Object?
    decreases v, 0
  {
    && !NoObject(s)
    && RequiredSet(s) <= v.fields.Keys
    && (ClosedToOthers(s) ==> v.fields.Keys <= Declared(s))
    && forall name :: name in Declared(s) && name in v.fields && Properties(s).value[name].Object? ==>
                        SchemaMeant(Properties(s).value[name].fields, v.fields[name])
  }

  // ---------- schemas and values without a trap ----------

  /** Every number inside the value is read. */
  predicate ReadThroughout(v: Value)
    decreases v
  {
    match v
    case Number(n) => !Declined(n)
    case Array(items) => forall i :: 0 <= i < |items| ==> ReadThroughout(items[i])
    case Object(fields) => forall k :: k in fields ==> ReadThroughout(fields[k])
    case _ => true
  }

  /** A text that a list or an object may print as. */
  predicate PrintsLikeParts(text: string) { text != "" && (text[0] == '[' || "map[" <= text) }

  ghost predicate EnumClear(list: seq<Value>)
  {
    && ScalarList(list) && NamesClosed(list) && TextsClosed(list) && NumbersRead(list)
    && forall e :: e in list && e.Str? ==> !PrintsLikeParts(e.text)
  }

  ghost predicate OwnClear(s: Fields)
  {
    && AllBind(BoundsOf(s).0, BoundsOf(s).1, BoundsOf(s).2)
    && LengthsBind(Literal(s, "minLength"), Literal(s, "maxLength"))
    && (EnumOf(s).Some? ==> EnumClear(EnumOf(s).value))
    && (ClosedToOthers(s) ==> Properties(s).Some? || NoObject(s))
  }

  /** The exact conditions of the single keywords, at every level of the schema. */
  ghost predicate Clear(schema: Value)
    decreases schema
  {
    schema.Object? ==>
      var s := schema.fields;
      && OwnClear(s)
      && ("items" in s ==> Clear(s["items"]))
      && (Properties(s).Some? ==> forall name :: name in Properties(s).value ==> Clear(Properties(s).value[name]))
  }

  // ---------- under these conditions the validator enforces the schema ----------

  lemma EnumMeantWhenClear(list: seq<Value>, v: Value)
    requires EnumClear(list) && ReadThroughout(v)
    ensures Matched(list, v) <==> Listed(list, v)
  {
    if Scalar(v) {
      ReadEnumIff(list);
      assert ReadScalar(v);
    } else {
      forall e | e in list ensures !EnumMatch(e, v) && !SameValue(e, v) {
        PartsPrintApart(e, v);
      }
    }
  }

  lemma PartsPrintApart(e: Value, v: Value)
    requires Scalar(e) && !Scalar(v) && (e.Str? ==> !PrintsLikeParts(e.text))
    ensures !EnumMatch(e, v) && !SameValue(e, v)
  {
    FormatParts(v);
    assert Format(v)[0] == '[' || "map[" <= Format(v);
    if e.Number? {
      SpelledStart(e.numeral);
    }
  }

  lemma OwnMeantWhenClear(s: Fields, v: Value)
    requires OwnClear(s) && ReadThroughout(v)
    ensures OwnHolds(s, v) <==> OwnMeant(s, v)
  {
    NeverTooStrict(s, v);
    if v.Number? {
      TypeIff(v.numeral);
      BoundsBindIff(s);
    } else if v.Str? {
      LengthsBindIff(s);
    }
    if EnumOf(s).Some? {
      EnumMeantWhenClear(EnumOf(s).value, v);
    }
  }

  lemma RequiredMeant(s: Fields, fields: map<string, Value>)
    ensures (forall r :: r in RequiredNames(s) && r.Str? ==> r.text in fields) <==> RequiredSet(s) <= fields.Keys
  {
  }

  /** On a schema without traps and arguments whose numbers are all read, the validator accepts exactly
      what the schema means. */
  lemma {:induction false} ConformsIsMeant(s: Fields, v: Value)
    requires Clear(Object(s)) && ReadThroughout(v)
    ensures Conforms(s, v) <==> SchemaMeant(s, v)
    decreases v, 1
  {
    OwnMeantWhenClear(s, v);
    if v.Array? && "items" in s && s["items"].Object? {
      forall i | 0 <= i < |v.items|
        ensures Conforms(s["items"].fields, v.items[i]) <==> SchemaMeant(s["items"].fields, v.items[i])
      {
        ItemsClear(s);
        ConformsIsMeant(s["items"].fields, v.items[i]);
      }
    }
    if v.Object? {
      ObjectIsMeant(s, v);
    }
  }

  lemma ItemsClear(s: Fields)
    requires Clear(Object(s)) && "items" in s && s["items"].Object?
    ensures Clear(Object(s["items"].fields))
  {
    assert Object(s["items"].fields) == s["items"];
  }

  lemma PropertyClear(s: Fields, name: string)
    requires Clear(Object(s)) && Properties(s).Some? && name in Properties(s).value
        && Properties(s).value[name].Object?
    ensures Clear(Object(Properties(s).value[name].fields))
  {
    assert Object(Properties(s).value[name].fields) == Properties(s).value[name];
  }

  lemma {:induction false} ObjectIsMeant(s: Fields, v: Value)
    requires Clear(Object(s)) && v.Object? && ReadThroughout(v)
    ensures ObjectConforms(s, v) <==> ObjectMeant(s, v)
    decreases v, 0
  {
    RequiredMeant(s, v.fields);
    if Properties(s).Some? {
      var props := Properties(s).value;
      forall name | name in props && name in v.fields && props[name].Object?
        ensures Conforms(props[name].fields, v.fields[name]) <==> SchemaMeant(props[name].fields, v.fields[name])
      {
        PropertyClear(s, name);
        ConformsIsMeant(props[name].fields, v.fields[name]);
      }
    }
  }

  /** The verdict on arguments as sent. */
  lemma ArgumentsMeant(s: Fields, args: Registry.SchemaText)
    requires Clear(Object(s)) && (args.Document? ==> ReadThroughout(args.value))
    ensures Accepts(Registry.Document(Object(s)), args) <==>
            match args
            case NoSchema => ObjectMeant(s, Object(map[]))
            case NotJson => false
            case Document(v) => v.Object? && ObjectMeant(s, v)
  {
    if args.NoSchema? {
      ObjectIsMeant(s, Object(map[]));
    } else if args.Document? && args.value.Object? {
      ObjectIsMeant(s, args.value);
    }
  }
}
