/** Argument validation against a capability's JSON Schema (internal/capability/schema.go). */
module Schema {

  import opened Wrappers
  import opened Json
  import opened Numerals
  import opened Text
  import Registry

  type Fields = map<string, Value>

  // ---------- reading a schema ----------

  function At(s: Fields, key: string): Option<Value> { if key in s then Some(s[key]) else None }

  /** The exact rational of a number, unless parsing declines it. */
  function Rational(v: Option<Value>): Option<real>
  {
    if v.Some? && v.value.Number? then Exact(v.value.numeral) else None
  }

  /** The number a value denotes, for the literals that are read at all. */
  function Meant(v: Option<Value>): Option<real>
  {
    if v.Some? && v.value.Number? && !Declined(v.value.numeral) then Some(Denoted(v.value.numeral)) else None
  }

  lemma RationalIsMeant(v: Option<Value>)
    ensures Rational(v) == Meant(v)
  {
    if v.Some? && v.value.Number? {
      ExactIsDenoted(v.value.numeral);
    }
  }

  function TypeName(s: Fields): Option<string>
  {
    if "type" in s && s["type"].Str? then Some(s["type"].text) else None
  }

  function Properties(s: Fields): Option<Fields>
  {
    if "properties" in s && s["properties"].Object? then Some(s["properties"].fields) else None
  }

  function RequiredNames(s: Fields): seq<Value>
  {
    if "required" in s && s["required"].Array? then s["required"].items else []
  }

  predicate ClosedToOthers(s: Fields) { "additionalProperties" in s && s["additionalProperties"] == Bool(false) }

  /** How `fmt` prints a value: lists in brackets, maps with their keys in order. */
  function Format(v: Value): string
    decreases v
  {
    match v
    case Null => "<nil>"
    case Bool(b) => if b then "true" else "false"
    case Number(n) => Spelled(n)
    case Str(t) => t
    case Array(items) => "[" + Join(seq(|items|, i requires 0 <= i < |items| => Format(items[i])), ' ') + "]"
    case Object(fields) =>
      var keys := InOrder(fields.Keys);
      "map[" + Join(seq(|keys|, i requires 0 <= i < |keys| => keys[i] + ":" + Format(fields[keys[i]])), ' ') + "]"
  }

  // ---------- what the validator takes to conform (what a schema means is in SchemaMeaning) ----------

  ghost predicate HasType(v: Value, name: string)
  {
    || (name == "null" && v.Null?)
    || (name == "boolean" && v.Bool?)
    || (name == "number" && v.Number?)
    || (name == "integer" && v.Number? && !Declined(v.numeral) && Whole(Denoted(v.numeral)))
    || (name == "string" && v.Str?)
    || (name == "array" && v.Array?)
    || (name == "object" && v.Object?)
  }

  ghost predicate BothExact(a: Value, b: Value) { Meant(Some(a)).Some? && Meant(Some(b)).Some? }

  /** Numbers match by value, anything else by how it prints. */
  ghost predicate EnumMatch(e: Value, v: Value)
  {
    if BothExact(e, v) then Meant(Some(e)) == Meant(Some(v)) else Format(e) == Format(v)
  }

  ghost predicate EnumHolds(s: Fields, v: Value)
  {
    "enum" in s && s["enum"].Array? ==> exists e :: e in s["enum"].items && EnumMatch(e, v)
  }

  ghost predicate BoundsHold(s: Fields, v: Value)
  {
    var num := Meant(Some(v));
    num.Some? ==>
      && (Meant(At(s, "minimum")).Some? ==> Meant(At(s, "minimum")).value <= num.value)
      && (Meant(At(s, "maximum")).Some? ==> num.value <= Meant(At(s, "maximum")).value)
      && (Meant(At(s, "multipleOf")).Some? && Meant(At(s, "multipleOf")).value != 0.0 ==>
            MultipleOf(num.value, Meant(At(s, "multipleOf")).value))
  }

  ghost predicate LengthHolds(s: Fields, v: Value)
  {
    v.Str? ==>
      && (Meant(At(s, "minLength")).Some? ==> Meant(At(s, "minLength")).value <= |v.text| as real)
      && (Meant(At(s, "maxLength")).Some? ==> |v.text| as real <= Meant(At(s, "maxLength")).value)
  }

  ghost predicate Conforms(s: Fields, v: Value)
    decreases v, 1
  {
    && (TypeName(s).Some? ==> HasType(v, TypeName(s).value))
    && EnumHolds(s, v)
    && BoundsHold(s, v)
    && LengthHolds(s, v)
    && (v.Array? && "items" in s && s["items"].Object? ==>
          forall i :: 0 <= i < |v.items| ==> Conforms(s["items"].fields, v.items[i]))
    && (v.Object? ==> ObjectConforms(s, v))
  }

  ghost predicate PropertyConforms(props: Fields, v: Value, name: string)
    requires v.Object?
    decreases v, 0, 0
  {
    name in props && props[name].Object? && name in v.fields ==> Conforms(props[name].fields, v.fields[name])
  }

  ghost predicate ObjectConforms(s: Fields, v: Value)
    requires v.Object?
    decreases v, 0, 1
  {
    && (TypeName(s).Some? ==> TypeName(s).value == "object")
    && (forall r :: r in RequiredNames(s) && r.Str? ==> r.text in v.fields)
    && (Properties(s).Some? ==>
          && (forall name :: name in Properties(s).value ==> PropertyConforms(Properties(s).value, v, name))
          && (ClosedToOthers(s) ==> v.fields.Keys <= Properties(s).value.Keys))
  }

  // ---------- the validator ----------

  predicate IsInt(r: real) { r.Floor as real == r }

  lemma IsIntIff(r: real)
    ensures IsInt(r) <==> Whole(r)
  {
    if Whole(r) {
      var k :| r == Times(k, 1.0);
      assert r.Floor == k;
    }
    if IsInt(r) {
      assert r == Times(r.Floor, 1.0);
    }
  }

  function ActualType(v: Value): string
  {
    match v
    case Null => "null"
    case Bool(_) => "boolean"
    case Number(_) => "number"
    case Str(_) => "string"
    case Array(_) => "array"
    case Object(_) => "object"
  }

  method CheckType(expected: string, v: Value) returns (ok: bool)
    ensures ok <==> HasType(v, expected)
  {
    var actual := ActualType(v);
    if expected == "number" && actual == "number" {
      return true;
    }
    if expected == "integer" && actual == "number" {
      var r := Rational(Some(v));
      RationalIsMeant(Some(v));
      if r.Some? {
        IsIntIff(r.value);
      }
      return r.Some? && IsInt(r.value);
    }
    return expected == actual;
  }

  method CheckEnum(s: Fields, v: Value) returns (ok: bool)
    ensures ok <==> EnumHolds(s, v)
  {
    if !("enum" in s && s["enum"].Array?) {
      return true;
    }
    var members := s["enum"].items;
    var wanted := Rational(Some(v));
    RationalIsMeant(Some(v));
    for k := 0 to |members|
      invariant forall i :: 0 <= i < k ==> !EnumMatch(members[i], v)
    {
      var exact := Rational(Some(members[k]));
      RationalIsMeant(Some(members[k]));
      if exact.Some? && wanted.Some? {
        if exact.value == wanted.value {
          assert EnumMatch(members[k], v);
          return true;
        }
        continue;
      }
      if Format(members[k]) == Format(v) {
        assert EnumMatch(members[k], v);
        return true;
      }
    }
    return false;
  }

  lemma QuotientIsWhole(num: real, mult: real)
    requires mult != 0.0
    ensures IsInt(num / mult) <==> MultipleOf(num, mult)
  {
    var q := num / mult;
    assert q * mult == num;
    if IsInt(q) {
      assert num == Times(q.Floor, mult);
    }
    if MultipleOf(num, mult) {
      var k :| num == Times(k, mult);
      SameProduct(q, k as real, mult);
      assert q.Floor == k;
    }
  }

  lemma SameProduct(a: real, b: real, m: real)
    requires m != 0.0 && a * m == b * m
    ensures a == b
  {
    assert (a - b) * m == 0.0;
  }

  method CheckNumber(s: Fields, v: Value) returns (ok: bool)
    ensures ok <==> BoundsHold(s, v)
  {
    RationalIsMeant(Some(v));
    RationalIsMeant(At(s, "minimum"));
    RationalIsMeant(At(s, "maximum"));
    RationalIsMeant(At(s, "multipleOf"));
    var num := Rational(Some(v));
    if num.None? {
      return true;
    }
    var min := Rational(At(s, "minimum"));
    if min.Some? && num.value < min.value {
      return false;
    }
    var max := Rational(At(s, "maximum"));
    if max.Some? && num.value > max.value {
      return false;
    }
    var mult := Rational(At(s, "multipleOf"));
    if mult.Some? && mult.value != 0.0 {
      QuotientIsWhole(num.value, mult.value);
      return IsInt(num.value / mult.value);
    }
    return true;
  }

  method CheckLength(s: Fields, v: Value) returns (ok: bool)
    ensures ok <==> LengthHolds(s, v)
  {
    if !v.Str? {
      return true;
    }
    RationalIsMeant(At(s, "minLength"));
    RationalIsMeant(At(s, "maxLength"));
    var count := |v.text| as real;
    var min := Rational(At(s, "minLength"));
    if min.Some? && count < min.value {
      return false;
    }
    var max := Rational(At(s, "maxLength"));
    return !(max.Some? && count > max.value);
  }

  method ValidateValue(s: Fields, v: Value) returns (ok: bool)
    ensures ok <==> Conforms(s, v)
    decreases v, 1
  {
    if TypeName(s).Some? {
      var typed := CheckType(TypeName(s).value, v);
      if !typed {
        return false;
      }
    }
    var listed := CheckEnum(s, v);
    if !listed {
      return false;
    }
    var bounded := CheckNumber(s, v);
    if !bounded {
      return false;
    }
    var measured := CheckLength(s, v);
    if !measured {
      return false;
    }
    if v.Array? && "items" in s && s["items"].Object? {
      for k := 0 to |v.items|
        invariant forall i :: 0 <= i < k ==> Conforms(s["items"].fields, v.items[i])
      {
        var item := ValidateValue(s["items"].fields, v.items[k]);
        if !item {
          return false;
        }
      }
    }
    if v.Object? {
      ok := ValidateObject(s, v);
      return;
    }
    return true;
  }

  /** Properties and fields are visited in no particular order. */
  method ValidateObject(s: Fields, v: Value) returns (ok: bool)
    requires v.Object?
    ensures ok <==> ObjectConforms(s, v)
    decreases v, 0, 2
  {
    if TypeName(s).Some? && TypeName(s).value != "object" {
      return false;
    }
    var required := RequiredNames(s);
    for k := 0 to |required|
      invariant forall i :: 0 <= i < k && required[i].Str? ==> required[i].text in v.fields
    {
      if required[k].Str? && required[k].text !in v.fields {
        assert required[k] in RequiredNames(s);
        return false;
      }
    }
    if Properties(s).None? {
      return true;
    }
    var props := Properties(s).value;
    ok := ValidateProperties(props, v);
    if ok && ClosedToOthers(s) {
      ok := OnlyDeclared(props, v.fields);
    }
  }

  method ValidateProperties(props: Fields, v: Value) returns (ok: bool)
    requires v.Object?
    ensures ok <==> forall name :: name in props ==> PropertyConforms(props, v, name)
    decreases v, 0, 1
  {
    var pending := props.Keys;
    while pending != {}
      invariant pending <= props.Keys
      invariant forall name :: name in props && name !in pending ==> PropertyConforms(props, v, name)
      decreases pending
    {
      var name :| name in pending;
      pending := pending - {name};
      if props[name].Object? && name in v.fields {
        var good := ValidateValue(props[name].fields, v.fields[name]);
        if !good {
          assert !PropertyConforms(props, v, name);
          return false;
        }
      }
    }
    return true;
  }

  method OnlyDeclared(props: Fields, fields: Fields) returns (ok: bool)
    ensures ok <==> fields.Keys <= props.Keys
  {
    var pending := fields.Keys;
    while pending != {}
      invariant pending <= fields.Keys
      invariant forall name :: name in fields && name !in pending ==> name in props
      decreases pending
    {
      var name :| name in pending;
      pending := pending - {name};
      if name !in props {
        return false;
      }
    }
    return true;
  }

  /** Arguments as sent: nothing, not JSON, or a JSON document. */
  method ValidateArguments(schema: Registry.SchemaText, args: Registry.SchemaText) returns (ok: bool)
    ensures ok <==> Accepts(schema, args)
  {
    if schema.NoSchema? {
      return true;
    }
    if schema.NotJson? || !schema.value.Object? {
      return false;
    }
    var sent := if args.NoSchema? then Registry.Document(Object(map[])) else args;
    if sent.NotJson? || !sent.value.Object? {
      return false;
    }
    ok := ValidateObject(schema.value.fields, sent.value);
  }

  /** A schema that cannot be read accepts nothing; no schema accepts everything; no arguments stand
      for an empty object. */
  ghost predicate Accepts(schema: Registry.SchemaText, args: Registry.SchemaText)
  {
    match schema
    case NoSchema => true
    case NotJson => false
    case Document(sv) =>
      sv.Object? &&
      match args
      case NoSchema => ObjectConforms(sv.fields, Object(map[]))
      case NotJson => false
      case Document(av) => av.Object? && ObjectConforms(sv.fields, av)
  }
}
