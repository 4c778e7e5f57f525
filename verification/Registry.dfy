/** The capability registry: resolution of descriptors, registration, the canonical export and
    the start-up scan (internal/capability/registry.go, registry_digest.go). */
module Registry {
  import opened Wrappers
  import opened Text
  import opened Json
  import CanonicalNumbers

  // ---------- the three dimensions ----------

  predicate ValidClass(c: string) { c in {"PURE", "READ", "MUTATION", "CRITICAL"} }
  predicate ValidAssurance(a: string) { a in {"NONE", "STANDARD", "DURABLE", "HIGH_ASSURANCE"} }
  predicate ValidRoute(r: string) { r in {"LOCAL", "DIRECT", "CRABEDENCE"} }

  function DefaultAssurance(c: string): string
  {
    if c == "PURE" then "NONE"
    else if c == "MUTATION" then "DURABLE"
    else if c == "CRITICAL" then "HIGH_ASSURANCE"
    else "STANDARD"
  }

  function DefaultRoute(a: string): string
  {
    if a == "NONE" then "LOCAL" else if a == "STANDARD" then "DIRECT" else "CRABEDENCE"
  }

  /** Whether a route can keep the promise of a class at an assurance. */
  predicate Compatible(effect: string, assurance: string, route: string)
  {
    if route == "LOCAL" then effect == "PURE" && assurance == "NONE"
    else if route == "DIRECT" then
      effect != "MUTATION" && effect != "CRITICAL" && assurance != "DURABLE" && assurance != "HIGH_ASSURANCE"
    else if route == "CRABEDENCE" then
      && (effect == "CRITICAL" ==> assurance == "HIGH_ASSURANCE")
      && (effect == "MUTATION" ==> assurance == "DURABLE" || assurance == "HIGH_ASSURANCE")
    else false
  }

  // ---------- descriptors ----------

  datatype AuthorityPolicy = AuthorityPolicy(id: string, grantRequired: bool, resourceArguments: map<string, string>)

  /** Argument schema text: absent, not JSON, or a JSON document. */
  datatype SchemaText = NoSchema | NotJson | Document(value: Value)

  /** The same record before and after resolution; empty strings and version 0 mean "default". */
  datatype Descriptor = Descriptor(
    id: string,
    version: int,
    revision: string,
    class_: string,
    assurance: string,
    route: string,
    schema: SchemaText,
    policy: AuthorityPolicy,
    adapter: string)

  datatype RegistrationError = MissingId | InvalidDescriptor | AlreadyRegistered

  function Resolve(d: Descriptor): Result<Descriptor, RegistrationError>
  {
    var version := if d.version == 0 then 1 else d.version;
    var assurance := if d.assurance == "" then DefaultAssurance(d.class_) else d.assurance;
    var route := if d.route == "" then DefaultRoute(assurance) else d.route;
    if d.id == "" then Err(MissingId)
    else if !ValidClass(d.class_) || version < 1 || !ValidAssurance(assurance) || !ValidRoute(route)
            || !Compatible(d.class_, assurance, route) || (route == "LOCAL" && d.policy.grantRequired)
    then Err(InvalidDescriptor)
    else Ok(d.(version := version, assurance := assurance, route := route))
  }

  /** What the scan calls a class, assurance, route, version or LOCAL-grant finding. */
  predicate DimensionsSound(d: Descriptor)
  {
    && d.version >= 0
    && ValidClass(d.class_) && ValidAssurance(d.assurance) && ValidRoute(d.route)
    && Compatible(d.class_, d.assurance, d.route)
    && !(d.route == "LOCAL" && d.policy.grantRequired)
  }

  predicate Supported(keyword: string)
  {
    keyword in {"type", "required", "properties", "additionalProperties", "enum", "minimum", "maximum", "multipleOf",
                "minLength", "maxLength", "items", "description", "title", "$schema", "$id", "$comment", "examples",
                "default", "deprecated", "readOnly", "writeOnly"}
  }

  /** Only keywords the validator implements, at every depth it looks at. */
  predicate KeywordsSupported(schema: Value)
    requires schema.Object?
    decreases schema
  {
    var fields := schema.fields;
    && (forall k :: k in fields ==> Supported(k))
    && ("properties" in fields ==>
          fields["properties"].Object? &&
          (forall p :: p in fields["properties"].fields ==>
             fields["properties"].fields[p].Object? && KeywordsSupported(fields["properties"].fields[p])))
    && ("items" in fields ==> fields["items"].Object? && KeywordsSupported(fields["items"]))
    && ("additionalProperties" in fields && fields["additionalProperties"].Object? ==>
          KeywordsSupported(fields["additionalProperties"]))
  }

  predicate SchemaSound(s: SchemaText)
  {
    match s
    case NoSchema => true
    case NotJson => false
    case Document(v) => v.Object? && KeywordsSupported(v)
  }

  predicate Sound(d: Descriptor)
  {
    && DimensionsSound(d)
    && (d.policy.resourceArguments != map[] ==> d.policy.grantRequired)
    && d.adapter != ""
    && SchemaSound(d.schema)
  }

  // ---------- registration ----------

  type Entries = map<string, Descriptor>

  datatype Call = Register(d: Descriptor) | RegisterResolved(d: Descriptor)

  /** What one registration adds, or why it adds nothing. */
  function Admitted(entries: Entries, call: Call): Result<Descriptor, RegistrationError>
  {
    var resolved := match call
                    case Register(d) => Resolve(d)
                    case RegisterResolved(d) => if d.id == "" then Err(MissingId) else Ok(d);
    if resolved.Ok? && resolved.value.id in entries then Err(AlreadyRegistered) else resolved
  }

  function Registered(entries: Entries, call: Call): Entries
  {
    var a := Admitted(entries, call);
    if a.Ok? then entries[a.value.id := a.value] else entries
  }

  function RegisteredAll(entries: Entries, calls: seq<Call>): Entries
    decreases |calls|
  {
    if calls == [] then entries else RegisteredAll(Registered(entries, calls[0]), calls[1..])
  }

  ghost predicate WellKeyed(entries: Entries)
  {
    forall id :: id in entries ==> id != "" && entries[id].id == id
  }

  /** In every run of registrations a descriptor once present never changes or disappears. */
  lemma {:induction false} RegistrationsArePermanent(entries: Entries, calls: seq<Call>)
    requires WellKeyed(entries)
    ensures WellKeyed(RegisteredAll(entries, calls))
    ensures forall id :: id in entries ==>
              id in RegisteredAll(entries, calls) && RegisteredAll(entries, calls)[id] == entries[id]
    decreases |calls|
  {
    if calls != [] {
      RegistrationsArePermanent(Registered(entries, calls[0]), calls[1..]);
    }
  }

  /** A registry built by `Register` alone has no dimension finding, whatever was offered to it. */
  lemma {:induction false} RegisterAloneIsSound(entries: Entries, calls: seq<Call>)
    requires forall id :: id in entries ==> DimensionsSound(entries[id])
    requires forall i :: 0 <= i < |calls| ==> calls[i].Register?
    ensures forall id :: id in RegisteredAll(entries, calls) ==> DimensionsSound(RegisteredAll(entries, calls)[id])
    decreases |calls|
  {
    if calls != [] {
      RegisterAloneIsSound(Registered(entries, calls[0]), calls[1..]);
    }
  }

  /** The shortcut does not have that property: it stores whatever it is given. */
  lemma RegisterResolvedMayBeUnsound()
    ensures exists d: Descriptor ::
              Admitted(map[], RegisterResolved(d)) == Ok(d) && !DimensionsSound(d)
  {
    var d := Descriptor("x", 1, "", "CRITICAL", "NONE", "LOCAL", NoSchema, AuthorityPolicy("", true, map[]), "a");
    assert Admitted(map[], RegisterResolved(d)) == Ok(d) && !DimensionsSound(d);
  }

  /** It keeps a registry free of dimension findings exactly when it refuses the descriptor or the
      descriptor is sound already. */
  lemma RegisterResolvedSoundIff(entries: Entries, d: Descriptor)
    requires forall id :: id in entries ==> DimensionsSound(entries[id])
    ensures (forall id :: id in Registered(entries, RegisterResolved(d)) ==>
              DimensionsSound(Registered(entries, RegisterResolved(d))[id]))
            <==> d.id == "" || d.id in entries || DimensionsSound(d)
  {
    var entries' := Registered(entries, RegisterResolved(d));
    if d.id != "" && d.id !in entries {
      assert entries'[d.id] == d;
    }
  }

  // ---------- the canonical export ----------

  /** A schema as exported: numbers in their canonical spelling, and the JSON null as no schema. */
  function CanonicalSchema(s: SchemaText): SchemaText
  {
    match s
    case Document(Null) => NoSchema
    case Document(v) => Document(CanonicalNumbers.Normalized(v))
    case _ => s
  }

  function CanonicalVersion(version: int): int { if version == 0 then 1 else version }

  function Canonical(d: Descriptor): Descriptor
  {
    d.(version := CanonicalVersion(d.version), schema := CanonicalSchema(d.schema))
  }

  ghost predicate SameSchema(s: SchemaText, t: SchemaText)
  {
    if s.Document? && !s.value.Null? then t.Document? && SameValue(s.value, t.value)
    else if s.NotJson? then t.NotJson?
    else t == NoSchema || t == Document(Null)
  }

  /** The same policy: the same schema value, however it is spelled, and all other fields alike. */
  ghost predicate SamePolicy(d: Descriptor, e: Descriptor)
  {
    && CanonicalVersion(d.version) == CanonicalVersion(e.version) && SameSchema(d.schema, e.schema)
    && d == e.(version := d.version, schema := d.schema)
  }

  lemma CanonicalSchemaIff(s: SchemaText, t: SchemaText)
    ensures CanonicalSchema(s) == CanonicalSchema(t) <==> SameSchema(s, t)
  {
    if s.Document? && t.Document? {
      CanonicalNumbers.NormalizedIff(s.value, t.value);
    }
  }

  /** Two descriptors are exported alike exactly when they are the same policy. */
  lemma CanonicalIff(d: Descriptor, e: Descriptor)
    ensures Canonical(d) == Canonical(e) <==> SamePolicy(d, e)
  {
    CanonicalSchemaIff(d.schema, e.schema);
  }

  /** The descriptor list the registry digest covers: one canonical descriptor per entry, in
      ascending order of id. */
  ghost predicate IsExport(entries: Entries, ids: seq<string>, list: seq<Descriptor>)
  {
    && Sorted(ids) && Distinct(ids) && (forall id :: id in ids <==> id in entries)
    && |list| == |ids| && forall i :: 0 <= i < |ids| ==> list[i] == Canonical(entries[ids[i]])
  }

  /** The export is a function of the final entries: neither the order of registrations nor the
      order of map iteration can show in it. */
  lemma ExportUnique(entries: Entries, ids: seq<string>, list: seq<Descriptor>, ids': seq<string>,
                     list': seq<Descriptor>)
    requires IsExport(entries, ids, list) && IsExport(entries, ids', list')
    ensures list == list'
  {
    SameElementsSameMultiset(ids, ids');
    SortedUnique(ids, ids');
  }

  /** Two registries export the same list exactly when they hold the same policies under the same ids. */
  lemma ExportIff(entries: Entries, ids: seq<string>, list: seq<Descriptor>, entries': Entries, ids': seq<string>,
                  list': seq<Descriptor>)
    requires WellKeyed(entries) && WellKeyed(entries')
    requires IsExport(entries, ids, list) && IsExport(entries', ids', list')
    ensures list == list' <==>
            entries.Keys == entries'.Keys && forall id :: id in entries ==> SamePolicy(entries[id], entries'[id])
  {
    if list == list' {
      IdsAgree(entries, ids, list, entries', ids');
      forall id | id in entries ensures SamePolicy(entries[id], entries'[id]) {
        assert id in ids;
        CanonicalIff(entries[id], entries'[id]);
      }
    }
    if entries.Keys == entries'.Keys && forall id :: id in entries ==> SamePolicy(entries[id], entries'[id]) {
      SameElementsSameMultiset(ids, ids');
      SortedUnique(ids, ids');
      forall i | 0 <= i < |ids| ensures list[i] == list'[i] {
        assert ids[i] in ids;
        CanonicalIff(entries[ids[i]], entries'[ids[i]]);
      }
    }
  }

  lemma IdsAgree(entries: Entries, ids: seq<string>, list: seq<Descriptor>, entries': Entries, ids': seq<string>)
    requires WellKeyed(entries) && WellKeyed(entries')
    requires IsExport(entries, ids, list) && IsExport(entries', ids', list)
    ensures ids == ids' && entries.Keys == entries'.Keys
  {
    forall i | 0 <= i < |ids| ensures ids[i] == ids'[i] {
      assert ids[i] in ids && ids'[i] in ids';
      assert list[i].id == ids[i] && list[i].id == ids'[i];
    }
    assert forall id :: id in entries.Keys <==> id in ids;
    assert forall id :: id in entries'.Keys <==> id in ids';
  }

  class CapabilityRegistry {
    var entries: Entries

    constructor ()
      ensures entries == map[]
    {
      entries := map[];
    }

    method Register(d: Descriptor) returns (r: Result<(), RegistrationError>)
      modifies this
      ensures entries == Registered(old(entries), Call.Register(d))
      ensures r.Ok? <==> Admitted(old(entries), Call.Register(d)).Ok?
      ensures r.Err? ==> entries == old(entries)
    {
      var resolved := Resolve(d);
      if resolved.Err? {
        return Err(resolved.error);
      }
      if resolved.value.id in entries {
        return Err(AlreadyRegistered);
      }
      entries := entries[resolved.value.id := resolved.value];
      r := Ok(());
    }

    method RegisterResolved(d: Descriptor) returns (r: Result<(), RegistrationError>)
      modifies this
      ensures entries == Registered(old(entries), Call.RegisterResolved(d))
      ensures r.Ok? <==> Admitted(old(entries), Call.RegisterResolved(d)).Ok?
      ensures r.Err? ==> entries == old(entries)
    {
      if d.id == "" {
        return Err(MissingId);
      }
      if d.id in entries {
        return Err(AlreadyRegistered);
      }
      entries := entries[d.id := d];
      r := Ok(());
    }

    /** The keys in some order, then sorted. */
    method SortedIds() returns (ids: seq<string>)
      ensures Sorted(ids) && Distinct(ids) && forall id :: id in ids <==> id in entries
    {
      ids := [];
      var left := entries.Keys;
      while left != {}
        invariant left <= entries.Keys
        invariant forall id :: id in ids <==> id in entries && id !in left
        invariant Distinct(ids)
        decreases left
      {
        var id :| id in left;
        ids := ids + [id];
        left := left - {id};
      }
      SortKeepsDistinct(ids);
      ids := Sort(ids);
    }

    method CanonicalDescriptors() returns (r: Result<seq<Descriptor>, ()>, ids: seq<string>)
      ensures r.Ok? <==> forall id :: id in entries ==> !entries[id].schema.NotJson?
      ensures r.Ok? ==> IsExport(entries, ids, r.value)
    {
      ids := SortedIds();
      var list: seq<Descriptor> := [];
      for i := 0 to |ids|
        invariant |list| == i
        invariant forall j :: 0 <= j < i ==> !entries[ids[j]].schema.NotJson? && list[j] == Canonical(entries[ids[j]])
      {
        var d := entries[ids[i]];
        if d.schema.NotJson? {
          return Err(()), ids;
        }
        list := list + [Canonical(d)];
      }
      r := Ok(list);
    }

    /** The start-up scan fails exactly when some entry is unsound; it names those entries in order. */
    method Validate() returns (findings: seq<string>)
      ensures forall id :: id in findings <==> id in entries && !Sound(entries[id])
      ensures Sorted(findings)
    {
      var ids := SortedIds();
      findings := [];
      for i := 0 to |ids|
        invariant forall id :: id in findings <==> id in ids[..i] && !Sound(entries[id])
        invariant Sorted(findings)
        invariant forall k :: 0 <= k < |findings| ==> findings[k] in ids[..i]
      {
        assert ids[..i + 1] == ids[..i] + [ids[i]];
        if !Sound(entries[ids[i]]) {
          findings := findings + [ids[i]];
        }
      }
      assert ids[..|ids|] == ids;
    }
  }

  lemma SortKeepsDistinct(s: seq<string>)
    requires Distinct(s)
    ensures Sorted(Sort(s)) && Distinct(Sort(s)) && forall y :: y in Sort(s) <==> y in s
  {
    SortFacts(s);
    forall y ensures multiset(Sort(s))[y] <= 1 {
      DistinctCounts(s, y);
    }
    DistinctFromCounts(Sort(s));
  }
}
