/** Authority verification of an execution request, and its end-to-end guarantee over both
    authority stores (internal/capability/admission.go). */
module Admission {
  import opened Wrappers
  import opened Text
  import opened Json
  import opened Grants
  import opened AuthorityRefs
  import opened AuthorityTables
  import Registry
  import PostgresAuthority
  import PostgresRuns
  import PostgresUpgrade
  import SqliteAuthority

  datatype FailureCode = Unauthorized | CapabilityNotFound | InvalidRequest

  /** `arguments` is the decoded document, absent when it is not JSON. */
  datatype Request = Request(capability: string, arguments: Option<Value>, principal: string, grantID: string)

  /** What the resolver said for the request's grant id and principal. */
  datatype Answer = Failed | NoGrant | Granted(grant: Grant)

  datatype Resolver = NoResolver | Resolver(answer: Answer, expiryIsAuthoritative: bool)

  datatype Verdict = Refused(code: FailureCode) | NotRequired | Authorized(grant: Grant)

  // ---------- resource constraints ----------

  /** Decoding into a map of raw fields: `null` decodes to the empty map. */
  function ArgumentFields(arguments: Option<Value>): Option<map<string, Value>>
  {
    match arguments
    case Some(Object(fields)) => Some(fields)
    case Some(Null) => Some(map[])
    case _ => None
  }

  /** Decoding one field into a string: `null` decodes to the empty string. */
  function BoundValue(fields: map<string, Value>, argument: string): Option<string>
  {
    if argument !in fields then None
    else match fields[argument]
         case Str(text) => Some(text)
         case Null => Some("")
         case _ => None
  }

  predicate DimensionAdmitted(bindings: map<string, string>, fields: map<string, Value>, g: Grant, dimension: string)
    requires dimension in bindings
  {
    var value := BoundValue(fields, bindings[dimension]);
    value.Some? && AllowsResource(g, dimension, value.value)
  }

  ghost predicate ResourcesAdmitted(bindings: map<string, string>, arguments: Option<Value>, g: Grant)
  {
    var fields := ArgumentFields(arguments);
    fields.Some? && forall d :: d in bindings ==> DimensionAdmitted(bindings, fields.value, g, d)
  }

  method SortedDimensions(bindings: map<string, string>) returns (dimensions: seq<string>)
    ensures Sorted(dimensions) && forall d :: d in dimensions <==> d in bindings
  {
    dimensions := [];
    var left := bindings.Keys;
    while left != {}
      invariant left <= bindings.Keys
      invariant forall d :: d in dimensions <==> d in bindings && d !in left
      decreases left
    {
      var d :| d in left;
      dimensions := dimensions + [d];
      left := left - {d};
    }
    SortFacts(dimensions);
    dimensions := Sort(dimensions);
  }

  method CheckResourceConstraints(bindings: map<string, string>, arguments: Option<Value>, g: Grant)
    returns (failure: Option<FailureCode>)
    ensures failure == None <==> ResourcesAdmitted(bindings, arguments, g)
    ensures failure == Some(InvalidRequest) <==> ArgumentFields(arguments).None?
    ensures failure.Some? ==> failure.value != CapabilityNotFound
  {
    var fields := ArgumentFields(arguments);
    if fields.None? {
      return Some(InvalidRequest);
    }
    var dimensions := SortedDimensions(bindings);
    for i := 0 to |dimensions|
      invariant forall j :: 0 <= j < i ==> DimensionAdmitted(bindings, fields.value, g, dimensions[j])
    {
      assert dimensions[i] in dimensions;
      if !DimensionAdmitted(bindings, fields.value, g, dimensions[i]) {
        return Some(Unauthorized);
      }
    }
    failure := None;
  }

  /** Exactly which grants let a JSON `null` stand for the bound argument: those that admit the
      empty string, which an unconstrained dimension and a `*` do.  For every other grant, an
      admitted request bound a string. */
  lemma NullArgumentAdmittedIff(bindings: map<string, string>, g: Grant, d: string)
    requires d in bindings
    ensures (forall fields: map<string, Value> :: DimensionAdmitted(bindings, fields, g, d) ==>
              fields[bindings[d]].Str?)
            <==> !AllowsResource(g, d, "")
  {
    var withNull: map<string, Value> := map[bindings[d] := Null];
    assert DimensionAdmitted(bindings, withNull, g, d) <==> AllowsResource(g, d, "");
    assert !withNull[bindings[d]].Str?;
  }

  // ---------- VerifyAuthority ----------

  /** A grant was asked for, found, and permits the capability. */
  ghost predicate GrantHolds(entries: Registry.Entries, req: Request, resolver: Resolver, appNow: Time)
  {
    && req.principal != "" && req.grantID != "" && req.capability in entries
    && entries[req.capability].policy.grantRequired
    && resolver.Resolver? && resolver.answer.Granted?
    && (var g := resolver.answer.grant;
        && !g.revoked && HasCapability(g, req.capability)
        && (resolver.expiryIsAuthoritative || !Expired(g, appNow)))
  }

  /** The conditions under which a grant is returned. */
  ghost predicate Authorizes(entries: Registry.Entries, req: Request, resolver: Resolver, appNow: Time)
  {
    && GrantHolds(entries, req, resolver, appNow)
    && (var bindings := entries[req.capability].policy.resourceArguments;
        bindings != map[] ==> ResourcesAdmitted(bindings, req.arguments, resolver.answer.grant))
  }

  method VerifyAuthority(entries: Registry.Entries, req: Request, resolver: Resolver, appNow: Time) returns (v: Verdict)
    ensures v.Authorized? <==> Authorizes(entries, req, resolver, appNow)
    ensures v.Authorized? ==> v.grant == resolver.answer.grant
    ensures v.NotRequired? <==>
              req.principal != "" && req.capability in entries && !entries[req.capability].policy.grantRequired
    ensures v == Refused(CapabilityNotFound) <==> req.principal != "" && req.capability !in entries
    ensures v == Refused(InvalidRequest) <==>
              GrantHolds(entries, req, resolver, appNow)
              && entries[req.capability].policy.resourceArguments != map[] && ArgumentFields(req.arguments).None?
    ensures v == Refused(Unauthorized) <==>
              || req.principal == ""
              || (&& req.capability in entries && entries[req.capability].policy.grantRequired
                  && (GrantHolds(entries, req, resolver, appNow) ==>
                        var bindings := entries[req.capability].policy.resourceArguments;
                        bindings != map[] && ArgumentFields(req.arguments).Some?
                        && !ResourcesAdmitted(bindings, req.arguments, resolver.answer.grant)))
  {
    if req.principal == "" {
      return Refused(Unauthorized);
    }
    if req.capability !in entries {
      return Refused(CapabilityNotFound);
    }
    var policy := entries[req.capability].policy;
    if !policy.grantRequired {
      return NotRequired;
    }
    if req.grantID == "" || resolver.NoResolver? || !resolver.answer.Granted? {
      return Refused(Unauthorized);
    }
    var g := resolver.answer.grant;
    if g.revoked || !HasCapability(g, req.capability) || (!resolver.expiryIsAuthoritative && Expired(g, appNow)) {
      return Refused(Unauthorized);
    }
    if policy.resourceArguments != map[] {
      var failure := CheckResourceConstraints(policy.resourceArguments, req.arguments, g);
      if failure.Some? {
        return Refused(failure.value);
      }
    }
    v := Authorized(g);
  }

  // ---------- end to end ----------

  function PostgresAnswer(r: PostgresRuns.Resolution): Answer
  {
    match r
    case Denied => NoGrant
    case Unverified => Failed
    case Resolved(g) => Granted(g)
  }

  function SqliteAnswer(r: SqliteAuthority.Resolution): Answer
  {
    match r
    case Denied => NoGrant
    case Unverified => Failed
    case Resolved(g) => Granted(g)
  }

  /** What an authorization is worth: the request's permissions, spelled out on the grant. */
  ghost predicate Permits(entries: Registry.Entries, req: Request, g: Grant)
  {
    && g.id == req.grantID && g.principal == req.principal && !g.revoked
    && VerifyGrantDigest(g)
    && HasCapability(g, req.capability)
    && req.capability in entries
    && forall d :: d in entries[req.capability].policy.resourceArguments ==>
         var argument := entries[req.capability].policy.resourceArguments[d];
         req.arguments.Some? && req.arguments.value.Object? &&
         BoundValue(req.arguments.value.fields, argument).Some? &&
         AllowsResource(g, d, BoundValue(req.arguments.value.fields, argument).value)
  }

  lemma AuthorizesPermits(entries: Registry.Entries, req: Request, resolver: Resolver, appNow: Time)
    requires Authorizes(entries, req, resolver, appNow)
    requires var g := resolver.answer.grant; g.id == req.grantID && g.principal == req.principal && VerifyGrantDigest(g)
    ensures Permits(entries, req, resolver.answer.grant)
  {
    var bindings := entries[req.capability].policy.resourceArguments;
    forall d | d in bindings
      ensures req.arguments.Some? && req.arguments.value.Object? &&
              DimensionAdmitted(bindings, req.arguments.value.fields, resolver.answer.grant, d)
    {
      assert DimensionAdmitted(bindings, ArgumentFields(req.arguments).value, resolver.answer.grant, d);
    }
  }

  /** If a request is authorized, then by the latest committed generation of its grant id, unrevoked,
      unexpired on the database clock at the read, digest-verified, issued to the requester, and
      permitting both the capability and every bound argument.  The application clock has no say. */
  ghost predicate AuthorizedByLatest(s: PostgresAuthority.State, entries: Registry.Entries, req: Request, appNow: Time)
    requires PostgresAuthority.Inv(s)
  {
    var read := PostgresRuns.Resolve(s.db, req.grantID, req.principal, s.now);
    Authorizes(entries, req, Resolver(PostgresAnswer(read), true), appNow) ==>
      var ref := RefOf(Abs(s.db), req.grantID);
      && read.Resolved? && Permits(entries, req, read.grant)
      && Live(ref) == Some(read.grant.generation)
      && (var c := ref.generations[read.grant.generation - 1].material;
          c.expiresAt.None? || s.now < c.expiresAt.value)
  }

  /** After any interleaving of PostgreSQL transactions. */
  lemma PostgresEndToEnd(start: PostgresAuthority.State, actions: seq<PostgresAuthority.Action>,
                         entries: Registry.Entries, req: Request, appNow: Time)
    requires PostgresAuthority.Inv(start)
    ensures var s := PostgresAuthority.RunFrom(start, actions);
            PostgresAuthority.Inv(s) && AuthorizedByLatest(s, entries, req, appNow)
  {
    var s := PostgresAuthority.RunFrom(start, actions);
    var read := PostgresRuns.Resolve(s.db, req.grantID, req.principal, s.now);
    PostgresRuns.RunKeepsInv(start, actions);
    PostgresRuns.ResolveReturnsLive(s.db, req.grantID, req.principal, s.now);
    if Authorizes(entries, req, Resolver(PostgresAnswer(read), true), appNow) {
      AuthorizesPermits(entries, req, Resolver(PostgresAnswer(read), true), appNow);
    }
  }

  /** From the opening of the store on, empty or upgraded. */
  lemma PostgresFromStart(start: PostgresAuthority.State, actions: seq<PostgresAuthority.Action>,
                          entries: Registry.Entries, req: Request, appNow: Time)
    requires PostgresUpgrade.Initial(start)
    ensures var s := PostgresAuthority.RunFrom(start, actions);
            PostgresAuthority.Inv(s) && AuthorizedByLatest(s, entries, req, appNow)
  {
    PostgresUpgrade.InitialInv(start);
    PostgresEndToEnd(start, actions, entries, req, appNow);
  }

  /** The same over the embedded store, after any sequence of mutator calls. */
  lemma SqliteEndToEnd(start: Tables<SqliteAuthority.Columns>, ops: seq<Op<SqliteAuthority.Columns>>,
                       entries: Registry.Entries, req: Request, nowMs: int, appNow: Time)
    requires DbInv(start)
    ensures var db := SqliteAuthority.RunTables(start, ops);
            var read := SqliteAuthority.ResolveIn(db, req.grantID, req.principal, nowMs);
            (Authorizes(entries, req, Resolver(SqliteAnswer(read), true), appNow) ==>
               var ref := AbsRef(db, req.grantID);
               && read.Resolved? && Permits(entries, req, read.grant)
               && Live(ref) == Some(read.grant.generation)
               && (var c := ref.generations[read.grant.generation - 1].material;
                   c.expiresAt.None? || nowMs < c.expiresAt.value))
  {
    var db := SqliteAuthority.RunTables(start, ops);
    var read := SqliteAuthority.ResolveIn(db, req.grantID, req.principal, nowMs);
    SqliteAuthority.ResolveReturnsLive(db, req.grantID, req.principal, nowMs);
    if Authorizes(entries, req, Resolver(SqliteAnswer(read), true), appNow) {
      AuthorizesPermits(entries, req, Resolver(SqliteAnswer(read), true), appNow);
    }
  }

  /** The embedded store in use: any sequence of calls on it, then an authorization that reads it. */
  method AuthorizeAfterCalls(store: SqliteAuthority.SQLiteStore, calls: seq<(SqliteAuthority.Call, bool)>,
                             entries: Registry.Entries, req: Request, nowMs: int, appNow: Time) returns (v: Verdict)
    requires store.Valid()
    modifies store
    ensures store.Valid()
    ensures store.Db() == SqliteAuthority.RunTables(old(store.Db()), SqliteAuthority.OpsOf(old(store.Db()), calls))
    ensures v.Authorized? ==>
              var ref := AbsRef(store.Db(), req.grantID);
              && Permits(entries, req, v.grant)
              && Live(ref) == Some(v.grant.generation)
              && (var c := ref.generations[v.grant.generation - 1].material;
                  c.expiresAt.None? || nowMs < c.expiresAt.value)
  {
    ghost var start := store.Db();
    SqliteAuthority.PerformAll(store, calls);
    var read := store.Resolve(req.grantID, req.principal, nowMs);
    v := VerifyAuthority(entries, req, Resolver(SqliteAnswer(read), true), appNow);
    SqliteEndToEnd(start, SqliteAuthority.OpsOf(start, calls), entries, req, nowMs, appNow);
  }
}
