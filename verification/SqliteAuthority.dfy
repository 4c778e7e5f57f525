/** The embedded authority store: the same tables under serial transactions, JSON columns held
    to their canonical text and integer-millisecond times (internal/authority/sqlite.go). */
module SqliteAuthority {
  import opened Wrappers
  import opened Grants
  import opened GrantMaterial
  import opened AuthorityRefs
  import opened AuthorityTables

  /** The columns an issued row never changes; times are Unix milliseconds. */
  datatype Columns = Columns(
    principal: string,
    capabilities: JsonText<seq<string>>,
    constraints: JsonText<Constraints>,
    digest: Digest,
    issuedAt: Option<int>,
    expiresAt: Option<int>)

  type Row = Generation<Columns>

  datatype StoreError = DriverError | AuthorityClosed | NotFound

  datatype Resolution = Denied | Unverified | Resolved(grant: Grant)

  /** `expiresAt` is the requested expiry, whose absence is stored as NULL. */
  function ColumnsOf(g: Grant, expiresAt: Time): Columns
  {
    Columns(g.principal, Encoded(g.capabilities, true), Encoded(g.constraints, true), g.digest,
            Some(UnixMilli(g.issuedAt)),
            if expiresAt == ZERO_TIME then None else Some(UnixMilli(g.expiresAt)))
  }

  function FromMillis(ms: Option<int>): Time
  {
    if ms.Some? then ms.value * NANOS_PER_MILLI else ZERO_TIME
  }

  function DecodedGrant(id: string, generation: int, c: Columns, capabilities: seq<string>,
                        constraints: Constraints): Grant
  {
    Grant(id, generation, c.principal, capabilities, constraints, FromMillis(c.issuedAt), FromMillis(c.expiresAt),
        false, c.digest)
  }

  /** `nowMs` is SQLite's own clock. */
  function ResolveRow(id: string, generation: int, row: Row, principal: string, nowMs: int): Resolution
  {
    var c := row.material;
    var unexpired := c.expiresAt.None? || c.expiresAt.value > nowMs;
    if c.principal != principal || row.revoked || !unexpired then Denied
    else
      match (DecodeCanonical(c.capabilities), DecodeCanonical(c.constraints))
      case (Ok(capabilities), Ok(constraints)) =>
        var g := DecodedGrant(id, generation, c, capabilities, constraints);
        if VerifyGrantDigest(g) then Resolved(g) else Unverified
      case _ => Unverified
  }

  ghost function ResolveIn(db: Tables<Columns>, id: string, principal: string, nowMs: int): Resolution
  {
    var latest := MaxOf(Generations(db, id));
    if id == "" || (id, latest) !in db.rows then Denied
    else ResolveRow(id, latest, db.rows[(id, latest)], principal, nowMs)
  }

  /** A read returns only the live generation, to its own principal, unexpired and verified. */
  lemma ResolveReturnsLive(db: Tables<Columns>, id: string, principal: string, nowMs: int)
    requires DbInv(db)
    ensures var r := ResolveIn(db, id, principal, nowMs);
            r.Resolved? ==>
              && Live(AbsRef(db, id)) == Some(r.grant.generation)
              && r.grant.id == id && r.grant.principal == principal && !r.grant.revoked
              && VerifyGrantDigest(r.grant)
              && (var c := AbsRef(db, id).generations[r.grant.generation - 1].material;
                  c.expiresAt.None? || nowMs < c.expiresAt.value)
  {
    NoRowsWithoutHead(db, id);
  }

  class SQLiteStore {
    var heads: map<string, Head>
    var rows: map<(string, int), Row>

    ghost function Db(): Tables<Columns>
      reads this
    {
      Tables(heads, rows)
    }

    ghost predicate Valid()
      reads this
    {
      DbInv(Db())
    }

    constructor ()
      ensures Valid() && Abs(Db()) == map[]
    {
      heads := map[];
      rows := map[];
    }

    method MaxGeneration(grantID: string) returns (m: int)
      ensures m == MaxOf(Generations(Db(), grantID))
    {
      var seen: set<int> := {};
      m := 0;
      var left := rows.Keys;
      while left != {}
        invariant left <= rows.Keys
        invariant forall g :: g in seen <==> (grantID, g) in rows && (grantID, g) !in left
        invariant seen == {} ==> m == 0
        invariant seen != {} ==> m in seen
        invariant forall g :: g in seen ==> g <= m
        decreases left
      {
        var k :| k in left;
        left := left - {k};
        if k.0 == grantID {
          assert k == (grantID, k.1);
          if seen == {} || k.1 > m {
            m := k.1;
          }
          seen := seen + {k.1};
        }
      }
      assert seen == Generations(Db(), grantID) by {
        forall g ensures g in seen <==> g in Generations(Db(), grantID) {
          assert g in Generations(Db(), grantID) <==> (grantID, g) in rows;
        }
      }
    }

    /** Creates the head row if absent and reads it. */
    method LockAuthorityHead(grantID: string) returns (next: int, closed: bool)
      requires Valid()
      modifies this`heads
      ensures Valid()
      ensures heads == old(heads)[grantID := Base(old(Db()), grantID)]
      ensures Head(next, closed) == Base(old(Db()), grantID)
    {
      NoRowsWithoutHead(Db(), grantID);
      if grantID !in heads {
        var m := MaxGeneration(grantID);
        heads := heads[grantID := Head(m + 1, false)];
      }
      next, closed := heads[grantID].next, heads[grantID].closed;
    }

    /** `driverOk` is false when some statement or the commit fails; the deferred rollback then
        restores both tables. */
    method IssueGrantWithConstraints(grantID: string, principal: string, capabilities: seq<string>,
                                     constraints: Constraints, expiresAt: Time, appNow: Time, driverOk: bool)
      returns (r: Result<Grant, StoreError>)
      requires Valid()
      modifies this
      ensures Valid()
      ensures r.Ok? <==> driverOk && !old(AbsRef(Db(), grantID)).closed
      ensures r.Err? ==> Db() == old(Db())
      ensures r.Ok? ==>
                && r.value == Mint(grantID, |old(AbsRef(Db(), grantID)).generations| + 1, principal, capabilities,
                                   constraints, expiresAt, appNow)
                && Db() == Written(old(Db()), Issue(grantID, ColumnsOf(r.value, expiresAt)))
                && Abs(Db()) == Apply(old(Abs(Db())), Issue(grantID, ColumnsOf(r.value, expiresAt)))
    {
      ghost var db := Db();
      var savedHeads, savedRows := heads, rows;
      var generation, closed := LockAuthorityHead(grantID);
      HeadOfRef(db, grantID);
      if closed {
        heads, rows := savedHeads, savedRows;
        return Err(AuthorityClosed);
      }
      var grant := Mint(grantID, generation, principal, capabilities, constraints, expiresAt, appNow);
      InsertGeneration(grantID, generation, ColumnsOf(grant, expiresAt), db);
      if !driverOk {
        heads, rows := savedHeads, savedRows;
        return Err(DriverError);
      }
      r := Ok(grant);
    }

    /** Under the head lock, with `db` as it was before: the row and the advance of the head. */
    method InsertGeneration(grantID: string, generation: int, columns: Columns, ghost db: Tables<Columns>)
      requires DbInv(db) && rows == db.rows && heads == db.heads[grantID := Base(db, grantID)]
      requires generation == Base(db, grantID).next && !Base(db, grantID).closed
      modifies this
      ensures Valid() && Db() == Written(db, Issue(grantID, columns))
      ensures Abs(Db()) == Apply(Abs(db), Issue(grantID, columns))
    {
      rows := rows[(grantID, generation) := Generation(columns, false, None)];
      heads := heads[grantID := heads[grantID].(next := heads[grantID].next + 1)];
      IssueWritten(db, grantID, columns, Db());
    }

    method RevokeGeneration(grantID: string, generation: int, nowMs: int, driverOk: bool)
      returns (r: Result<(), StoreError>)
      requires Valid()
      modifies this
      ensures Valid()
      ensures r.Ok? <==> driverOk && 1 <= generation <= |old(AbsRef(Db(), grantID)).generations|
      ensures r.Err? ==> Db() == old(Db())
      ensures r.Ok? ==> Db() == Written(old(Db()), AuthorityRefs.Op.RevokeGeneration(grantID, generation, nowMs))
      ensures r.Ok? ==>
                Abs(Db()) == Apply(old(Abs(Db())), AuthorityRefs.Op.RevokeGeneration(grantID, generation, nowMs))
    {
      ghost var db := Db();
      NoRowsWithoutHead(db, grantID);
      assert (grantID, generation) in rows <==> generation in Generations(db, grantID);
      var savedHeads, savedRows := heads, rows;
      var _, _ := LockAuthorityHead(grantID);
      if (grantID, generation) !in rows {
        heads, rows := savedHeads, savedRows;
        return Err(NotFound);
      }
      rows := rows[(grantID, generation) := Stamp(rows[(grantID, generation)], nowMs)];
      if !driverOk {
        heads, rows := savedHeads, savedRows;
        return Err(DriverError);
      }
      WrittenBy(db, AuthorityRefs.Op.RevokeGeneration(grantID, generation, nowMs), Db());
      r := Ok(());
    }

    method RevokeGrant(grantID: string, nowMs: int, driverOk: bool) returns (r: Result<(), StoreError>)
      requires Valid()
      modifies this
      ensures Valid()
      ensures r.Ok? <==> driverOk && old(AbsRef(Db(), grantID)).generations != []
      ensures r.Err? ==> Db() == old(Db())
      ensures r.Ok? ==> Db() == Written(old(Db()), AuthorityRefs.Op.RevokeGrant(grantID, nowMs))
      ensures r.Ok? ==> Abs(Db()) == Apply(old(Abs(Db())), AuthorityRefs.Op.RevokeGrant(grantID, nowMs))
    {
      ghost var db := Db();
      NoRowsWithoutHead(db, grantID);
      var savedHeads, savedRows := heads, rows;
      var _, _ := LockAuthorityHead(grantID);
      var matched := set k | k in rows && k.0 == grantID;
      rows := StampMatching(rows, grantID, nowMs);
      if matched == {} {
        assert forall g :: g in Generations(db, grantID) ==> (grantID, g) in matched;
        heads, rows := savedHeads, savedRows;
        return Err(NotFound);
      }
      var k :| k in matched;
      assert k.1 in Generations(db, grantID);
      if !driverOk {
        heads, rows := savedHeads, savedRows;
        return Err(DriverError);
      }
      RevokeGrantWritten(db, grantID, nowMs, Db());
      r := Ok(());
    }

    method CloseAuthorityRef(grantID: string, driverOk: bool) returns (r: Result<(), StoreError>)
      requires Valid()
      modifies this
      ensures Valid()
      ensures r.Ok? <==> driverOk
      ensures r.Err? ==> Db() == old(Db())
      ensures r.Ok? ==> Db() == Written(old(Db()), Close(grantID))
      ensures r.Ok? ==> Abs(Db()) == Apply(old(Abs(Db())), Close(grantID))
    {
      ghost var db := Db();
      var savedHeads, savedRows := heads, rows;
      var _, _ := LockAuthorityHead(grantID);
      heads := heads[grantID := heads[grantID].(closed := true)];
      if !driverOk {
        heads, rows := savedHeads, savedRows;
        return Err(DriverError);
      }
      CloseWritten(db, grantID, Db());
      r := Ok(());
    }

    method Resolve(grantID: string, principal: string, nowMs: int) returns (r: Resolution)
      requires Valid()
      ensures r == ResolveIn(Db(), grantID, principal, nowMs)
    {
      if grantID == "" {
        return Denied;
      }
      var latest := MaxGeneration(grantID);
      if (grantID, latest) !in rows {
        return Denied;
      }
      r := ResolveRow(grantID, latest, rows[(grantID, latest)], principal, nowMs);
    }
  }

  /** Tables that differ from `db` by what `op` writes represent `op` applied. */
  lemma WrittenBy(db: Tables<Columns>, op: Op<Columns>, db': Tables<Columns>)
    requires DbInv(db) && ApplyRef(AbsRef(db, op.id), op).Some?
    requires db'.heads == db.heads[op.id := NewHead(db, op)]
    requires db'.rows == db.rows + Keyed(op.id, NewRows(db, op))
    ensures db' == Written(db, op)
    ensures DbInv(db') && Abs(db') == Apply(Abs(db), op)
  {
    assert db' == Written(db, op);
    WrittenRefines(db, op);
  }

  lemma HeadOfRef(db: Tables<Columns>, id: string)
    requires DbInv(db)
    ensures AbsRef(db, id).closed == Base(db, id).closed && |AbsRef(db, id).generations| + 1 == Base(db, id).next
  {
  }

  lemma CloseWritten(db: Tables<Columns>, id: string, db': Tables<Columns>)
    requires DbInv(db)
    requires db'.heads == db.heads[id := Base(db, id).(closed := true)] && db'.rows == db.rows
    ensures db' == Written(db, Close(id))
    ensures DbInv(db') && Abs(db') == Apply(Abs(db), Close(id))
  {
    assert db'.rows == db.rows + Keyed(id, NewRows(db, Close(id)));
    WrittenBy(db, Close(id), db');
  }

  lemma IssueWritten(db: Tables<Columns>, id: string, m: Columns, db': Tables<Columns>)
    requires DbInv(db) && !Base(db, id).closed
    requires db'.heads == db.heads[id := Base(db, id).(next := Base(db, id).next + 1)]
    requires db'.rows == db.rows[(id, Base(db, id).next) := Generation(m, false, None)]
    ensures db' == Written(db, Issue(id, m)) && ApplyRef(AbsRef(db, id), Issue(id, m)).Some?
    ensures DbInv(db') && Abs(db') == Apply(Abs(db), Issue(id, m))
  {
    assert db'.rows == db.rows + Keyed(id, NewRows(db, Issue(id, m)));
    WrittenBy(db, Issue(id, m), db');
  }

  /** `UPDATE ... SET revoked, revoked_at WHERE grant_id = id`. */
  function StampMatching(rows: map<(string, int), Row>, id: string, at: int): map<(string, int), Row>
  {
    map k | k in rows :: if k.0 == id then Stamp(rows[k], at) else rows[k]
  }

  lemma StampedRow(db: Tables<Columns>, id: string, at: int, k: (string, int))
    requires DbInv(db)
    ensures var keyed := Keyed(id, NewRows(db, AuthorityRefs.Op.RevokeGrant(id, at)));
            && (k in keyed <==> k in db.rows && k.0 == id)
            && (k in keyed ==> keyed[k] == Stamp(db.rows[k], at))
  {
    if k in db.rows && k.0 == id {
      assert k == (id, k.1) && k.1 in Generations(db, id);
    }
  }

  lemma StampedRows(db: Tables<Columns>, id: string, at: int, keyed: map<(string, int), Row>)
    requires DbInv(db) && keyed == Keyed(id, NewRows(db, AuthorityRefs.Op.RevokeGrant(id, at)))
    ensures StampMatching(db.rows, id, at) == db.rows + keyed
  {
    forall k ensures (k in keyed <==> k in db.rows && k.0 == id) && (k in keyed ==> keyed[k] == Stamp(db.rows[k], at)) {
      StampedRow(db, id, at, k);
    }
    StampUnion(db.rows, id, at, keyed);
  }

  lemma StampUnion(rows: map<(string, int), Row>, id: string, at: int, keyed: map<(string, int), Row>)
    requires forall k :: (k in keyed <==> k in rows && k.0 == id) && (k in keyed ==> keyed[k] == Stamp(rows[k], at))
    ensures StampMatching(rows, id, at) == rows + keyed
  {
    var all := rows + keyed;
    forall k ensures k in all <==> k in rows {
    }
  }

  lemma RevokeGrantWritten(db: Tables<Columns>, id: string, at: int, db': Tables<Columns>)
    requires DbInv(db) && id in db.heads && db.heads[id].next > 1
    requires db'.heads == db.heads[id := Base(db, id)] && db'.rows == StampMatching(db.rows, id, at)
    ensures db' == Written(db, AuthorityRefs.Op.RevokeGrant(id, at))
    ensures ApplyRef(AbsRef(db, id), AuthorityRefs.Op.RevokeGrant(id, at)).Some?
    ensures DbInv(db') && Abs(db') == Apply(Abs(db), AuthorityRefs.Op.RevokeGrant(id, at))
  {
    var op := AuthorityRefs.Op.RevokeGrant(id, at);
    assert |AbsRef(db, id).generations| == db.heads[id].next - 1;
    StampedRows(db, id, at, Keyed(id, NewRows(db, op)));
    assert db' == Written(db, op);
    WrittenRefines(db, op);
  }

  // ---------- sequences of calls ----------

  /** The tables after a sequence of mutator calls, refused ones included. */
  ghost function RunTables(db: Tables<Columns>, ops: seq<Op<Columns>>): (r: Tables<Columns>)
    requires DbInv(db)
    ensures DbInv(r)
    decreases |ops|
  {
    if ops == [] then db
    else if ApplyRef(AbsRef(db, ops[0].id), ops[0]).Some? then
      WrittenRefines(db, ops[0]);
      RunTables(Written(db, ops[0]), ops[1..])
    else RunTables(db, ops[1..])
  }

  lemma {:induction false} RunTablesAppend(db: Tables<Columns>, first: seq<Op<Columns>>, rest: seq<Op<Columns>>)
    requires DbInv(db)
    ensures RunTables(db, first + rest) == RunTables(RunTables(db, first), rest)
    decreases |first|
  {
    if first == [] {
      assert first + rest == rest;
    } else {
      assert (first + rest)[1..] == first[1..] + rest;
      if ApplyRef(AbsRef(db, first[0].id), first[0]).Some? {
        WrittenRefines(db, first[0]);
        RunTablesAppend(Written(db, first[0]), first[1..], rest);
      } else {
        RunTablesAppend(db, first[1..], rest);
      }
    }
  }

  lemma RunTablesSnoc(db: Tables<Columns>, ops: seq<Op<Columns>>, op: Op<Columns>)
    requires DbInv(db) && ApplyRef(AbsRef(RunTables(db, ops), op.id), op).Some?
    ensures RunTables(db, ops + [op]) == Written(RunTables(db, ops), op)
  {
    RunTablesAppend(db, ops, [op]);
    WrittenRefines(RunTables(db, ops), op);
    assert [op][1..] == [];
  }

  lemma {:induction false} RunTablesRefines(db: Tables<Columns>, ops: seq<Op<Columns>>)
    requires DbInv(db)
    ensures Abs(RunTables(db, ops)) == Run(Abs(db), ops)
    decreases |ops|
  {
    if ops != [] {
      RefOfAbs(db, ops[0].id);
      if ApplyRef(AbsRef(db, ops[0].id), ops[0]).Some? {
        WrittenRefines(db, ops[0]);
        RunTablesRefines(Written(db, ops[0]), ops[1..]);
      } else {
        RunTablesRefines(db, ops[1..]);
      }
    }
  }

  lemma RunTablesEvolve(db: Tables<Columns>, ops: seq<Op<Columns>>, id: string)
    requires DbInv(db)
    ensures Evolves(AbsRef(db, id), AbsRef(RunTables(db, ops), id))
  {
    RunTablesRefines(db, ops);
    RunEvolves(Abs(db), ops, id);
    RefOfAbs(db, id);
    RefOfAbs(RunTables(db, ops), id);
  }

  /** What a later read may return, given any earlier state of the store. */
  lemma RunSafety(db: Tables<Columns>, ops: seq<Op<Columns>>, id: string, principal: string, nowMs: int)
    requires DbInv(db)
    ensures var r1, r2 := AbsRef(db, id), AbsRef(RunTables(db, ops), id);
            var read := ResolveIn(RunTables(db, ops), id, principal, nowMs);
            && Evolves(r1, r2)
            && (read.Resolved? ==> read.grant.generation >= |r1.generations|)
            && (read.Resolved? && AllRevoked(r1) ==> read.grant.generation > |r1.generations|)
            && (r1.closed ==> |r2.generations| == |r1.generations|)
  {
    var db2 := RunTables(db, ops);
    RunTablesEvolve(db, ops, id);
    ResolveReturnsLive(db2, id, principal, nowMs);
    if AllRevoked(AbsRef(db, id)) { RevokedUntilReissued(AbsRef(db, id), AbsRef(db2, id)); }
  }

  /** A row as issued reads back as exactly the minted grant, for every capability list and every
      constraint map, until it expires on SQLite's clock. */
  lemma IssuedRowReads(id: string, generation: int, principal: string, capabilities: seq<string>,
                       constraints: Constraints, expiresAt: Time, appNow: Time, nowMs: int)
    ensures var g := Mint(id, generation, principal, capabilities, constraints, expiresAt, appNow);
            ResolveRow(id, generation, Generation(ColumnsOf(g, expiresAt), false, None), principal, nowMs) ==
              if expiresAt == ZERO_TIME || nowMs < UnixMilli(expiresAt) then Resolved(g) else Denied
  {
    var g := Mint(id, generation, principal, capabilities, constraints, expiresAt, appNow);
    NormalizedTwice(appNow);
    NormalizedTwice(expiresAt);
    assert MaterialOf(g) == MaterialOf(g.(digest := Blank));
    assert DecodedGrant(id, generation, ColumnsOf(g, expiresAt), capabilities, constraints) == g;
  }

  /** Round trip: from an accepted issue on, while its generation is the live one. */
  lemma IssueThenResolve(db: Tables<Columns>, id: string, principal: string, capabilities: seq<string>,
                         constraints: Constraints, expiresAt: Time, appNow: Time, ops: seq<Op<Columns>>, nowMs: int)
    requires DbInv(db) && id != "" && !AbsRef(db, id).closed
    ensures var n := |AbsRef(db, id).generations| + 1;
            var g := Mint(id, n, principal, capabilities, constraints, expiresAt, appNow);
            var op := Issue(id, ColumnsOf(g, expiresAt));
            && DbInv(Written(db, op))
            && (var db2 := RunTables(Written(db, op), ops);
                Live(AbsRef(db2, id)) == Some(n) && (expiresAt == ZERO_TIME || nowMs < UnixMilli(expiresAt)) ==>
                  ResolveIn(db2, id, principal, nowMs) == Resolved(g))
  {
    var n := |AbsRef(db, id).generations| + 1;
    var g := Mint(id, n, principal, capabilities, constraints, expiresAt, appNow);
    var op := Issue(id, ColumnsOf(g, expiresAt));
    WrittenRefines(db, op);
    IssuedRowReads(id, n, principal, capabilities, constraints, expiresAt, appNow, nowMs);
    LaterRead(Written(db, op), ops, id, n, principal, nowMs);
  }

  lemma LaterRead(db: Tables<Columns>, ops: seq<Op<Columns>>, id: string, n: int, principal: string, nowMs: int)
    requires DbInv(db) && id != "" && |AbsRef(db, id).generations| == n >= 1
    ensures var db2 := RunTables(db, ops);
            Live(AbsRef(db2, id)) == Some(n) ==>
              ResolveIn(db2, id, principal, nowMs) ==
                ResolveRow(id, n, Generation(AbsRef(db, id).generations[n - 1].material, false, None), principal, nowMs)
  {
    RunTablesEvolve(db, ops, id);
    ReadOfLatest(RunTables(db, ops), AbsRef(db, id).generations[n - 1], id, n, principal, nowMs);
  }

  /** A read of a live generation that evolved from `g` is a read of its material. */
  lemma ReadOfLatest(db: Tables<Columns>, g: Generation<Columns>, id: string, n: int, principal: string, nowMs: int)
    requires DbInv(db) && id != "" && n >= 1
    requires n <= |AbsRef(db, id).generations| ==> GenerationEvolves(g, AbsRef(db, id).generations[n - 1])
    ensures Live(AbsRef(db, id)) == Some(n) ==>
              ResolveIn(db, id, principal, nowMs) == ResolveRow(id, n, Generation(g.material, false, None),
                  principal, nowMs)
  {
    NoRowsWithoutHead(db, id);
    if Live(AbsRef(db, id)) == Some(n) {
      assert AbsRef(db, id).generations[n - 1] == RowAt(db, id, n - 1) == db.rows[(id, n)];
    }
  }

  // ---------- the store under any sequence of calls ----------

  datatype Call =
    | CallIssue(id: string, principal: string, capabilities: seq<string>, constraints: Constraints, expiresAt: Time,
        appNow: Time)
    | CallRevokeGeneration(id: string, generation: int, nowMs: int)
    | CallRevokeGrant(id: string, nowMs: int)
    | CallClose(id: string)

  /** The operation a call asks for on these tables. */
  ghost function OpFor(db: Tables<Columns>, c: Call): (op: Op<Columns>)
    requires DbInv(db)
    ensures op.id == c.id
  {
    match c
    case CallIssue(id, principal, capabilities, constraints, expiresAt, appNow) =>
      var n := |AbsRef(db, id).generations| + 1;
      Issue(id, ColumnsOf(Mint(id, n, principal, capabilities, constraints, expiresAt, appNow), expiresAt))
    case CallRevokeGeneration(id, generation, nowMs) => AuthorityRefs.Op.RevokeGeneration(id, generation, nowMs)
    case CallRevokeGrant(id, nowMs) => AuthorityRefs.Op.RevokeGrant(id, nowMs)
    case CallClose(id) => Close(id)
  }

  ghost predicate Takes(db: Tables<Columns>, c: Call, driverOk: bool)
    requires DbInv(db)
  {
    driverOk && ApplyRef(AbsRef(db, c.id), OpFor(db, c)).Some?
  }

  lemma TakesWhen(db: Tables<Columns>, c: Call, driverOk: bool)
    requires DbInv(db)
    ensures Takes(db, c, driverOk) <==>
              driverOk && match c
                          case CallIssue(_, _, _, _, _, _) => !AbsRef(db, c.id).closed
                          case CallRevokeGeneration(_, g, _) => 1 <= g <= |AbsRef(db, c.id).generations|
                          case CallRevokeGrant(_, _) => AbsRef(db, c.id).generations != []
                          case CallClose(_) => true
  {
  }

  /** A call takes effect exactly when the driver does not fail and the specification accepts it. */
  method Perform(store: SQLiteStore, c: Call, driverOk: bool) returns (accepted: bool)
    requires store.Valid()
    modifies store
    ensures store.Valid()
    ensures accepted <==> Takes(old(store.Db()), c, driverOk)
    ensures store.Db() == if accepted then Written(old(store.Db()), OpFor(old(store.Db()), c)) else old(store.Db())
  {
    ghost var op := OpFor(store.Db(), c);
    TakesWhen(store.Db(), c, driverOk);
    match c
    case CallIssue(id, principal, capabilities, constraints, expiresAt, appNow) =>
      var r := store.IssueGrantWithConstraints(id, principal, capabilities, constraints, expiresAt, appNow, driverOk);
      assert r.Ok? ==> op == Issue(id, ColumnsOf(r.value, expiresAt));
      accepted := r.Ok?;
    case CallRevokeGeneration(id, generation, nowMs) =>
      assert op == AuthorityRefs.Op.RevokeGeneration(id, generation, nowMs);
      var r := store.RevokeGeneration(id, generation, nowMs, driverOk);
      accepted := r.Ok?;
    case CallRevokeGrant(id, nowMs) =>
      assert op == AuthorityRefs.Op.RevokeGrant(id, nowMs);
      var r := store.RevokeGrant(id, nowMs, driverOk);
      accepted := r.Ok?;
    case CallClose(id) =>
      assert op == Close(id);
      var r := store.CloseAuthorityRef(id, driverOk);
      accepted := r.Ok?;
  }

  /** The operations of the calls that take effect, in order; the flag of a call says whether the
      driver holds up. */
  ghost function OpsOf(db: Tables<Columns>, calls: seq<(Call, bool)>): seq<Op<Columns>>
    requires DbInv(db)
    decreases |calls|
  {
    if calls == [] then []
    else if Takes(db, calls[0].0, calls[0].1) then
      WrittenRefines(db, OpFor(db, calls[0].0));
      [OpFor(db, calls[0].0)] + OpsOf(Written(db, OpFor(db, calls[0].0)), calls[1..])
    else OpsOf(db, calls[1..])
  }

  /** Any sequence of calls leaves the tables of a run of the specification. */
  method PerformAll(store: SQLiteStore, calls: seq<(Call, bool)>)
    requires store.Valid()
    modifies store
    ensures store.Valid() && store.Db() == RunTables(old(store.Db()), OpsOf(old(store.Db()), calls))
  {
    ghost var start := store.Db();
    ghost var done: seq<Op<Columns>> := [];
    for k := 0 to |calls|
      invariant store.Valid() && store.Db() == RunTables(start, done)
      invariant OpsOf(start, calls) == done + OpsOf(store.Db(), calls[k..])
    {
      ghost var before := store.Db();
      assert calls[k..][0] == calls[k] && calls[k..][1..] == calls[k + 1..];
      var accepted := Perform(store, calls[k].0, calls[k].1);
      if accepted {
        ghost var op := OpFor(before, calls[k].0);
        RunTablesSnoc(start, done, op);
        TookEffect(start, calls, done, before, k);
        done := done + [op];
      }
    }
    assert done + [] == done;
  }

  lemma TookEffect(start: Tables<Columns>, calls: seq<(Call, bool)>, done: seq<Op<Columns>>, db: Tables<Columns>,
                   k: nat)
    requires DbInv(start) && DbInv(db) && k < |calls| && Takes(db, calls[k].0, calls[k].1)
    requires DbInv(Written(db, OpFor(db, calls[k].0)))
    requires OpsOf(start, calls) == done + OpsOf(db, calls[k..])
    ensures OpsOf(start, calls) ==
            (done + [OpFor(db, calls[k].0)]) + OpsOf(Written(db, OpFor(db, calls[k].0)), calls[k + 1..])
  {
    assert calls[k..][0] == calls[k] && calls[k..][1..] == calls[k + 1..];
    var op := OpFor(db, calls[k].0);
    FirstTakesEffect(db, calls[k..]);
    Regrouped(done, op, OpsOf(Written(db, op), calls[k + 1..]));
  }

  lemma FirstTakesEffect(db: Tables<Columns>, calls: seq<(Call, bool)>)
    requires DbInv(db) && calls != [] && Takes(db, calls[0].0, calls[0].1)
    requires DbInv(Written(db, OpFor(db, calls[0].0)))
    ensures OpsOf(db, calls) == [OpFor(db, calls[0].0)] + OpsOf(Written(db, OpFor(db, calls[0].0)), calls[1..])
  {
  }

  lemma Regrouped(done: seq<Op<Columns>>, op: Op<Columns>, rest: seq<Op<Columns>>)
    ensures done + ([op] + rest) == (done + [op]) + rest
  {
  }

  /** An accepted issue, then any sequence of calls, then a read by its principal. */
  method IssueCallsRead(store: SQLiteStore, issue: Call, calls: seq<(Call, bool)>, nowMs: int)
    returns (grant: Option<Grant>, read: Resolution)
    requires store.Valid() && issue.CallIssue? && issue.id != ""
    modifies store
    ensures store.Valid()
    ensures grant.Some? <==> !old(AbsRef(store.Db(), issue.id)).closed
    ensures grant.Some? ==> grant.value.generation == |old(AbsRef(store.Db(), issue.id)).generations| + 1
    ensures grant.Some? && Live(AbsRef(store.Db(), issue.id)) == Some(grant.value.generation) ==>
              (issue.expiresAt == ZERO_TIME || nowMs < UnixMilli(issue.expiresAt)) ==> read == Resolved(grant.value)
  {
    ghost var db := store.Db();
    var r := store.IssueGrantWithConstraints(issue.id, issue.principal, issue.capabilities, issue.constraints,
                                             issue.expiresAt, issue.appNow, true);
    grant := if r.Ok? then Some(r.value) else None;
    ghost var ops := OpsOf(store.Db(), calls);
    PerformAll(store, calls);
    read := store.Resolve(issue.id, issue.principal, nowMs);
    if r.Ok? {
      IssueThenResolve(db, issue.id, issue.principal, issue.capabilities, issue.constraints, issue.expiresAt,
                       issue.appNow, ops, nowMs);
    }
  }

  // ---------- revoking and closing are final ----------

  /** A reference whose latest generation is revoked, or that has none, denies every read. */
  lemma DeadDenies(db: Tables<Columns>, id: string, principal: string, nowMs: int)
    requires DbInv(db) && Live(AbsRef(db, id)).None?
    ensures ResolveIn(db, id, principal, nowMs) == Denied
  {
    NoRowsWithoutHead(db, id);
    var n := Base(db, id).next - 1;
    if (id, n) in db.rows {
      assert (id, n).0 == id;
      assert AbsRef(db, id).generations[n - 1] == RowAt(db, id, n - 1) == db.rows[(id, n)];
    }
  }

  /** From a revocation of the whole grant on, until it is issued again, every read of it is denied. */
  lemma RevokeAllIsFinal(db: Tables<Columns>, id: string, at: int, ops: seq<Op<Columns>>, principal: string,
                         nowMs: int)
    requires DbInv(db) && AbsRef(db, id).generations != [] && NoIssueOf(ops, id)
    ensures var op := AuthorityRefs.Op.RevokeGrant(id, at);
            DbInv(Written(db, op)) && ResolveIn(RunTables(Written(db, op), ops), id, principal, nowMs) == Denied
  {
    var op: Op<Columns> := AuthorityRefs.Op.RevokeGrant(id, at);
    WrittenRefines(db, op);
    var db1, db2 := Written(db, op), RunTables(Written(db, op), ops);
    RevokeGrantRevokesAll(Abs(db), id, at);
    RefOfAbs(db1, id);
    RunTablesEvolve(db1, ops, id);
    SameLength(db1, ops, id);
    RevokedUntilReissued(AbsRef(db1, id), AbsRef(db2, id));
    DeadDenies(db2, id, principal, nowMs);
  }

  lemma SameLength(db: Tables<Columns>, ops: seq<Op<Columns>>, id: string)
    requires DbInv(db) && NoIssueOf(ops, id)
    ensures |AbsRef(RunTables(db, ops), id).generations| == |AbsRef(db, id).generations|
  {
    RunTablesRefines(db, ops);
    NoIssueKeepsLength(Abs(db), ops, id);
    RefOfAbs(db, id);
    RefOfAbs(RunTables(db, ops), id);
  }

  /** From a revocation of one generation on, no read returns that generation. */
  lemma RevokeOneIsFinal(db: Tables<Columns>, id: string, g: int, at: int, ops: seq<Op<Columns>>, principal: string,
                         nowMs: int)
    requires DbInv(db) && 1 <= g <= |AbsRef(db, id).generations|
    ensures var op := AuthorityRefs.Op.RevokeGeneration(id, g, at);
            DbInv(Written(db, op)) &&
            var read := ResolveIn(RunTables(Written(db, op), ops), id, principal, nowMs);
            read.Resolved? ==> read.grant.generation != g
  {
    var op: Op<Columns> := AuthorityRefs.Op.RevokeGeneration(id, g, at);
    WrittenRefines(db, op);
    var db1, db2 := Written(db, op), RunTables(Written(db, op), ops);
    RunTablesEvolve(db1, ops, id);
    RevokedOneNeverLive(AbsRef(db, id), op, AbsRef(db1, id), AbsRef(db2, id));
    ResolveReturnsLive(db2, id, principal, nowMs);
  }

  /** From a close on, the generations of the reference are the ones it had. */
  lemma CloseIsFinal(db: Tables<Columns>, id: string, ops: seq<Op<Columns>>, g: int)
    requires DbInv(db)
    ensures DbInv(Written(db, Close(id))) &&
            var db2 := RunTables(Written(db, Close(id)), ops);
            AbsRef(db2, id).closed && ((id, g) in db2.rows <==> (id, g) in db.rows)
  {
    var op: Op<Columns> := Close(id);
    WrittenRefines(db, op);
    var db1, db2 := Written(db, op), RunTables(Written(db, op), ops);
    RunTablesEvolve(db1, ops, id);
    ClosedStays(AbsRef(db, id), op, AbsRef(db1, id), AbsRef(db2, id));
    RowsByLength(db, id, g);
    RowsByLength(db2, id, g);
  }

  ghost predicate NoIssueCall(calls: seq<(Call, bool)>, id: string)
  {
    forall c :: c in calls && c.0.id == id ==> !c.0.CallIssue?
  }

  lemma NoIssueCons(op: Op<Columns>, ops: seq<Op<Columns>>, id: string)
    requires (op.id == id ==> !op.Issue?) && NoIssueOf(ops, id)
    ensures NoIssueOf([op] + ops, id)
  {
  }

  lemma NoIssueFirst(calls: seq<(Call, bool)>, id: string)
    requires calls != [] && NoIssueCall(calls, id)
    ensures calls[0].0.id == id ==> !calls[0].0.CallIssue?
    ensures NoIssueCall(calls[1..], id)
  {
    assert calls[0] in calls;
  }

  lemma {:induction false} NoIssueTakesEffect(db: Tables<Columns>, calls: seq<(Call, bool)>, id: string)
    requires DbInv(db) && NoIssueCall(calls, id)
    ensures NoIssueOf(OpsOf(db, calls), id)
    decreases |calls|
  {
    if calls != [] {
      NoIssueFirst(calls, id);
      if Takes(db, calls[0].0, calls[0].1) {
        var op := OpFor(db, calls[0].0);
        WrittenRefines(db, op);
        NoIssueTakesEffect(Written(db, op), calls[1..], id);
        FirstTakesEffect(db, calls);
        NoIssueCons(op, OpsOf(Written(db, op), calls[1..]), id);
      } else {
        NoIssueTakesEffect(db, calls[1..], id);
      }
    }
  }

  /** On the store itself: a call that takes effect, any calls after it, then a read. */
  method CallCallsRead(store: SQLiteStore, first: Call, driverOk: bool, calls: seq<(Call, bool)>, principal: string,
                       nowMs: int) returns (accepted: bool, read: Resolution)
    requires store.Valid()
    modifies store
    ensures store.Valid() && (accepted <==> Takes(old(store.Db()), first, driverOk))
    ensures accepted && first.CallRevokeGrant? && NoIssueCall(calls, first.id) ==> read == Denied
    ensures accepted && first.CallRevokeGeneration? && read.Resolved? ==> read.grant.generation != first.generation
    ensures accepted && first.CallClose? ==>
              && AbsRef(store.Db(), first.id).closed
              && forall g :: (first.id, g) in store.Db().rows <==> (first.id, g) in old(store.Db()).rows
  {
    ghost var db := store.Db();
    accepted := Perform(store, first, driverOk);
    ghost var ops := OpsOf(store.Db(), calls);
    ghost var db1 := store.Db();
    PerformAll(store, calls);
    read := store.Resolve(first.id, principal, nowMs);
    if accepted {
      TakesWhen(db, first, driverOk);
      if first.CallRevokeGrant? && NoIssueCall(calls, first.id) {
        NoIssueTakesEffect(db1, calls, first.id);
        RevokeAllIsFinal(db, first.id, first.nowMs, ops, principal, nowMs);
      } else if first.CallRevokeGeneration? {
        RevokeOneIsFinal(db, first.id, first.generation, first.nowMs, ops, principal, nowMs);
      } else if first.CallClose? {
        CloseKeepsRows(db, first.id, ops);
      }
    }
  }

  lemma CloseKeepsRows(db: Tables<Columns>, id: string, ops: seq<Op<Columns>>)
    requires DbInv(db)
    ensures DbInv(Written(db, Close(id))) &&
            var db2 := RunTables(Written(db, Close(id)), ops);
            AbsRef(db2, id).closed && forall g :: (id, g) in db2.rows <==> (id, g) in db.rows
  {
    CloseIsFinal(db, id, ops, 1);
    forall g: int ensures (id, g) in RunTables(Written(db, Close(id)), ops).rows <==> (id, g) in db.rows {
      CloseIsFinal(db, id, ops, g);
    }
  }
}
