/** The start-up upgrade of an existing PostgreSQL authority table: single-generation rows
    become generation 1, heads are seeded, and every digest is recomputed on the millisecond
    form a read reproduces (internal/authority/store.go). */
module PostgresUpgrade {
  import opened Wrappers
  import opened Grants
  import opened GrantMaterial
  import opened AuthorityRefs
  import opened AuthorityTables
  import opened PostgresAuthority
  import opened PostgresRuns

  type Rows = map<(string, int), Row>

  /** A row of the table as it was before generations: one per grant id, updated in place. */
  datatype LegacyRow = LegacyRow(
    principal: string,
    capabilities: string,
    constraints: JsonText<Constraints>,
    expiresAt: Option<Time>,
    revoked: bool,
    createdAt: Time)

  predicate Decodable(c: Columns)
  {
    ParseTextArray(c.capabilities).Ok? && DecodeJsonb(c.constraints).Ok?
  }

  /** The digest a read will recompute for this row. */
  function DigestFor(k: (string, int), c: Columns): Digest
    requires Decodable(c)
  {
    ComputeGrantDigest(DecodedGrant(k.0, k.1, c, ParseTextArray(c.capabilities).value,
        DecodeJsonb(c.constraints).value))
  }

  function WithDigest(k: (string, int), row: Row): Row
    requires Decodable(row.material)
  {
    row.(material := row.material.(digest := DigestFor(k, row.material)))
  }

  ghost predicate AllDecodable(rows: Rows)
  {
    forall k :: k in rows ==> Decodable(rows[k].material)
  }

  /** Collects every row's new digest before writing any, so one undecodable row aborts the
      whole rewrite; the order in which the table is scanned does not matter. */
  method RecomputeGrantDigests(rows: Rows) returns (r: Result<Rows, DecodeError>)
    ensures r.Ok? <==> AllDecodable(rows)
    ensures r.Ok? ==> r.value.Keys == rows.Keys && forall k :: k in rows ==> r.value[k] == WithDigest(k, rows[k])
  {
    var pending := CollectDigests(rows);
    if pending.Err? {
      return Err(pending.error);
    }
    var out := WriteDigests(rows, pending.value);
    r := Ok(out);
  }

  method CollectDigests(rows: Rows) returns (r: Result<map<(string, int), Digest>, DecodeError>)
    ensures r.Ok? <==> AllDecodable(rows)
    ensures r.Ok? ==> r.value.Keys == rows.Keys && forall k :: k in rows ==>
              r.value[k] == DigestFor(k, rows[k].material)
  {
    var pending: map<(string, int), Digest> := map[];
    var left := rows.Keys;
    while left != {}
      invariant left <= rows.Keys && pending.Keys == rows.Keys - left
      invariant forall k :: k in pending ==> Decodable(rows[k].material) && pending[k] == DigestFor(k, rows[k].material)
      decreases left
    {
      var k :| k in left;
      var c := rows[k].material;
      var capabilities := ParseTextArray(c.capabilities);
      if capabilities.Err? {
        return Err(capabilities.error);
      }
      var constraints := DecodeJsonb(c.constraints);
      if constraints.Err? {
        return Err(constraints.error);
      }
      pending := pending[k := ComputeGrantDigest(DecodedGrant(k.0, k.1, c, capabilities.value, constraints.value))];
      left := left - {k};
    }
    r := Ok(pending);
  }

  function SetDigest(row: Row, digest: Digest): Row { row.(material := row.material.(digest := digest)) }

  /** Rows whose digest is already the pending one are left alone. */
  method WriteDigests(rows: Rows, pending: map<(string, int), Digest>) returns (out: Rows)
    requires pending.Keys <= rows.Keys
    ensures out.Keys == rows.Keys
    ensures forall k :: k in rows ==> out[k] == if k in pending then SetDigest(rows[k], pending[k]) else rows[k]
  {
    out := rows;
    var left := pending.Keys;
    while left != {}
      invariant left <= pending.Keys && out.Keys == rows.Keys
      invariant forall k :: k in rows ==>
                  out[k] == if k in pending && k !in left then SetDigest(rows[k], pending[k]) else rows[k]
      decreases left
    {
      var k :| k in left;
      if out[k].material.digest != pending[k] {
        out := out[k := SetDigest(out[k], pending[k])];
      }
      left := left - {k};
    }
  }

  // ---------- from the legacy table ----------

  /** The first transaction: every legacy row becomes generation 1, as yet without an issue time. */
  function Migrated(l: LegacyRow): Row
  {
    Generation(Columns(l.principal, l.capabilities, l.constraints, Blank, None, l.expiresAt), l.revoked, None)
  }

  function MigratedRows(table: map<string, LegacyRow>): Rows
  {
    map id | id in table :: (id, 1) := Migrated(table[id])
  }

  /** The digest that transaction fills in: over the expiry as stored and no issue time. */
  function BackfillDigest(k: (string, int), c: Columns): Digest
    requires Decodable(c)
  {
    ComputeGrantDigest(Grant(k.0, k.1, c.principal,
                             ParseTextArray(c.capabilities).value, DecodeJsonb(c.constraints).value,
                             ZERO_TIME, if c.expiresAt.Some? then c.expiresAt.value else ZERO_TIME, false, Blank))
  }

  /** Only rows without a digest are looked at, and one of them undecodable aborts the migration. */
  method BackfillGrantDigests(rows: Rows) returns (r: Result<Rows, DecodeError>)
    ensures r.Ok? <==> forall k :: k in rows && rows[k].material.digest == Blank ==> Decodable(rows[k].material)
    ensures r.Ok? ==> r.value.Keys == rows.Keys && forall k :: k in rows ==>
              r.value[k] == if rows[k].material.digest == Blank
                  then SetDigest(rows[k], BackfillDigest(k, rows[k].material)) else rows[k]
  {
    var pending: map<(string, int), Digest> := map[];
    var blank := set k | k in rows && rows[k].material.digest == Blank;
    var left := blank;
    while left != {}
      invariant left <= blank && pending.Keys == blank - left
      invariant forall k :: k in pending ==>
                Decodable(rows[k].material) && pending[k] == BackfillDigest(k, rows[k].material)
      decreases left
    {
      var k :| k in left;
      if !Decodable(rows[k].material) {
        return Err(if ParseTextArray(rows[k].material.capabilities).Err?
            then ParseTextArray(rows[k].material.capabilities).error
                   else DecodeJsonb(rows[k].material.constraints).error);
      }
      pending := pending[k := BackfillDigest(k, rows[k].material)];
      left := left - {k};
    }
    var out := WriteDigests(rows, pending);
    r := Ok(out);
  }

  function SetIssued(row: Row, at: Time): Row { row.(material := row.material.(issuedAt := Some(at))) }

  /** The second transaction dates the rows that have no issue time by when they were created. */
  function Dated(table: map<string, LegacyRow>, rows: Rows): Rows
  {
    map k | k in rows :: if k.0 in table && rows[k].material.issuedAt.None?
                         then SetIssued(rows[k], table[k.0].createdAt) else rows[k]
  }

  /** Both transactions in turn. The digests of the first do not survive the second. */
  method Upgrade(table: map<string, LegacyRow>) returns (r: Result<Rows, DecodeError>)
    ensures r.Ok? <==> AllDecodable(FirstGenerations(table))
    ensures r.Ok? ==> UpgradeOf(table, r.value)
  {
    var migrated := MigratedRows(table);
    MigratedBlank(table);
    SameDecodable(table);
    var filled := BackfillGrantDigests(migrated);
    if filled.Err? {
      return filled;
    }
    var dated := Dated(table, filled.value);
    DatedDecodable(table, filled.value);
    r := RecomputeGrantDigests(dated);
    DatedUpgrades(table, filled.value, r.value);
  }

  ghost predicate Backfilled(table: map<string, LegacyRow>, filled: Rows)
  {
    && filled.Keys == MigratedRows(table).Keys && AllDecodable(MigratedRows(table))
    && forall k :: k in filled ==>
         filled[k] == SetDigest(MigratedRows(table)[k], BackfillDigest(k, MigratedRows(table)[k].material))
  }

  lemma BackfilledRow(table: map<string, LegacyRow>, filled: Rows, k: (string, int))
    requires Backfilled(table, filled) && k in filled
    ensures k.0 in table && k.1 == 1 && Decodable(Migrated(table[k.0]).material)
    ensures filled[k] == SetDigest(Migrated(table[k.0]), BackfillDigest(k, Migrated(table[k.0]).material))
  {
    MigratedKeys(table);
    assert k in MigratedRows(table) && k == (k.0, 1);
    assert MigratedRows(table)[k] == Migrated(table[k.0]);
  }

  lemma DatedDecodable(table: map<string, LegacyRow>, filled: Rows)
    requires Backfilled(table, filled)
    ensures AllDecodable(Dated(table, filled))
  {
    forall k | k in Dated(table, filled) ensures Decodable(Dated(table, filled)[k].material) {
      BackfilledRow(table, filled, k);
      DatedRow(table, filled, k);
    }
  }

  /** Dated and redigested, the backfilled rows are those of the upgraded table. */
  lemma DatedUpgrades(table: map<string, LegacyRow>, filled: Rows, out: Rows)
    requires Backfilled(table, filled) && AllDecodable(Dated(table, filled)) && out.Keys == Dated(table, filled).Keys
    requires forall k :: k in out ==> out[k] == WithDigest(k, Dated(table, filled)[k])
    ensures UpgradeOf(table, out)
  {
    SameDecodable(table);
    SameKeys(table);
    assert out.Keys == FirstGenerations(table).Keys by {
      assert Dated(table, filled).Keys == filled.Keys;
    }
    forall k | k in out ensures out[k] == WithDigest(k, FirstGenerations(table)[k]) {
      BackfilledRow(table, filled, k);
      DatedRow(table, filled, k);
    }
  }

  lemma SameKeys(table: map<string, LegacyRow>)
    ensures MigratedRows(table).Keys == FirstGenerations(table).Keys
  {
    MigratedKeys(table);
    FirstGenerationKeys(table);
    forall k ensures k in MigratedRows(table).Keys <==> k in FirstGenerations(table).Keys {
    }
  }

  lemma MigratedBlank(table: map<string, LegacyRow>)
    ensures forall k :: k in MigratedRows(table) ==> MigratedRows(table)[k].material.digest == Blank
  {
  }

  lemma MigratedKeys(table: map<string, LegacyRow>)
    ensures forall k :: k in MigratedRows(table) <==> k.0 in table && k.1 == 1
  {
    forall k ensures k in MigratedRows(table) <==> k.0 in table && k.1 == 1 {
      if k.0 in table && k.1 == 1 { assert k == (k.0, 1); }
    }
  }

  lemma SameDecodable(table: map<string, LegacyRow>)
    ensures AllDecodable(FirstGenerations(table)) <==> AllDecodable(MigratedRows(table))
  {
    MigratedKeys(table);
    FirstGenerationKeys(table);
    forall k | k in MigratedRows(table)
      ensures Decodable(MigratedRows(table)[k].material) <==> Decodable(FirstGenerations(table)[k].material)
    {
      assert k == (k.0, 1);
    }
  }

  lemma DatedRow(table: map<string, LegacyRow>, filled: Rows, k: (string, int))
    requires k.0 in table && k.1 == 1 && k in filled && Decodable(Migrated(table[k.0]).material)
    requires filled[k] == SetDigest(Migrated(table[k.0]), BackfillDigest(k, Migrated(table[k.0]).material))
    ensures k in Dated(table, filled) && Decodable(Dated(table, filled)[k].material)
    ensures k in FirstGenerations(table) && Decodable(FirstGenerations(table)[k].material)
    ensures WithDigest(k, Dated(table, filled)[k]) == WithDigest(k, FirstGenerations(table)[k])
  {
    assert k == (k.0, 1);
    var row, first := Dated(table, filled)[k], FirstGeneration(table[k.0]);
    assert row == SetDigest(first, row.material.digest);
    SameDigestFor(k, row.material, first.material);
  }

  /** The recomputed digest does not depend on the one it replaces. */
  lemma SameDigestFor(k: (string, int), c: Columns, d: Columns)
    requires c.(digest := Blank) == d.(digest := Blank) && Decodable(c) && Decodable(d)
    ensures DigestFor(k, c) == DigestFor(k, d)
  {
    var capabilities, constraints := ParseTextArray(c.capabilities).value, DecodeJsonb(c.constraints).value;
    assert MaterialOf(DecodedGrant(k.0, k.1, c, capabilities, constraints)) ==
           MaterialOf(DecodedGrant(k.0, k.1, d, capabilities, constraints));
  }

  function FirstGeneration(l: LegacyRow): Row
  {
    Generation(Columns(l.principal, l.capabilities, l.constraints, Blank, Some(l.createdAt), l.expiresAt), l.revoked,
        None)
  }

  function FirstGenerations(table: map<string, LegacyRow>): Rows
  {
    map id | id in table :: (id, 1) := FirstGeneration(table[id])
  }

  /** One head per grant id present, at `MAX(generation) + 1`. */
  ghost function SeededHeads(rows: Rows): map<string, Head>
  {
    map k | k in rows :: k.0 := Head(MaxOf(Generations(Tables(map[], rows), k.0)) + 1, false)
  }

  lemma {:induction false} LegacyHeads(table: map<string, LegacyRow>, rows: Rows)
    requires rows.Keys == FirstGenerations(table).Keys
    ensures SeededHeads(rows).Keys == table.Keys
    ensures forall id :: id in table ==> SeededHeads(rows)[id] == Head(2, false)
  {
    forall id | id in table ensures (id, 1) in rows && MaxOf(Generations(Tables(map[], rows), id)) == 1 {
      assert (id, 1) in FirstGenerations(table).Keys;
      forall g ensures g in Generations(Tables(map[], rows), id) <==> 1 <= g <= 1 {
        if g in Generations(Tables(map[], rows), id) {
          assert (id, g) in FirstGenerations(table).Keys;
        }
      }
      MaxOfRange(Generations(Tables(map[], rows), id), 1);
    }
    forall id ensures id in SeededHeads(rows) <==> id in table {
      if id in SeededHeads(rows) {
        var k :| k in rows && k.0 == id;
        assert k in FirstGenerations(table).Keys;
      }
      if id in table {
        assert (id, 1) in rows && (id, 1).0 == id;
      }
    }
  }

  lemma RecomputedRowVerifies(k: (string, int), row: Row, principal: string, now: Time)
    requires Decodable(row.material)
    ensures ResolveRow(k.0, k.1, WithDigest(k, row), principal, now) != Unverified
  {
    var c := row.material;
    var capabilities, constraints := ParseTextArray(c.capabilities).value, DecodeJsonb(c.constraints).value;
    var g := DecodedGrant(k.0, k.1, c, capabilities, constraints);
    var g' := DecodedGrant(k.0, k.1, WithDigest(k, row).material, capabilities, constraints);
    assert MaterialOf(g') == MaterialOf(g);
  }

  ghost predicate UpgradeOf(table: map<string, LegacyRow>, rows: Rows)
  {
    && AllDecodable(FirstGenerations(table))
    && rows.Keys == FirstGenerations(table).Keys
    && forall k :: k in rows ==> rows[k] == WithDigest(k, FirstGenerations(table)[k])
  }

  lemma FirstGenerationKeys(table: map<string, LegacyRow>)
    ensures forall k :: k in FirstGenerations(table) <==> k.0 in table && k.1 == 1
  {
    forall k ensures k in FirstGenerations(table) <==> k.0 in table && k.1 == 1 {
      if k.0 in table && k.1 == 1 { assert k == (k.0, 1); }
    }
  }

  lemma OneGenerationEach(heads: map<string, Head>, rows: Rows, now: Time)
    requires forall id :: id in heads ==> heads[id] == Head(2, false)
    requires forall k :: k in rows <==> k.0 in heads && k.1 == 1
    ensures Inv(State(Tables(heads, rows), now, map[]))
  {
  }

  /** An upgraded legacy table satisfies the store's invariant, with one open generation per id. */
  lemma UpgradedStoreInv(table: map<string, LegacyRow>, rows: Rows, now: Time)
    requires rows.Keys == FirstGenerations(table).Keys
    ensures SeededHeads(rows).Keys == table.Keys
    ensures Inv(State(Tables(SeededHeads(rows), rows), now, map[]))
  {
    var heads := SeededHeads(rows);
    LegacyHeads(table, rows);
    FirstGenerationKeys(table);
    assert forall k :: k in rows <==> k in FirstGenerations(table);
    OneGenerationEach(heads, rows, now);
  }

  // ---------- where runs start ----------

  /** A store just opened: empty, or upgraded from a legacy table, at any time. */
  ghost predicate Initial(s: State)
  {
    && s.txs == map[]
    && (s.db == Tables(map[], map[]) ||
        exists table, rows :: UpgradeOf(table, rows) && s.db == Tables(SeededHeads(rows), rows))
  }

  lemma InitialInv(s: State)
    requires Initial(s)
    ensures Inv(s)
  {
    if s.db != Tables(map[], map[]) {
      var table, rows :| UpgradeOf(table, rows) && s.db == Tables(SeededHeads(rows), rows);
      UpgradedStoreInv(table, rows, s.now);
    }
  }

  /** Action `i` commits generation `g` of `id`, and a later action `j` commits generation `h`. */
  ghost predicate CommitsInTurn(s: State, actions: seq<Action>, id: string, i: int, j: int, g: int, h: int)
  {
    && 0 <= i < j < |actions|
    && CommitsGeneration(RunFrom(s, actions[..i]), actions[i], id, g)
    && CommitsGeneration(RunFrom(s, actions[..j]), actions[j], id, h)
  }

  /** In every interleaving from the opening of the store on: generations are exactly 1 .. next - 1, no
      insert meets an existing row, and issues commit in the order of their generations. */
  lemma ContiguousFromStart(s: State, actions: seq<Action>, id: string)
    requires Initial(s)
    ensures var s' := RunFrom(s, actions);
            && (forall g :: (id, g) in s'.db.rows <==> id in s'.db.heads && 1 <= g < s'.db.heads[id].next)
            && (forall t :: t in s'.txs ==> !s'.txs[t].phase.Collided?)
    ensures forall i, j, g, h :: CommitsInTurn(s, actions, id, i, j, g, h) ==> g < h
  {
    InitialInv(s);
    GenerationsContiguous(s, actions, id);
    forall i, j, g, h | CommitsInTurn(s, actions, id, i, j, g, h) ensures g < h {
      CommitOrder(s, actions, i, j, id, g, h);
    }
  }

  /** It keeps every row's columns and revocation. */
  lemma UpgradedRowsKept(table: map<string, LegacyRow>, rows: Rows, id: string)
    requires UpgradeOf(table, rows) && id in table
    ensures (id, 1) in rows && rows[(id, 1)].revoked == table[id].revoked && rows[(id, 1)].revokedAt == None
    ensures var c := rows[(id, 1)].material;
            && c.(digest := Blank) == FirstGeneration(table[id]).material
  {
    assert (id, 1) in FirstGenerations(table).Keys;
    assert FirstGenerations(table)[(id, 1)] == FirstGeneration(table[id]);
  }

  /** No row of it can fail digest verification on a read. */
  lemma UpgradedReadsVerify(table: map<string, LegacyRow>, rows: Rows, id: string, principal: string, now: Time)
    requires UpgradeOf(table, rows)
    ensures Resolve(Tables(SeededHeads(rows), rows), id, principal, now) != Unverified
  {
    var db := Tables(SeededHeads(rows), rows);
    var latest := MaxOf(Generations(db, id));
    if (id, latest) in db.rows {
      assert (id, latest) in FirstGenerations(table).Keys;
      RecomputedRowVerifies((id, latest), FirstGenerations(table)[(id, latest)], principal, now);
    }
  }
}
