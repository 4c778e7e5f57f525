/** The PostgreSQL authority store as interleaved transactions (internal/authority/store.go).

    Any number of transactions are in flight; each advances one statement at a time, may roll
    back at any point, and blocks where PostgreSQL would block: an INSERT of a head row waits
    for another transaction's uncommitted head row, and SELECT ... FOR UPDATE waits for the
    row's lock.  `NOW()` is the time the transaction began. */
module PostgresAuthority {
  import opened Wrappers
  import opened Grants
  import opened GrantMaterial
  import opened AuthorityRefs
  import opened AuthorityTables

  // ---------- tables ----------

  /** The columns of `authority_grants` that an issued row never changes. */
  datatype Columns = Columns(
    principal: string,
    capabilities: string,
    constraints: JsonText<Constraints>,
    digest: Digest,
    issuedAt: Option<Time>,
    expiresAt: Option<Time>)

  type Row = Generation<Columns>

  type Db = Tables<Columns>

  // ---------- transactions ----------

  datatype Request =
    | IssueGrant(id: string, principal: string, capabilities: seq<string>, constraints: Constraints, expiresAt: Time)
    | RevokeOne(id: string, generation: int)
    | RevokeAll(id: string)
    | CloseRef(id: string)

  /** How far a transaction has come.  `Refused` and `Collided` can only roll back. */
  datatype Phase =
    | Begun
    | SeedRead(seed: int)
    | HeadEnsured
    | Locked(next: int, closed: bool)
    | Inserted(next: int)
    | Ready
    | Refused
    | Collided

  /** `head` and `rows` are the transaction's own, uncommitted versions of rows of its id. */
  datatype Tx = Tx(
    request: Request,
    startedAt: Time,
    phase: Phase,
    inserted: bool,
    head: Option<Head>,
    rows: map<int, Row>)

  datatype State = State(db: Db, now: Time, txs: map<nat, Tx>)

  datatype Action =
    | Tick(elapsed: nat)
    | Begin(t: nat, request: Request)
    | ReadSeed(t: nat)
    | EnsureHead(t: nat)
    | LockHead(t: nat)
    | InsertRow(t: nat, appNow: Time)
    | AdvanceHead(t: nat)
    | UpdateRows(t: nat)
    | SetClosed(t: nat)
    | Commit(t: nat)
    | Rollback(t: nat)

  predicate HoldsLock(tx: Tx)
  {
    tx.phase.Locked? || tx.phase.Inserted? || tx.phase.Ready? || tx.phase.Refused? || tx.phase.Collided?
  }

  predicate Exclusive(tx: Tx) { tx.inserted || HoldsLock(tx) }

  ghost predicate OtherInserted(s: State, t: nat, id: string)
  {
    exists u :: u in s.txs && u != t && s.txs[u].request.id == id && s.txs[u].inserted
  }

  ghost predicate OtherHoldsLock(s: State, t: nat, id: string)
  {
    exists u :: u in s.txs && u != t && s.txs[u].request.id == id && HoldsLock(s.txs[u])
  }

  function NullableTime(t: Time): Option<Time> { if t == ZERO_TIME then None else Some(t) }

  /** The grant an issue transaction mints at generation `generation`. */
  function MintedGrant(request: Request, generation: int, appNow: Time): Grant
    requires request.IssueGrant?
  {
    Mint(request.id, generation, request.principal, request.capabilities, request.constraints, request.expiresAt,
        appNow)
  }

  function ColumnsOf(g: Grant): Columns
  {
    Columns(g.principal, RenderTextArray(g.capabilities), Encoded(g.constraints, false), g.digest,
            NullableTime(g.issuedAt), NullableTime(g.expiresAt))
  }

  function IssuedRow(request: Request, generation: int, appNow: Time): map<int, Row>
    requires request.IssueGrant?
  {
    map[generation := Generation(ColumnsOf(MintedGrant(request, generation, appNow)), false, None)]
  }

  /** The head row as the transaction sees it once it may lock it. */
  function VisibleHead(db: Db, tx: Tx): Option<Head>
  {
    if tx.head.Some? then tx.head
    else if tx.request.id in db.heads then Some(db.heads[tx.request.id])
    else None
  }

  /** The rows an UPDATE of the revocation columns matches. */
  ghost function Matched(db: Db, request: Request): set<int>
  {
    if request.RevokeOne?
    then (if (request.id, request.generation) in db.rows then {request.generation} else {})
    else Generations(db, request.id)
  }

  function Committed(db: Db, tx: Tx): Db
  {
    Tables(if tx.head.Some? then db.heads[tx.request.id := tx.head.value] else db.heads,
           db.rows + Keyed(tx.request.id, tx.rows))
  }

  ghost function StepTx(s: State, t: nat, a: Action): Option<Tx>
    requires t in s.txs
  {
    var tx := s.txs[t];
    var id := tx.request.id;
    match a
    case ReadSeed(_) =>
      if tx.phase.Begun? then Some(tx.(phase := SeedRead(MaxOf(Generations(s.db, id)) + 1))) else None
    case EnsureHead(_) =>
      if !tx.phase.SeedRead? then None
      else if id in s.db.heads then Some(tx.(phase := HeadEnsured))
      else if OtherInserted(s, t, id) then None
      else Some(tx.(phase := HeadEnsured, inserted := true, head := Some(Head(tx.phase.seed, false))))
    case LockHead(_) =>
      if !tx.phase.HeadEnsured? || OtherHoldsLock(s, t, id) || VisibleHead(s.db, tx).None? then None
      else
        var head := VisibleHead(s.db, tx).value;
        Some(tx.(phase := if tx.request.IssueGrant? && head.closed then Refused else Locked(head.next, head.closed)))
    case InsertRow(_, appNow) =>
      if !tx.phase.Locked? || !tx.request.IssueGrant? then None
      else if (id, tx.phase.next) in s.db.rows then Some(tx.(phase := Collided))
      else
        Some(tx.(phase := Inserted(tx.phase.next), rows := IssuedRow(tx.request, tx.phase.next, appNow)))
    case AdvanceHead(_) =>
      if !tx.phase.Inserted? || VisibleHead(s.db, tx).None? then None
      else
        var head := VisibleHead(s.db, tx).value;
        Some(tx.(phase := Ready, head := Some(head.(next := head.next + 1))))
    case UpdateRows(_) =>
      if !tx.phase.Locked? || !(tx.request.RevokeOne? || tx.request.RevokeAll?) then None
      else if Matched(s.db, tx.request) == {} then Some(tx.(phase := Refused))
      else Some(tx.(phase := Ready, rows :=
        map g | g in Matched(s.db, tx.request) && (id, g) in s.db.rows :: Stamp(s.db.rows[(id, g)], tx.startedAt)))
    case SetClosed(_) =>
      if !tx.phase.Locked? || !tx.request.CloseRef? || VisibleHead(s.db, tx).None? then None
      else Some(tx.(phase := Ready, head := Some(VisibleHead(s.db, tx).value.(closed := true))))
    case _ => None
  }

  /** One statement of one transaction, or time passing.  A disabled action changes nothing. */
  ghost function Step(s: State, a: Action): State
  {
    match a
    case Tick(elapsed) => s.(now := s.now + elapsed)
    case Begin(t, request) =>
      if t in s.txs then s
      else s.(txs := s.txs[t := Tx(request, s.now, Begun, false, None, map[])])
    case Rollback(t) => s.(txs := s.txs - {t})
    case Commit(t) =>
      if t in s.txs && s.txs[t].phase.Ready?
      then s.(db := Committed(s.db, s.txs[t]), txs := s.txs - {t})
      else s
    case _ =>
      if a.t in s.txs then
        (match StepTx(s, a.t, a)
         case Some(tx) => s.(txs := s.txs[a.t := tx])
         case None => s)
      else s
  }

  ghost function RunFrom(s: State, actions: seq<Action>): State
    decreases |actions|
  {
    if actions == [] then s
    else Step(RunFrom(s, actions[..|actions| - 1]), actions[|actions| - 1])
  }

  // ---------- the invariant ----------

  ghost predicate TxInv(db: Db, tx: Tx)
  {
    var id := tx.request.id;
    var base := Base(db, id);
    && (!tx.phase.Begun? && !tx.phase.SeedRead? ==> (tx.inserted <==> id !in db.heads))
    && match tx.phase
       case Begun => !tx.inserted && tx.head.None? && tx.rows == map[]
       case SeedRead(seed) => !tx.inserted && tx.head.None? && tx.rows == map[] && (id !in db.heads ==> seed == 1)
       case HeadEnsured => HeadUntouched(tx) && tx.rows == map[]
       case Locked(next, closed) => HeadUntouched(tx) && tx.rows == map[] && base == Head(next, closed)
                                    && (tx.request.IssueGrant? ==> !closed)
       case Inserted(next) => HeadUntouched(tx) && base == Head(next, false) && OneFreshRow(tx, next)
           && Minted(tx, next)
       case Ready => ReadyInv(db, base, tx)
       case Refused => true
       case Collided => false
  }

  ghost predicate HeadUntouched(tx: Tx)
  {
    tx.head == if tx.inserted then Some(Head(1, false)) else None
  }

  ghost predicate OneFreshRow(tx: Tx, next: int)
  {
    tx.rows.Keys == {next} && !tx.rows[next].revoked && tx.rows[next].revokedAt == None
  }

  ghost predicate Minted(tx: Tx, next: int)
  {
    tx.request.IssueGrant? && exists appNow :: tx.rows == IssuedRow(tx.request, next, appNow)
  }

  ghost predicate ReadyInv(db: Db, base: Head, tx: Tx)
  {
    ReadyShape(db, tx) && (tx.request.IssueGrant? ==> Minted(tx, base.next))
  }

  /** The uncommitted rows of a transaction that may commit. */
  ghost predicate ReadyShape(db: Db, tx: Tx)
  {
    var base := Base(db, tx.request.id);
    && (tx.inserted <==> tx.request.id !in db.heads)
    && match tx.request
       case IssueGrant(_, _, _, _, _) =>
         !base.closed && OneFreshRow(tx, base.next) && tx.head == Some(Head(base.next + 1, false))
       case CloseRef(_) =>
         tx.rows == map[] && tx.head == Some(base.(closed := true))
       case _ =>
         && HeadUntouched(tx) && tx.rows != map[]
         && tx.rows.Keys == Matched(db, tx.request)
         && forall g :: g in tx.rows ==>
              (tx.request.id, g) in db.rows && tx.rows[g] == Stamp(db.rows[(tx.request.id, g)], tx.startedAt)
  }

  ghost predicate Inv(s: State)
  {
    && DbInv(s.db)
    && (forall t :: t in s.txs ==> TxInv(s.db, s.txs[t]))
    && (forall t, u :: t in s.txs && u in s.txs && t != u && s.txs[t].request.id == s.txs[u].request.id ==>
          !(Exclusive(s.txs[t]) && Exclusive(s.txs[u])))
  }

  lemma StepTxKeepsTx(s: State, a: Action)
    requires Inv(s) && !a.Tick? && a.t in s.txs && StepTx(s, a.t, a).Some?
    ensures TxInv(s.db, StepTx(s, a.t, a).value)
    ensures StepTx(s, a.t, a).value.request == s.txs[a.t].request
  {
    var tx := s.txs[a.t];
    NoRowsWithoutHead(s.db, tx.request.id);
    if a.UpdateRows? && Matched(s.db, tx.request) != {} {
      UpdateKeepsTx(s, a);
    }
  }

  lemma UpdateKeepsTx(s: State, a: Action)
    requires Inv(s) && a.UpdateRows? && a.t in s.txs && StepTx(s, a.t, a).Some?
    requires Matched(s.db, s.txs[a.t].request) != {}
    ensures TxInv(s.db, StepTx(s, a.t, a).value)
  {
    var tx := s.txs[a.t];
    var tx' := StepTx(s, a.t, a).value;
    forall g | g in Matched(s.db, tx.request) ensures (tx.request.id, g) in s.db.rows {
    }
    assert tx'.rows.Keys == Matched(s.db, tx.request);
    var g :| g in Matched(s.db, tx.request);
    assert g in tx'.rows;
  }

  lemma StepTxKeepsExclusion(s: State, a: Action, u: nat)
    requires Inv(s) && !a.Tick? && a.t in s.txs && StepTx(s, a.t, a).Some?
    requires u in s.txs && u != a.t && s.txs[u].request.id == s.txs[a.t].request.id
    ensures !(Exclusive(StepTx(s, a.t, a).value) && Exclusive(s.txs[u]))
  {
    assert TxInv(s.db, s.txs[u]);
    assert TxInv(s.db, s.txs[a.t]);
  }

  lemma StepTxKeeps(s: State, a: Action)
    requires Inv(s) && !a.Tick? && a.t in s.txs && StepTx(s, a.t, a).Some?
    ensures Inv(s.(txs := s.txs[a.t := StepTx(s, a.t, a).value]))
  {
    StepTxKeepsTx(s, a);
    var s' := s.(txs := s.txs[a.t := StepTx(s, a.t, a).value]);
    forall t, u | t in s'.txs && u in s'.txs && t != u && s'.txs[t].request.id == s'.txs[u].request.id
      ensures !(Exclusive(s'.txs[t]) && Exclusive(s'.txs[u]))
    {
      if t == a.t { StepTxKeepsExclusion(s, a, u); }
      if u == a.t { StepTxKeepsExclusion(s, a, t); }
    }
  }

  // ---------- a commit writes what its operation specifies ----------

  /** The serial operation a transaction amounts to, were it committed now. */
  ghost function OpOf(db: Db, tx: Tx): Op<Columns>
    requires ReadyShape(db, tx)
  {
    match tx.request
    case IssueGrant(id, _, _, _, _) => Issue(id, tx.rows[Base(db, id).next].material)
    case RevokeOne(id, g) => RevokeGeneration(id, g, tx.startedAt)
    case RevokeAll(id) => RevokeGrant(id, tx.startedAt)
    case CloseRef(id) => Close(id)
  }

  lemma CommittedRows(db: Db, tx: Tx)
    requires DbInv(db) && ReadyShape(db, tx)
    ensures tx.rows == NewRows(db, OpOf(db, tx))
    ensures ApplyRef(AbsRef(db, tx.request.id), OpOf(db, tx)).Some?
  {
    NoRowsWithoutHead(db, tx.request.id);
    match tx.request
    case RevokeOne(id, g) =>
      assert g in Generations(db, id);
      assert RowAt(db, id, g - 1) == db.rows[(id, g)];
    case RevokeAll(id) =>
      assert tx.rows.Keys == Generations(db, id) != {};
      var g :| g in Generations(db, id);
    case _ =>
  }

  lemma CommittedHeads(db: Db, tx: Tx)
    requires DbInv(db) && ReadyShape(db, tx)
    ensures Committed(db, tx).heads == db.heads[tx.request.id := NewHead(db, OpOf(db, tx))]
  {
  }

  lemma CommittedIsWritten(db: Db, tx: Tx)
    requires DbInv(db) && ReadyShape(db, tx)
    ensures ApplyRef(AbsRef(db, tx.request.id), OpOf(db, tx)).Some?
    ensures Committed(db, tx) == Written(db, OpOf(db, tx))
  {
    CommittedRows(db, tx);
    CommittedHeads(db, tx);
  }

  /** A commit is accepted by the serial specification and has exactly its effect. */
  lemma CommitRefines(db: Db, tx: Tx)
    requires DbInv(db) && ReadyShape(db, tx)
    ensures DbInv(Committed(db, tx))
    ensures ApplyRef(AbsRef(db, tx.request.id), OpOf(db, tx)) == Some(AbsRef(Committed(db, tx), tx.request.id))
    ensures Abs(Committed(db, tx)) == Apply(Abs(db), OpOf(db, tx))
  {
    CommittedIsWritten(db, tx);
    WrittenRefines(db, OpOf(db, tx));
  }

  // ---------- every step keeps the invariant ----------

  lemma CommitKeepsOthers(db: Db, tx: Tx, other: Tx)
    requires DbInv(db) && ReadyShape(db, tx) && TxInv(db, other)
    requires tx.request.id == other.request.id ==> !Exclusive(other)
    ensures TxInv(Committed(db, tx), other)
  {
    if other.request.id != tx.request.id {
      CommittedElsewhere(db, tx, other.request.id);
      SameRowsKeepTx(db, Committed(db, tx), other);
    } else {
      CommittedBeside(db, tx, other);
    }
  }

  /** A commit does not touch the rows of any other id. */
  lemma CommittedElsewhere(db: Db, tx: Tx, id: string)
    requires id != tx.request.id
    ensures var db' := Committed(db, tx);
            && (id in db'.heads <==> id in db.heads) && Base(db', id) == Base(db, id)
            && forall g :: ((id, g) in db'.rows <==> (id, g) in db.rows)
                           && ((id, g) in db.rows ==> db'.rows[(id, g)] == db.rows[(id, g)])
  {
  }

  lemma SameRowsKeepTx(db: Db, db': Db, other: Tx)
    requires var id := other.request.id;
             && (id in db'.heads <==> id in db.heads) && Base(db', id) == Base(db, id)
             && forall g :: ((id, g) in db'.rows <==> (id, g) in db.rows)
                            && ((id, g) in db.rows ==> db'.rows[(id, g)] == db.rows[(id, g)])
    requires TxInv(db, other)
    ensures TxInv(db', other)
  {
    var id := other.request.id;
    forall g ensures g in Generations(db', id) <==> g in Generations(db, id) {
      assert g in Generations(db, id) <==> (id, g) in db.rows;
      assert g in Generations(db', id) <==> (id, g) in db'.rows;
    }
    assert Generations(db', id) == Generations(db, id);
  }

  /** Beside the one that commits, a transaction on the same id has not got anywhere yet. */
  lemma CommittedBeside(db: Db, tx: Tx, other: Tx)
    requires DbInv(db) && ReadyShape(db, tx) && TxInv(db, other)
    requires tx.request.id == other.request.id && !Exclusive(other)
    ensures TxInv(Committed(db, tx), other)
  {
  }

  lemma StepKeepsInv(s: State, a: Action)
    requires Inv(s)
    ensures Inv(Step(s, a))
  {
    match a
    case Tick(_) =>
    case Begin(_, _) =>
    case Rollback(_) =>
    case Commit(t) =>
      if t in s.txs && s.txs[t].phase.Ready? {
        CommitRefines(s.db, s.txs[t]);
        forall u | u in s.txs && u != t ensures TxInv(Committed(s.db, s.txs[t]), s.txs[u]) {
          CommitKeepsOthers(s.db, s.txs[t], s.txs[u]);
        }
      }
    case _ =>
      if a.t in s.txs && StepTx(s, a.t, a).Some? { StepTxKeeps(s, a); }
  }
}
