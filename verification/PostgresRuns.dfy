/** Whole runs of the PostgreSQL store: every committed transaction is one step of the serial
    specification, so its guarantees hold in every interleaving. */
module PostgresRuns {
  import opened Wrappers
  import opened Grants
  import opened GrantMaterial
  import opened AuthorityRefs
  import opened AuthorityTables
  import opened PostgresAuthority

  // ---------- what a run can show ----------

  ghost predicate Commits(s: State, a: Action)
  {
    a.Commit? && a.t in s.txs && s.txs[a.t].phase.Ready?
  }

  lemma ReadyIsShaped(s: State, t: nat)
    requires Inv(s) && t in s.txs && s.txs[t].phase.Ready?
    ensures ReadyShape(s.db, s.txs[t])
    ensures s.txs[t].request.IssueGrant? ==> Minted(s.txs[t], Base(s.db, s.txs[t].request.id).next)
  {
    assert TxInv(s.db, s.txs[t]);
  }

  /** Commits aside, nothing a transaction does is visible. */
  lemma OnlyCommitsVisible(s: State, a: Action)
    ensures Step(s, a).db == if Commits(s, a) then Committed(s.db, s.txs[a.t]) else s.db
  {
  }

  // ---------- runs ----------

  lemma {:induction false} RunKeepsInv(s: State, actions: seq<Action>)
    requires Inv(s)
    ensures Inv(RunFrom(s, actions))
    decreases |actions|
  {
    if actions != [] {
      RunKeepsInv(s, actions[..|actions| - 1]);
      StepKeepsInv(RunFrom(s, actions[..|actions| - 1]), actions[|actions| - 1]);
    }
  }

  lemma {:induction false} RunAppend(s: State, first: seq<Action>, rest: seq<Action>)
    ensures RunFrom(s, first + rest) == RunFrom(RunFrom(s, first), rest)
    decreases |rest|
  {
    if rest == [] {
      assert first + rest == first;
    } else {
      var all := first + rest;
      assert all[..|all| - 1] == first + rest[..|rest| - 1];
      RunAppend(s, first, rest[..|rest| - 1]);
    }
  }

  lemma {:induction false} RunEvolvesFrom(s: State, actions: seq<Action>, id: string)
    requires Inv(s)
    ensures Inv(RunFrom(s, actions))
    ensures Evolves(RefOf(Abs(s.db), id), RefOf(Abs(RunFrom(s, actions).db), id))
    decreases |actions|
  {
    if actions != [] {
      var front, last := actions[..|actions| - 1], actions[|actions| - 1];
      var mid := RunFrom(s, front);
      RunEvolvesFrom(s, front, id);
      StepKeepsInv(mid, last);
      OnlyCommitsVisible(mid, last);
      if Commits(mid, last) {
        ReadyIsShaped(mid, last.t);
        CommitRefines(mid.db, mid.txs[last.t]);
        ApplyEvolves(Abs(mid.db), OpOf(mid.db, mid.txs[last.t]), id);
      }
      EvolvesTransitive(RefOf(Abs(s.db), id), RefOf(Abs(mid.db), id), RefOf(Abs(RunFrom(s, actions).db), id));
    }
  }

  /** In every interleaving, whatever rolls back: generations are exactly 1 .. next - 1, and no
      INSERT ever meets an existing (grant_id, generation). */
  lemma GenerationsContiguous(s: State, actions: seq<Action>, id: string)
    requires Inv(s)
    ensures var db := RunFrom(s, actions).db;
            && (forall g :: (id, g) in db.rows <==> id in db.heads && 1 <= g < db.heads[id].next)
            && (forall t :: t in RunFrom(s, actions).txs ==> !RunFrom(s, actions).txs[t].phase.Collided?)
  {
    RunKeepsInv(s, actions);
    var s' := RunFrom(s, actions);
    forall g ensures (id, g) in s'.db.rows <==> id in s'.db.heads && 1 <= g < s'.db.heads[id].next {
      assert (id, g).0 == id && (id, g).1 == g;
    }
    forall t | t in s'.txs ensures !s'.txs[t].phase.Collided? {
      assert TxInv(s'.db, s'.txs[t]);
    }
  }

  ghost predicate CommitsGeneration(s: State, a: Action, id: string, g: int)
  {
    && Commits(s, a)
    && s.txs[a.t].request.IssueGrant? && s.txs[a.t].request.id == id && g in s.txs[a.t].rows
  }

  lemma CommittedGeneration(s: State, a: Action, id: string, g: int)
    requires Inv(s) && CommitsGeneration(s, a, id, g)
    ensures g == Base(s.db, id).next && Base(Step(s, a).db, id).next == g + 1
  {
    ReadyIsShaped(s, a.t);
  }

  lemma {:induction false} NextNeverDecreases(s: State, actions: seq<Action>, id: string)
    requires Inv(s)
    ensures Base(RunFrom(s, actions).db, id).next >= Base(s.db, id).next
  {
    RunEvolvesFrom(s, actions, id);
    RefOfAbs(s.db, id);
    RefOfAbs(RunFrom(s, actions).db, id);
  }

  lemma RunSplitAt(s: State, actions: seq<Action>, i: nat, j: nat)
    requires i < j <= |actions|
    ensures RunFrom(s, actions[..j]) == RunFrom(Step(RunFrom(s, actions[..i]), actions[i]), actions[i + 1..j])
  {
    assert actions[..i + 1][..i] == actions[..i];
    assert actions[..i + 1] + actions[i + 1..j] == actions[..j];
    RunAppend(s, actions[..i + 1], actions[i + 1..j]);
  }

  /** Commit order is generation order. */
  lemma CommitOrder(s: State, actions: seq<Action>, i: nat, j: nat, id: string, g: int, h: int)
    requires Inv(s) && i < j < |actions|
    requires CommitsGeneration(RunFrom(s, actions[..i]), actions[i], id, g)
    requires CommitsGeneration(RunFrom(s, actions[..j]), actions[j], id, h)
    ensures g < h
  {
    var si, sj := RunFrom(s, actions[..i]), RunFrom(s, actions[..j]);
    RunKeepsInv(s, actions[..i]);
    RunKeepsInv(s, actions[..j]);
    CommittedGeneration(si, actions[i], id, g);
    CommittedGeneration(sj, actions[j], id, h);
    RunSplitAt(s, actions, i, j);
    StepKeepsInv(si, actions[i]);
    NextNeverDecreases(Step(si, actions[i]), actions[i + 1..j], id);
  }

  // ---------- reads ----------

  datatype Resolution = Denied | Unverified | Resolved(grant: Grant)

  function DecodedGrant(id: string, generation: int, c: Columns, capabilities: seq<string>,
                        constraints: Constraints): Grant
  {
    Grant(id, generation, c.principal, capabilities, constraints,
          if c.issuedAt.Some? then Normalized(c.issuedAt.value) else ZERO_TIME,
          if c.expiresAt.Some? then Normalized(c.expiresAt.value) else ZERO_TIME,
          false, c.digest)
  }

  /** What is made of the one row a read looks at. */
  function ResolveRow(id: string, generation: int, row: Row, principal: string, now: Time): Resolution
  {
    var c := row.material;
    var unexpired := c.expiresAt.None? || c.expiresAt.value > now;
    if c.principal != principal || row.revoked || !unexpired then Denied
    else
      match (ParseTextArray(c.capabilities), DecodeJsonb(c.constraints))
      case (Ok(capabilities), Ok(constraints)) =>
        var g := DecodedGrant(id, generation, c, capabilities, constraints);
        if VerifyGrantDigest(g) then Resolved(g) else Unverified
      case _ => Unverified
  }

  /** `ORDER BY generation DESC LIMIT 1` over the committed rows, on the database clock. */
  ghost function Resolve(db: Db, id: string, principal: string, now: Time): Resolution
  {
    if id == "" then Denied
    else
      var generations := Generations(db, id);
      var latest := MaxOf(generations);
      if (id, latest) !in db.rows then Denied
      else ResolveRow(id, latest, db.rows[(id, latest)], principal, now)
  }

  /** A read returns only the live generation of the reference, to its own principal, unexpired
      on the database clock, with a digest that covers exactly the material returned. */
  lemma ResolveReturnsLive(db: Db, id: string, principal: string, now: Time)
    requires DbInv(db)
    ensures var r := RefOf(Abs(db), id);
            Resolve(db, id, principal, now).Resolved? ==>
              var g := Resolve(db, id, principal, now).grant;
              && Live(r) == Some(g.generation)
              && id in db.heads && g.generation == db.heads[id].next - 1
              && g.id == id && g.principal == principal && !g.revoked
              && VerifyGrantDigest(g)
              && (var c := r.generations[g.generation - 1].material;
                  && g.digest == c.digest
                  && (c.expiresAt.None? || now < c.expiresAt.value))
  {
    RefOfAbs(db, id);
    NoRowsWithoutHead(db, id);
  }

  /** The contract of the store over every run: what a later read may return, given any earlier
      moment of the same run. */
  lemma RunSafety(s: State, before: seq<Action>, after: seq<Action>, id: string, principal: string, now: Time)
    requires Inv(s)
    ensures var s1, s2 := RunFrom(s, before), RunFrom(s, before + after);
            && Inv(s1) && Inv(s2)
            && (var r1, r2 := RefOf(Abs(s1.db), id), RefOf(Abs(s2.db), id);
                var read := Resolve(s2.db, id, principal, now);
                && Evolves(r1, r2)
                && (read.Resolved? ==> read.grant.generation >= |r1.generations|)
                && (read.Resolved? && AllRevoked(r1) ==> read.grant.generation > |r1.generations|)
                && (r1.closed ==> |r2.generations| == |r1.generations|))
  {
    var s1 := RunFrom(s, before);
    RunKeepsInv(s, before);
    RunAppend(s, before, after);
    RunEvolvesFrom(s1, after, id);
    var s2 := RunFrom(s, before + after);
    ResolveReturnsLive(s2.db, id, principal, now);
    var r1, r2 := RefOf(Abs(s1.db), id), RefOf(Abs(s2.db), id);
    if AllRevoked(r1) { RevokedUntilReissued(r1, r2); }
    Superseded(r1, r2, |r1.generations| - 1);
  }

  // ---------- issue, then read ----------

  /** Whether an issued row reads back depends on its capabilities alone. */
  lemma IssuedRowReads(request: Request, generation: int, appNow: Time, now: Time)
    requires request.IssueGrant?
    ensures var g := MintedGrant(request, generation, appNow);
            var row := Generation(ColumnsOf(g), false, None);
            (g.expiresAt == ZERO_TIME || now < g.expiresAt) ==>
              ResolveRow(request.id, generation, row, request.principal, now) ==
                if AllUnquoted(request.capabilities) then Resolved(g) else Unverified
  {
    var g := MintedGrant(request, generation, appNow);
    NormalizedTwice(appNow);
    NormalizedTwice(request.expiresAt);
    TextArrayRoundTrip(request.capabilities);
    assert MaterialOf(g) == MaterialOf(g.(digest := Blank));
    var c := ColumnsOf(g);
    assert ParseTextArray(c.capabilities) == Ok(request.capabilities) ==>
      DecodedGrant(request.id, generation, c, request.capabilities, request.constraints) == g;
  }

  predicate AllUnquoted(capabilities: seq<string>)
  {
    forall i :: 0 <= i < |capabilities| ==> !NeedsQuotes(capabilities[i])
  }

  lemma ReadOfLatest(db: Db, id: string, n: int, principal: string, now: Time)
    requires DbInv(db) && id != "" && Live(AbsRef(db, id)) == Some(n)
    ensures Resolve(db, id, principal, now) ==
            ResolveRow(id, n, Generation(RowAt(db, id, n - 1).material, false, None), principal, now)
  {
    NoRowsWithoutHead(db, id);
    assert AbsRef(db, id).generations[n - 1] == RowAt(db, id, n - 1) == db.rows[(id, n)];
  }

  /** A committed row of the latest, unrevoked generation reads back the same in every later state. */
  lemma LaterReadOfLatest(s: State, actions: seq<Action>, id: string, n: int, principal: string, now: Time)
    requires Inv(s) && id != "" && |AbsRef(s.db, id).generations| == n >= 1
    ensures var s2 := RunFrom(s, actions);
            Inv(s2) &&
            (Live(AbsRef(s2.db, id)) == Some(n) ==>
              Resolve(s2.db, id, principal, now) ==
                ResolveRow(id, n, Generation(RowAt(s.db, id, n - 1).material, false, None), principal, now))
  {
    var s2 := RunFrom(s, actions);
    RunEvolvesFrom(s, actions, id);
    if Live(AbsRef(s2.db, id)) == Some(n) {
      RefOfAbs(s.db, id);
      RefOfAbs(s2.db, id);
      assert GenerationEvolves(AbsRef(s.db, id).generations[n - 1], AbsRef(s2.db, id).generations[n - 1]);
      assert RowAt(s2.db, id, n - 1).material == RowAt(s.db, id, n - 1).material;
      ReadOfLatest(s2.db, id, n, principal, now);
    }
  }

  lemma CommitAppendsRow(db: Db, tx: Tx)
    requires DbInv(db) && ReadyShape(db, tx) && tx.request.IssueGrant?
    ensures DbInv(Committed(db, tx))
    ensures var id, n := tx.request.id, Base(db, tx.request.id).next;
            |AbsRef(Committed(db, tx), id).generations| == n >= 1 && RowAt(Committed(db, tx), id, n - 1) == tx.rows[n]
  {
    CommitRefines(db, tx);
    var n := Base(db, tx.request.id).next;
    assert AbsRef(Committed(db, tx), tx.request.id).generations[n - 1] == Generation(tx.rows[n].material, false, None);
  }

  /** Round trip over a run: from the commit of an issue on, as long as its generation is the
      latest, unrevoked and unexpired, its principal reads back exactly the minted grant, if and
      only if no capability needed quoting; otherwise every such read is refused. */
  lemma IssueThenResolve(s: State, t: nat, after: seq<Action>, now: Time) returns (g: Grant)
    requires Inv(s) && t in s.txs && s.txs[t].phase.Ready? && s.txs[t].request.IssueGrant?
    requires s.txs[t].request.id != ""
    ensures var request := s.txs[t].request;
            var n := Base(s.db, request.id).next;
            var s2 := RunFrom(Step(s, Commit(t)), after);
            && Inv(s2)
            && (exists appNow :: g == MintedGrant(request, n, appNow))
            && (Live(AbsRef(s2.db, request.id)) == Some(n) && (g.expiresAt == ZERO_TIME || now < g.expiresAt) ==>
                  Resolve(s2.db, request.id, request.principal, now) ==
                    if AllUnquoted(request.capabilities) then Resolved(g) else Unverified)
  {
    var request := s.txs[t].request;
    var id := request.id;
    var n := Base(s.db, id).next;
    ReadyIsShaped(s, t);
    var appNow :| s.txs[t].rows == IssuedRow(request, n, appNow);
    g := MintedGrant(request, n, appNow);
    var row := Generation(ColumnsOf(g), false, None);
    assert s.txs[t].rows[n] == row;
    IssueCommitted(s, t);
    LaterReadOfLatest(Step(s, Commit(t)), after, id, n, request.principal, now);
    assert RowAt(Step(s, Commit(t)).db, id, n - 1).material == row.material;
    IssuedRowReads(request, n, appNow, now);
  }

  lemma IssueCommitted(s: State, t: nat)
    requires Inv(s) && t in s.txs && s.txs[t].phase.Ready? && s.txs[t].request.IssueGrant?
    ensures var id := s.txs[t].request.id;
            var n, s1 := Base(s.db, id).next, Step(s, Commit(t));
            && Inv(s1) && n in s.txs[t].rows
            && |AbsRef(s1.db, id).generations| == n >= 1 && RowAt(s1.db, id, n - 1) == s.txs[t].rows[n]
  {
    ReadyIsShaped(s, t);
    StepKeepsInv(s, Commit(t));
    CommitAppendsRow(s.db, s.txs[t]);
  }

  /** Tampering with stored columns never broadens authority: if the digest column still holds
      the digest of the issued grant, whatever else a read returns answers every capability and
      resource question as the issued grant does. */
  lemma CorruptionNeverBroadens(issued: Grant, row: Row, id: string, generation: int, principal: string, now: Time)
    requires row.material.digest == ComputeGrantDigest(issued)
    ensures var read := ResolveRow(id, generation, row, principal, now);
            read.Resolved? ==>
              && MaterialOf(read.grant) == MaterialOf(issued)
              && (forall c :: HasCapability(read.grant, c) <==> HasCapability(issued, c))
              && (forall d, v :: AllowsResource(read.grant, d, v) <==> AllowsResource(issued, d, v))
  {
    var read := ResolveRow(id, generation, row, principal, now);
    if read.Resolved? {
      SameDigestSameAuthority(read.grant, issued);
    }
  }

  // ---------- revocation and closing over the rest of a run ----------

  ghost predicate CommitsRequest(s: State, a: Action, request: Request)
  {
    Commits(s, a) && s.txs[a.t].request == request
  }

  ghost predicate CommitsIssue(s: State, a: Action, id: string)
  {
    Commits(s, a) && s.txs[a.t].request.IssueGrant? && s.txs[a.t].request.id == id
  }

  /** No action of the run commits an issue of `id`. */
  ghost predicate NoIssue(s: State, actions: seq<Action>, id: string)
  {
    forall j :: 0 <= j < |actions| ==> !CommitsIssue(RunFrom(s, actions[..j]), actions[j], id)
  }

  lemma StepKeepsNext(s: State, a: Action, id: string)
    requires Inv(s) && !CommitsIssue(s, a, id)
    ensures Base(Step(s, a).db, id).next == Base(s.db, id).next
  {
    OnlyCommitsVisible(s, a);
    if Commits(s, a) {
      ReadyIsShaped(s, a.t);
    }
  }

  lemma {:induction false} NoIssueKeepsNext(s: State, actions: seq<Action>, id: string)
    requires Inv(s) && NoIssue(s, actions, id)
    ensures Base(RunFrom(s, actions).db, id).next == Base(s.db, id).next
    decreases |actions|
  {
    if actions != [] {
      var n := |actions| - 1;
      var front := actions[..n];
      forall j | 0 <= j < |front| ensures !CommitsIssue(RunFrom(s, front[..j]), front[j], id) {
        assert front[..j] == actions[..j];
      }
      NoIssueKeepsNext(s, front, id);
      RunKeepsInv(s, front);
      StepKeepsNext(RunFrom(s, front), actions[n], id);
    }
  }

  /** A reference whose latest generation is revoked, or that has none, denies every read. */
  lemma DeadDenies(db: Db, id: string, principal: string, now: Time)
    requires DbInv(db) && Live(AbsRef(db, id)).None?
    ensures Resolve(db, id, principal, now) == Denied
  {
    NoRowsWithoutHead(db, id);
    var n := Base(db, id).next - 1;
    if (id, n) in db.rows {
      assert (id, n).0 == id;
      assert AbsRef(db, id).generations[n - 1] == RowAt(db, id, n - 1) == db.rows[(id, n)];
    }
  }

  lemma RevokedStaysDenied(s: State, actions: seq<Action>, id: string, principal: string, now: Time)
    requires Inv(s) && AllRevoked(AbsRef(s.db, id)) && NoIssue(s, actions, id)
    ensures Resolve(RunFrom(s, actions).db, id, principal, now) == Denied
  {
    var s' := RunFrom(s, actions);
    NoIssueKeepsNext(s, actions, id);
    RunEvolvesFrom(s, actions, id);
    RefOfAbs(s.db, id);
    RefOfAbs(s'.db, id);
    RevokedUntilReissued(AbsRef(s.db, id), AbsRef(s'.db, id));
    DeadDenies(s'.db, id, principal, now);
  }

  lemma CommitApplies(s: State, a: Action)
    requires Inv(s) && Commits(s, a)
    ensures ReadyShape(s.db, s.txs[a.t]) && Inv(Step(s, a))
    ensures Abs(Step(s, a).db) == Apply(Abs(s.db), OpOf(s.db, s.txs[a.t]))
    ensures ApplyRef(AbsRef(s.db, s.txs[a.t].request.id), OpOf(s.db, s.txs[a.t])) ==
            Some(AbsRef(Step(s, a).db, s.txs[a.t].request.id))
  {
    ReadyIsShaped(s, a.t);
    StepKeepsInv(s, a);
    OnlyCommitsVisible(s, a);
    CommitRefines(s.db, s.txs[a.t]);
  }

  /** The run after action `i`. */
  lemma RestOfRun(s: State, actions: seq<Action>, i: nat)
    requires i < |actions|
    ensures RunFrom(s, actions) == RunFrom(Step(RunFrom(s, actions[..i]), actions[i]), actions[i + 1..])
  {
    assert actions[..|actions|] == actions;
    RunSplitAt(s, actions, i, |actions|);
  }

  lemma SliceOfTail(actions: seq<Action>, from: nat, n: nat)
    requires from + n <= |actions|
    ensures actions[from..][..n] == actions[from..from + n]
  {
  }

  lemma NoIssueInRest(s: State, actions: seq<Action>, i: nat, id: string)
    requires i < |actions|
    requires forall j :: i < j < |actions| ==> !CommitsIssue(RunFrom(s, actions[..j]), actions[j], id)
    ensures NoIssue(Step(RunFrom(s, actions[..i]), actions[i]), actions[i + 1..], id)
  {
    var s1, rest := Step(RunFrom(s, actions[..i]), actions[i]), actions[i + 1..];
    forall j | 0 <= j < |rest| ensures !CommitsIssue(RunFrom(s1, rest[..j]), rest[j], id) {
      RunSplitAt(s, actions, i, i + 1 + j);
      SliceOfTail(actions, i + 1, j);
    }
  }

  /** From the commit of a revocation of the whole grant on, until an issue of the same id commits,
      every read of it by anyone at any time is denied. */
  lemma RevokeAllIsFinal(s: State, actions: seq<Action>, i: nat, id: string, principal: string, now: Time)
    requires Inv(s) && i < |actions| && CommitsRequest(RunFrom(s, actions[..i]), actions[i], RevokeAll(id))
    requires forall j :: i < j < |actions| ==> !CommitsIssue(RunFrom(s, actions[..j]), actions[j], id)
    ensures Resolve(RunFrom(s, actions).db, id, principal, now) == Denied
  {
    var si := RunFrom(s, actions[..i]);
    var s1 := Step(si, actions[i]);
    RunKeepsInv(s, actions[..i]);
    CommitApplies(si, actions[i]);
    RevokeGrantRevokesAll(Abs(si.db), id, si.txs[actions[i].t].startedAt);
    RefOfAbs(s1.db, id);
    NoIssueInRest(s, actions, i, id);
    RestOfRun(s, actions, i);
    RevokedStaysDenied(s1, actions[i + 1..], id, principal, now);
  }

  /** From the commit of a revocation of one generation on, no read returns that generation. */
  lemma RevokeOneIsFinal(s: State, actions: seq<Action>, i: nat, id: string, g: int, principal: string, now: Time)
    requires Inv(s) && i < |actions| && CommitsRequest(RunFrom(s, actions[..i]), actions[i], RevokeOne(id, g))
    ensures var read := Resolve(RunFrom(s, actions).db, id, principal, now);
            read.Resolved? ==> read.grant.generation != g
  {
    var si, s2 := RunFrom(s, actions[..i]), RunFrom(s, actions);
    EvolvesAfter(s, actions, i, id);
    RevokedOneNeverLive(AbsRef(si.db, id), OpOf(si.db, si.txs[actions[i].t]), AbsRef(Step(si, actions[i]).db, id),
                        AbsRef(s2.db, id));
    ResolveReturnsLive(s2.db, id, principal, now);
    RefOfAbs(s2.db, id);
  }

  /** What a committed operation leaves of its reference evolves over the rest of the run. */
  lemma EvolvesAfter(s: State, actions: seq<Action>, i: nat, id: string)
    requires Inv(s) && i < |actions| && Commits(RunFrom(s, actions[..i]), actions[i])
    requires RunFrom(s, actions[..i]).txs[actions[i].t].request.id == id
    ensures var si, s2 := RunFrom(s, actions[..i]), RunFrom(s, actions);
            var s1, tx := Step(si, actions[i]), si.txs[actions[i].t];
            && Inv(si) && Inv(s1) && Inv(s2) && ReadyShape(si.db, tx)
            && ApplyRef(AbsRef(si.db, id), OpOf(si.db, tx)) == Some(AbsRef(s1.db, id))
            && Evolves(AbsRef(s1.db, id), AbsRef(s2.db, id))
  {
    var si := RunFrom(s, actions[..i]);
    var s1 := Step(si, actions[i]);
    RunKeepsInv(s, actions[..i]);
    CommitApplies(si, actions[i]);
    RestOfRun(s, actions, i);
    RunEvolvesFrom(s1, actions[i + 1..], id);
    RefOfAbs(s1.db, id);
    RefOfAbs(RunFrom(s, actions).db, id);
  }

  /** From the commit of a close on, the generations of the reference are the ones it had then. */
  lemma CloseIsFinal(s: State, actions: seq<Action>, i: nat, id: string, g: int)
    requires Inv(s) && i < |actions| && CommitsRequest(RunFrom(s, actions[..i]), actions[i], CloseRef(id))
    ensures var s2 := RunFrom(s, actions);
            && Base(s2.db, id).closed
            && ((id, g) in s2.db.rows <==> (id, g) in RunFrom(s, actions[..i]).db.rows)
  {
    var si, s2 := RunFrom(s, actions[..i]), RunFrom(s, actions);
    EvolvesAfter(s, actions, i, id);
    ClosedStays(AbsRef(si.db, id), OpOf(si.db, si.txs[actions[i].t]), AbsRef(Step(si, actions[i]).db, id),
        AbsRef(s2.db, id));
    RowsByLength(si.db, id, g);
    RowsByLength(s2.db, id, g);
  }
}
