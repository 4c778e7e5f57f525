/** What an authority store promises, free of tables, locks and encodings: every grant id
    names a reference holding an append-only list of generations.  Both backends are proved
    to take exactly these steps.  `M` is whatever a backend stores as immutable material. */
module AuthorityRefs {
  import opened Wrappers

  datatype Generation<M> = Generation(material: M, revoked: bool, revokedAt: Option<int>)

  /** Generation number `g` is at index `g - 1`. */
  datatype Ref<M> = Ref(closed: bool, generations: seq<Generation<M>>)

  type Refs<M> = map<string, Ref<M>>

  datatype Op<M> =
    | Issue(id: string, material: M)
    | RevokeGeneration(id: string, generation: int, at: int)
    | RevokeGrant(id: string, at: int)
    | Close(id: string)

  function RefOf<M>(s: Refs<M>, id: string): Ref<M>
  {
    if id in s then s[id] else Ref(false, [])
  }

  /** `revoked = TRUE, revoked_at = COALESCE(revoked_at, NOW())`. */
  function Stamp<M>(g: Generation<M>, at: int): Generation<M>
  {
    g.(revoked := true, revokedAt := if g.revokedAt.Some? then g.revokedAt else Some(at))
  }

  function StampAll<M>(gs: seq<Generation<M>>, at: int): seq<Generation<M>>
  {
    seq(|gs|, i requires 0 <= i < |gs| => Stamp(gs[i], at))
  }

  function ApplyRef<M>(r: Ref<M>, op: Op<M>): Option<Ref<M>>
  {
    match op
    case Issue(_, m) =>
      if r.closed then None else Some(r.(generations := r.generations + [Generation(m, false, None)]))
    case RevokeGeneration(_, g, at) =>
      if 1 <= g <= |r.generations|
      then Some(r.(generations := r.generations[g - 1 := Stamp(r.generations[g - 1], at)]))
      else None
    case RevokeGrant(_, at) =>
      if r.generations == [] then None else Some(r.(generations := StampAll(r.generations, at)))
    case Close(_) => Some(r.(closed := true))
  }

  /** The serial specification; a refused operation changes nothing. */
  function Apply<M>(s: Refs<M>, op: Op<M>): Refs<M>
  {
    match ApplyRef(RefOf(s, op.id), op)
    case Some(r) => s[op.id := r]
    case None => s
  }

  function Run<M>(s: Refs<M>, ops: seq<Op<M>>): Refs<M>
    decreases |ops|
  {
    if ops == [] then s else Run(Apply(s, ops[0]), ops[1..])
  }

  // ---------- what time can and cannot do to a reference ----------

  /** Generations are only ever appended, their material never changes, a revocation and its
      first stamp are permanent, and a closed reference never grows. */
  ghost predicate Evolves<M>(r: Ref<M>, r': Ref<M>)
  {
    && |r.generations| <= |r'.generations|
    && (forall i :: 0 <= i < |r.generations| ==> GenerationEvolves(r.generations[i], r'.generations[i]))
    && (r.closed ==> r'.closed && |r'.generations| == |r.generations|)
  }

  ghost predicate GenerationEvolves<M>(g: Generation<M>, g': Generation<M>)
  {
    && g'.material == g.material
    && (g.revoked ==> g'.revoked)
    && (g.revokedAt.Some? ==> g'.revokedAt == g.revokedAt)
  }

  lemma EvolvesTransitive<M>(a: Ref<M>, b: Ref<M>, c: Ref<M>)
    requires Evolves(a, b) && Evolves(b, c)
    ensures Evolves(a, c)
  {
    forall i | 0 <= i < |a.generations| ensures GenerationEvolves(a.generations[i], c.generations[i]) {
      assert GenerationEvolves(a.generations[i], b.generations[i]);
      assert GenerationEvolves(b.generations[i], c.generations[i]);
    }
  }

  lemma ApplyEvolves<M>(s: Refs<M>, op: Op<M>, id: string)
    ensures Evolves(RefOf(s, id), RefOf(Apply(s, op), id))
  {
  }

  lemma {:induction false} RunEvolves<M>(s: Refs<M>, ops: seq<Op<M>>, id: string)
    ensures Evolves(RefOf(s, id), RefOf(Run(s, ops), id))
    decreases |ops|
  {
    if ops != [] {
      var s1 := Apply(s, ops[0]);
      ApplyEvolves(s, ops[0], id);
      RunEvolves(s1, ops[1..], id);
      EvolvesTransitive(RefOf(s, id), RefOf(s1, id), RefOf(Run(s, ops), id));
    }
  }

  // ---------- the only generation that can ever admit anyone ----------

  /** The generation a read may return: the latest one, unless it is revoked. */
  function Live<M>(r: Ref<M>): Option<int>
  {
    var n := |r.generations|;
    if n > 0 && !r.generations[n - 1].revoked then Some(n) else None
  }

  ghost predicate AllRevoked<M>(r: Ref<M>)
  {
    forall i :: 0 <= i < |r.generations| ==> r.generations[i].revoked
  }

  /** Once a reference has a generation `g + 1`, no generation up to `g` is live again. */
  lemma Superseded<M>(r: Ref<M>, r': Ref<M>, g: int)
    requires Evolves(r, r') && g < |r.generations|
    ensures Live(r').Some? ==> Live(r').value > g
  {
  }

  /** After a reference is wholly revoked nothing is live until it has grown. */
  lemma RevokedUntilReissued<M>(r: Ref<M>, r': Ref<M>)
    requires Evolves(r, r') && AllRevoked(r)
    ensures Live(r').Some? ==> |r'.generations| > |r.generations|
  {
    var n := |r.generations|;
    if |r'.generations| == n && n > 0 {
      assert r.generations[n - 1].revoked;
      assert GenerationEvolves(r.generations[n - 1], r'.generations[n - 1]);
    }
  }

  ghost predicate NoIssueOf<M(!new)>(ops: seq<Op<M>>, id: string)
  {
    forall op :: op in ops && op.id == id ==> !op.Issue?
  }

  /** Without an issue a reference does not grow. */
  lemma {:induction false} NoIssueKeepsLength<M(!new)>(s: Refs<M>, ops: seq<Op<M>>, id: string)
    requires NoIssueOf(ops, id)
    ensures |RefOf(Run(s, ops), id).generations| == |RefOf(s, id).generations|
    decreases |ops|
  {
    if ops != [] {
      NoIssueKeepsLength(Apply(s, ops[0]), ops[1..], id);
    }
  }

  lemma RevokeGrantRevokesAll<M>(s: Refs<M>, id: string, at: int)
    ensures AllRevoked(RefOf(Apply(s, RevokeGrant(id, at)), id))
  {
  }

  /** A revoked generation is never live again, however the reference evolves. */
  lemma RevokedOneNeverLive<M>(r: Ref<M>, op: Op<M>, r1: Ref<M>, r2: Ref<M>)
    requires op.RevokeGeneration? && ApplyRef(r, op) == Some(r1) && Evolves(r1, r2)
    ensures Live(r2) != Some(op.generation)
  {
    assert r1.generations[op.generation - 1].revoked;
    assert GenerationEvolves(r1.generations[op.generation - 1], r2.generations[op.generation - 1]);
  }

  /** A closed reference stays closed with the generations it had. */
  lemma ClosedStays<M>(r: Ref<M>, op: Op<M>, r1: Ref<M>, r2: Ref<M>)
    requires op.Close? && ApplyRef(r, op) == Some(r1) && Evolves(r1, r2)
    ensures r2.closed && |r2.generations| == |r.generations|
  {
  }
}
