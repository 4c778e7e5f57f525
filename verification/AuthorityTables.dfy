/** The two tables both backends keep, `authority_heads` and `authority_grants`, as a
    representation of the serial specification. */
module AuthorityTables {
  import opened Wrappers
  import opened AuthorityRefs

  datatype Head = Head(next: int, closed: bool)

  datatype Tables<M> = Tables(heads: map<string, Head>, rows: map<(string, int), Generation<M>>)

  // ---------- MAX(generation) ----------

  ghost function Generations<M>(db: Tables<M>, id: string): set<int>
  {
    set k | k in db.rows && k.0 == id :: k.1
  }

  lemma HasMember(s: set<int>)
    ensures s == {} || exists x :: x in s
  {
    if !exists x :: x in s {
      assert s == {};
    }
  }

  ghost function MaxOfNonEmpty(s: set<int>): (m: int)
    requires s != {}
    ensures m in s && forall y :: y in s ==> y <= m
  {
    HasMember(s);
    var x :| x in s;
    if s == {x} then x
    else
      var m := MaxOfNonEmpty(s - {x});
      assert forall y :: y in s ==> y == x || y in s - {x};
      if x > m then x else m
  }

  /** `COALESCE(MAX(x), 0)`. */
  ghost function MaxOf(s: set<int>): int { if s == {} then 0 else MaxOfNonEmpty(s) }

  lemma MaxOfRange(s: set<int>, n: int)
    requires n >= 0 && forall g :: g in s <==> 1 <= g <= n
    ensures MaxOf(s) == n
  {
    assert n > 0 ==> n in s;
    assert s != {} ==> MaxOf(s) in s;
  }

  // ---------- the invariant and the abstraction ----------

  /** The head of an id, or the one a first mutation would create. */
  function Base<M>(db: Tables<M>, id: string): Head
  {
    if id in db.heads then db.heads[id] else Head(1, false)
  }

  /** Generations of an id are exactly 1 .. next - 1, and ids without a head have none. */
  ghost predicate DbInv<M>(db: Tables<M>)
  {
    && (forall id :: id in db.heads ==> db.heads[id].next >= 1)
    && (forall k :: k in db.rows <==> k.0 in db.heads && 1 <= k.1 < db.heads[k.0].next)
  }

  lemma NoRowsWithoutHead<M>(db: Tables<M>, id: string)
    requires DbInv(db)
    ensures MaxOf(Generations(db, id)) == Base(db, id).next - 1
    ensures forall g :: g in Generations(db, id) <==> 1 <= g < Base(db, id).next
  {
    forall g ensures g in Generations(db, id) <==> 1 <= g < Base(db, id).next {
      assert g in Generations(db, id) <==> (id, g) in db.rows;
    }
    MaxOfRange(Generations(db, id), Base(db, id).next - 1);
  }

  ghost function RowAt<M>(db: Tables<M>, id: string, i: nat): Generation<M>
    requires DbInv(db) && i < Base(db, id).next - 1
  {
    assert (id, i + 1).0 in db.heads;
    db.rows[(id, i + 1)]
  }

  ghost function AbsRef<M>(db: Tables<M>, id: string): Ref<M>
    requires DbInv(db)
  {
    Ref(Base(db, id).closed,
        seq(Base(db, id).next - 1, i requires 0 <= i < Base(db, id).next - 1 => RowAt(db, id, i)))
  }

  ghost function Abs<M>(db: Tables<M>): Refs<M>
    requires DbInv(db)
  {
    map id | id in db.heads :: AbsRef(db, id)
  }

  lemma RefOfAbs<M>(db: Tables<M>, id: string)
    requires DbInv(db)
    ensures RefOf(Abs(db), id) == AbsRef(db, id)
  {
  }

  // ---------- writing the rows of one id ----------

  function Keyed<M>(id: string, rows: map<int, Generation<M>>): map<(string, int), Generation<M>>
  {
    map g | g in rows :: (id, g) := rows[g]
  }

  function Overlay<M>(db: Tables<M>, id: string, head: Head, rows: map<int, Generation<M>>): Tables<M>
  {
    Tables(db.heads[id := head], db.rows + Keyed(id, rows))
  }

  /** New rows lie below the new head and leave no gap. */
  ghost predicate Fits<M>(base: Head, head: Head, rows: map<int, Generation<M>>)
  {
    && 1 <= base.next <= head.next
    && (forall g :: g in rows ==> 1 <= g < head.next)
    && (forall g :: base.next <= g < head.next ==> g in rows)
  }

  lemma OverlayInv<M>(db: Tables<M>, id: string, head: Head, rows: map<int, Generation<M>>)
    requires DbInv(db) && Fits(Base(db, id), head, rows)
    ensures DbInv(Overlay(db, id, head, rows))
  {
    var db' := Overlay(db, id, head, rows);
    forall k ensures k in db'.rows <==> k.0 in db'.heads && 1 <= k.1 < db'.heads[k.0].next {
      if k.0 == id {
        assert k == (id, k.1);
        assert k in db'.rows <==> k in db.rows || k.1 in rows;
      }
    }
  }

  lemma OverlayRow<M>(db: Tables<M>, id: string, head: Head, rows: map<int, Generation<M>>, i: nat)
    requires DbInv(db) && Fits(Base(db, id), head, rows) && i < head.next - 1
    ensures DbInv(Overlay(db, id, head, rows))
    ensures RowAt(Overlay(db, id, head, rows), id, i) == if i + 1 in rows then rows[i + 1] else RowAt(db, id, i)
  {
    OverlayInv(db, id, head, rows);
  }

  lemma OverlayOtherRow<M>(db: Tables<M>, id: string, head: Head, rows: map<int, Generation<M>>, other: string, i: nat)
    requires DbInv(db) && DbInv(Overlay(db, id, head, rows)) && other != id && i < Base(db, other).next - 1
    ensures Base(Overlay(db, id, head, rows), other) == Base(db, other)
    ensures RowAt(Overlay(db, id, head, rows), other, i) == RowAt(db, other, i)
  {
  }

  lemma OverlayOther<M>(db: Tables<M>, id: string, head: Head, rows: map<int, Generation<M>>, other: string)
    requires DbInv(db) && DbInv(Overlay(db, id, head, rows)) && other != id
    ensures AbsRef(Overlay(db, id, head, rows), other) == AbsRef(db, other)
  {
    var r, r' := AbsRef(db, other), AbsRef(Overlay(db, id, head, rows), other);
    assert |r'.generations| == |r.generations|;
    forall i | 0 <= i < |r.generations| ensures r'.generations[i] == r.generations[i] {
      OverlayOtherRow(db, id, head, rows, other, i);
    }
  }

  ghost predicate Represents<M>(db: Tables<M>, id: string, head: Head, rows: map<int, Generation<M>>, r: Ref<M>)
    requires DbInv(db) && Fits(Base(db, id), head, rows)
  {
    && r.closed == head.closed && |r.generations| == head.next - 1
    && forall i :: 0 <= i < |r.generations| ==>
         r.generations[i] == if i + 1 in rows then rows[i + 1] else RowAt(db, id, i)
  }

  lemma OverlayRef<M>(db: Tables<M>, id: string, head: Head, rows: map<int, Generation<M>>, r: Ref<M>)
    requires DbInv(db) && Fits(Base(db, id), head, rows) && Represents(db, id, head, rows, r)
    ensures DbInv(Overlay(db, id, head, rows))
    ensures AbsRef(Overlay(db, id, head, rows), id) == r
  {
    OverlayInv(db, id, head, rows);
    var r' := AbsRef(Overlay(db, id, head, rows), id);
    assert |r'.generations| == |r.generations|;
    forall i | 0 <= i < |r.generations| ensures r'.generations[i] == r.generations[i] {
      OverlayRow(db, id, head, rows, i);
    }
  }

  lemma AbsReplaces<M>(db: Tables<M>, db': Tables<M>, id: string)
    requires DbInv(db) && DbInv(db') && db'.heads.Keys == db.heads.Keys + {id}
    requires forall other :: other in db.heads && other != id ==> AbsRef(db', other) == AbsRef(db, other)
    ensures Abs(db') == Abs(db)[id := AbsRef(db', id)]
  {
  }

  /** Writing one id's rows replaces that reference and no other. */
  lemma OverlayAbs<M>(db: Tables<M>, id: string, head: Head, rows: map<int, Generation<M>>)
    requires DbInv(db) && DbInv(Overlay(db, id, head, rows))
    ensures Abs(Overlay(db, id, head, rows)) == Abs(db)[id := AbsRef(Overlay(db, id, head, rows), id)]
  {
    var db' := Overlay(db, id, head, rows);
    forall other | other in db.heads && other != id ensures AbsRef(db', other) == AbsRef(db, other) {
      OverlayOther(db, id, head, rows, other);
    }
    AbsReplaces(db, db', id);
  }

  // ---------- what each operation writes ----------

  ghost function NewHead<M>(db: Tables<M>, op: Op<M>): Head
  {
    var base := Base(db, op.id);
    match op
    case Issue(_, _) => base.(next := base.next + 1)
    case Close(_) => base.(closed := true)
    case _ => base
  }

  ghost function NewRows<M>(db: Tables<M>, op: Op<M>): map<int, Generation<M>>
    requires DbInv(db)
  {
    var n := Base(db, op.id).next;
    match op
    case Issue(_, m) => map[n := Generation(m, false, None)]
    case RevokeGeneration(_, g, at) => if 1 <= g < n then map[g := Stamp(RowAt(db, op.id, g - 1), at)] else map[]
    case RevokeGrant(_, at) => map g | g in Generations(db, op.id) :: Stamp(db.rows[(op.id, g)], at)
    case Close(_) => map[]
  }

  ghost function Written<M>(db: Tables<M>, op: Op<M>): Tables<M>
    requires DbInv(db)
  {
    Overlay(db, op.id, NewHead(db, op), NewRows(db, op))
  }

  lemma WrittenRows<M>(db: Tables<M>, op: Op<M>)
    requires DbInv(db) && ApplyRef(AbsRef(db, op.id), op).Some?
    ensures Fits(Base(db, op.id), NewHead(db, op), NewRows(db, op))
    ensures Represents(db, op.id, NewHead(db, op), NewRows(db, op), ApplyRef(AbsRef(db, op.id), op).value)
  {
    NoRowsWithoutHead(db, op.id);
  }

  lemma RowsByLength<M>(db: Tables<M>, id: string, g: int)
    requires DbInv(db)
    ensures (id, g) in db.rows <==> 1 <= g <= |AbsRef(db, id).generations|
  {
    NoRowsWithoutHead(db, id);
    assert g in Generations(db, id) <==> (id, g) in db.rows;
  }

  /** The rows an accepted operation writes represent exactly the specified new reference. */
  lemma WrittenRefines<M>(db: Tables<M>, op: Op<M>)
    requires DbInv(db) && ApplyRef(AbsRef(db, op.id), op).Some?
    ensures DbInv(Written(db, op))
    ensures ApplyRef(AbsRef(db, op.id), op) == Some(AbsRef(Written(db, op), op.id))
    ensures Abs(Written(db, op)) == Apply(Abs(db), op)
  {
    WrittenRows(db, op);
    var head, rows := NewHead(db, op), NewRows(db, op);
    OverlayRef(db, op.id, head, rows, ApplyRef(AbsRef(db, op.id), op).value);
    OverlayAbs(db, op.id, head, rows);
    RefOfAbs(db, op.id);
  }
}
