/** Authority grants: their immutable material, the digest over it, and the two
    questions admission asks of a grant (internal/capability/grant.go). */
module Grants {
  import opened Text

  /** An instant, in nanoseconds since the Unix epoch. */
  type Time = int

  /** Go's zero `time.Time`: 1 January of year 1, UTC. */
  const ZERO_TIME: Time := -62135596800 * 1_000_000_000

  const NANOS_PER_MILLI := 1_000_000

  /** `Time.UnixMilli`: rounds down, also before the epoch. */
  function UnixMilli(t: Time): int { t / NANOS_PER_MILLI }

  /** `time.UnixMilli(t.UnixMilli())`: the instant with its sub-millisecond part dropped. */
  function Normalized(t: Time): Time { UnixMilli(t) * NANOS_PER_MILLI }

  lemma NormalizedTwice(t: Time)
    ensures Normalized(Normalized(t)) == Normalized(t)
    ensures UnixMilli(Normalized(t)) == UnixMilli(t)
    ensures Normalized(ZERO_TIME) == ZERO_TIME
  {
  }

  type Constraints = map<string, seq<string>>

  /** SHA-256 kept symbolic: equal digests mean equal material, nothing else is known of them.
      `Foreign` is any other non-empty text found where a digest belongs. */
  datatype Digest = Blank | Sha256(of: Material) | Foreign(text: string)

  datatype Grant = Grant(
    id: string,
    generation: int,
    principal: string,
    capabilities: seq<string>,
    constraints: Constraints,
    issuedAt: Time,
    expiresAt: Time,
    revoked: bool,
    digest: Digest)

  /** The record whose canonical JSON the digest covers. */
  datatype Material = Material(
    id: string,
    generation: int,
    principal: string,
    capabilities: seq<string>,
    constraints: Constraints,
    issuedAtMs: int,
    expiresAtMs: int)

  // ---------- normal form of the constraints ----------

  /** Drops repeated values, keeping first occurrences in order. */
  function Dedup(values: seq<string>): seq<string>
  {
    if values == [] then []
    else
      var r := Dedup(values[..|values| - 1]);
      var last := values[|values| - 1];
      if last in r then r else r + [last]
  }

  lemma {:induction false} DedupFacts(values: seq<string>)
    ensures Distinct(Dedup(values))
    ensures forall y :: y in Dedup(values) <==> y in values
  {
    if values != [] {
      DedupFacts(values[..|values| - 1]);
      assert values == values[..|values| - 1] + [values[|values| - 1]];
    }
  }

  function NormalList(values: seq<string>): seq<string> { Sort(Dedup(values)) }

  function NormalizedConstraints(constraints: Constraints): Constraints
  {
    map dimension | dimension in constraints :: NormalList(constraints[dimension])
  }

  /** The inner loop of the normalisation: one dimension's values, deduplicated and sorted. */
  method NormalizeValues(values: seq<string>) returns (list: seq<string>)
    ensures list == NormalList(values)
  {
    var seen: set<string> := {};
    list := [];
    for i := 0 to |values|
      invariant forall y :: y in seen <==> y in list
      invariant list == Dedup(values[..i])
    {
      assert values[..i + 1][..i] == values[..i];
      if values[i] !in seen {
        seen := seen + {values[i]};
        list := list + [values[i]];
      }
    }
    assert values[..|values|] == values;
    list := Sort(list);
  }

  method NormalizeConstraints(constraints: Constraints) returns (out: Constraints)
    ensures out == NormalizedConstraints(constraints)
  {
    out := map[];
    var left := constraints;
    while left != map[]
      invariant left.Keys <= constraints.Keys
      invariant forall d :: d in left ==> left[d] == constraints[d]
      invariant out == NormalizedConstraints(constraints - left.Keys)
      decreases left.Keys
    {
      var dimension :| dimension in left;
      var list := NormalizeValues(left[dimension]);
      out := out[dimension := list];
      left := left - {dimension};
    }
    assert constraints - {} == constraints;
  }

  // ---------- the digest ----------

  function TimeMs(t: Time): int { if t == ZERO_TIME then 0 else UnixMilli(t) }

  function MaterialOf(g: Grant): Material
  {
    Material(g.id, g.generation, g.principal, Sort(g.capabilities),
             NormalizedConstraints(g.constraints), TimeMs(g.issuedAt), TimeMs(g.expiresAt))
  }

  function ComputeGrantDigest(g: Grant): Digest { Sha256(MaterialOf(g)) }

  predicate VerifyGrantDigest(g: Grant)
  {
    g.digest != Blank && g.digest == ComputeGrantDigest(g)
  }

  ghost function Values(s: seq<string>): set<string> { set v | v in s }

  /** Agreement of two constraint maps dimension by dimension, as sets of values. */
  ghost predicate SameConstraints(a: Constraints, b: Constraints)
  {
    a.Keys == b.Keys && forall d :: d in a ==> Values(a[d]) == Values(b[d])
  }

  lemma NormalListFacts(a: seq<string>)
    ensures forall y :: y in NormalList(a) <==> y in Values(a)
    ensures multiset(NormalList(a)) == multiset(Dedup(a))
    ensures Sorted(NormalList(a))
  {
    DedupFacts(a);
    SortFacts(Dedup(a));
  }

  lemma NormalListsEqualIff(a: seq<string>, b: seq<string>)
    ensures NormalList(a) == NormalList(b) <==> Values(a) == Values(b)
  {
    NormalListFacts(a);
    NormalListFacts(b);
    if Values(a) == Values(b) {
      DedupFacts(a);
      DedupFacts(b);
      assert forall y :: y in a <==> y in Values(a);
      assert forall y :: y in b <==> y in Values(b);
      SameElementsSameMultiset(Dedup(a), Dedup(b));
      SortedUnique(NormalList(a), NormalList(b));
    }
    if NormalList(a) == NormalList(b) {
      assert forall y :: y in Values(a) <==> y in Values(b);
    }
  }

  lemma NormalConstraintsEqualIff(a: Constraints, b: Constraints)
    ensures NormalizedConstraints(a) == NormalizedConstraints(b) <==> SameConstraints(a, b)
  {
    var na, nb := NormalizedConstraints(a), NormalizedConstraints(b);
    assert na.Keys == a.Keys && nb.Keys == b.Keys;
    forall d | d in a && d in b ensures na[d] == nb[d] <==> Values(a[d]) == Values(b[d]) {
      NormalListsEqualIff(a[d], b[d]);
    }
    if na == nb {
      forall d | d in a ensures d in b && Values(a[d]) == Values(b[d]) {
        assert d in na.Keys && d in nb.Keys && na[d] == nb[d];
      }
    }
    if SameConstraints(a, b) {
      assert forall d :: d in na ==> d in nb && na[d] == nb[d];
    }
  }

  /** What the digest binds, and what it deliberately does not: the order of capabilities,
      the order and repetition of constraint values, sub-millisecond times, revocation. */
  lemma SameMaterialIff(g: Grant, h: Grant)
    ensures ComputeGrantDigest(g) == ComputeGrantDigest(h) <==>
            (&& g.id == h.id && g.generation == h.generation && g.principal == h.principal
             && multiset(g.capabilities) == multiset(h.capabilities)
             && SameConstraints(g.constraints, h.constraints)
             && TimeMs(g.issuedAt) == TimeMs(h.issuedAt)
             && TimeMs(g.expiresAt) == TimeMs(h.expiresAt))
  {
    NormalConstraintsEqualIff(g.constraints, h.constraints);
    SortFacts(g.capabilities);
    SortFacts(h.capabilities);
    if multiset(g.capabilities) == multiset(h.capabilities) {
      SortedUnique(Sort(g.capabilities), Sort(h.capabilities));
    }
  }

  /** The grant an issue mints: times normalised to milliseconds, digest over the whole. */
  function Mint(id: string, generation: int, principal: string, capabilities: seq<string>, constraints: Constraints,
                expiresAt: Time, appNow: Time): Grant
  {
    var expiry := if expiresAt == ZERO_TIME then ZERO_TIME else Normalized(expiresAt);
    var g := Grant(id, generation, principal, capabilities, constraints, Normalized(appNow), expiry, false, Blank);
    g.(digest := ComputeGrantDigest(g))
  }

  // ---------- the questions admission asks ----------

  /** An empty list is the wildcard. */
  predicate HasCapability(g: Grant, capability: string)
  {
    g.capabilities == [] || capability in g.capabilities || "*" in g.capabilities
  }

  /** A dimension the grant does not mention is unconstrained; an empty list admits nothing. */
  predicate AllowsResource(g: Grant, dimension: string, value: string)
  {
    dimension in g.constraints ==>
      value in g.constraints[dimension] || "*" in g.constraints[dimension]
  }

  predicate Expired(g: Grant, now: Time)
  {
    g.expiresAt != ZERO_TIME && !(now < g.expiresAt)
  }

  /** Grants with equal digests answer both questions alike, for every capability,
      dimension and value. */
  lemma SameDigestSameAuthority(g: Grant, h: Grant)
    requires ComputeGrantDigest(g) == ComputeGrantDigest(h)
    ensures forall c :: HasCapability(g, c) <==> HasCapability(h, c)
    ensures forall d, v :: AllowsResource(g, d, v) <==> AllowsResource(h, d, v)
  {
    SameMaterialIff(g, h);
    assert |multiset(g.capabilities)| == |g.capabilities|;
    assert |multiset(h.capabilities)| == |h.capabilities|;
    forall c ensures c in g.capabilities <==> c in h.capabilities {
      assert c in g.capabilities <==> c in multiset(g.capabilities);
    }
    forall d, v ensures AllowsResource(g, d, v) <==> AllowsResource(h, d, v) {
      if d in g.constraints {
        assert Values(g.constraints[d]) == Values(h.constraints[d]);
        assert v in g.constraints[d] <==> v in Values(g.constraints[d]);
        assert v in h.constraints[d] <==> v in Values(h.constraints[d]);
        assert "*" in g.constraints[d] <==> "*" in Values(g.constraints[d]);
        assert "*" in h.constraints[d] <==> "*" in Values(h.constraints[d]);
      }
    }
  }
}
