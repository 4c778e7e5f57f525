/** Finite chains of a relation. */
module Chains {

  ghost predicate IsChain<T(!new)>(link: (T, T) -> bool, chain: seq<T>)
  {
    chain != [] && forall i :: 0 <= i < |chain| - 1 ==> link(chain[i], chain[i + 1])
  }

  lemma Append<T(!new)>(link: (T, T) -> bool, chain: seq<T>, u: T)
    requires IsChain(link, chain) && link(chain[|chain| - 1], u)
    ensures IsChain(link, chain + [u]) && (chain + [u])[0] == chain[0]
  {
    var longer := chain + [u];
    forall i | 0 <= i < |longer| - 1 ensures link(longer[i], longer[i + 1]) {
      if i < |chain| - 1 { assert longer[i] == chain[i] && longer[i + 1] == chain[i + 1]; }
    }
  }

  lemma Prepend<T(!new)>(link: (T, T) -> bool, t: T, chain: seq<T>)
    requires IsChain(link, chain) && link(t, chain[0])
    ensures IsChain(link, [t] + chain) && ([t] + chain)[|chain|] == chain[|chain| - 1]
  {
    var longer := [t] + chain;
    forall i | 0 <= i < |longer| - 1 ensures link(longer[i], longer[i + 1]) {
      if i > 0 { assert longer[i] == chain[i - 1] && longer[i + 1] == chain[i - 1 + 1]; }
    }
  }

  lemma Tail<T(!new)>(link: (T, T) -> bool, chain: seq<T>)
    requires IsChain(link, chain) && |chain| > 1
    ensures IsChain(link, chain[1..]) && link(chain[0], chain[1])
  {
    var rest := chain[1..];
    forall i | 0 <= i < |rest| - 1 ensures link(rest[i], rest[i + 1]) {
      assert rest[i] == chain[i + 1] && rest[i + 1] == chain[i + 1 + 1];
    }
    assert link(chain[0], chain[0 + 1]);
  }

  lemma Init<T(!new)>(link: (T, T) -> bool, chain: seq<T>)
    requires IsChain(link, chain) && |chain| > 1
    ensures IsChain(link, chain[..|chain| - 1]) && link(chain[|chain| - 2], chain[|chain| - 1])
  {
    var n := |chain| - 2;
    assert link(chain[n], chain[n + 1]);
  }

  /** Some chain leads from a starting point to `t`. */
  ghost predicate Reaches<T(!new)>(start: T -> bool, link: (T, T) -> bool, t: T)
  {
    exists chain :: IsChain(link, chain) && start(chain[0]) && chain[|chain| - 1] == t
  }

  lemma ReachesFirst<T(!new)>(start: T -> bool, link: (T, T) -> bool, t: T)
    requires start(t)
    ensures Reaches(start, link, t)
  {
    assert IsChain(link, [t]);
  }

  lemma ReachesNext<T(!new)>(start: T -> bool, link: (T, T) -> bool, t: T, u: T)
    requires Reaches(start, link, t) && link(t, u)
    ensures Reaches(start, link, u)
  {
    var chain :| IsChain(link, chain) && start(chain[0]) && chain[|chain| - 1] == t;
    Append(link, chain, u);
    assert (chain + [u])[|chain|] == u;
  }

  lemma {:induction false} KeptAlong<T(!new)>(link: (T, T) -> bool, keeps: T -> bool, chain: seq<T>)
    requires IsChain(link, chain) && keeps(chain[0])
    requires forall t, u :: keeps(t) && link(t, u) ==> keeps(u)
    ensures keeps(chain[|chain| - 1])
    decreases |chain|
  {
    if |chain| > 1 {
      Init(link, chain);
      KeptAlong(link, keeps, chain[..|chain| - 1]);
    }
  }

  /** What holds at the start and along every link holds of everything reached. */
  lemma ReachesInduction<T(!new)>(start: T -> bool, link: (T, T) -> bool, keeps: T -> bool)
    requires forall t :: start(t) ==> keeps(t)
    requires forall t, u :: keeps(t) && link(t, u) ==> keeps(u)
    ensures forall t :: Reaches(start, link, t) ==> keeps(t)
  {
    forall t | Reaches(start, link, t) ensures keeps(t) {
      var chain :| IsChain(link, chain) && start(chain[0]) && chain[|chain| - 1] == t;
      KeptAlong(link, keeps, chain);
    }
  }
}
