/** Key lookup in a YAML node graph with aliases and merge keys (scripts/workflow_action_pins.go).
    Merge keys may form cycles; the lookup follows them depth first, remembering the mappings on
    the current path. */
module Yaml {

  type NodeId = nat

  /** A mapping's content alternates keys and values. */
  datatype Node =
    | Scalar(value: string)
    | Sequence(items: seq<NodeId>)
    | Mapping(content: seq<NodeId>)
    | Alias(target: NodeId)
    | Document(content: seq<NodeId>)

  type Graph = map<NodeId, Node>

  ghost predicate Closed(g: Graph, ids: seq<NodeId>) { forall i :: 0 <= i < |ids| ==> ids[i] in g }

  /** What the decoder guarantees: references stay inside the graph, an alias names an anchored
      value, and a document is not the value of another. */
  ghost predicate WellFormed(g: Graph)
  {
    forall n :: n in g ==>
      match g[n]
      case Scalar(_) => true
      case Sequence(items) => Closed(g, items)
      case Mapping(content) => Closed(g, content)
      case Alias(t) => t in g && !g[t].Alias? && !g[t].Document?
      case Document(content) => Closed(g, content) && (content != [] ==> !g[content[0]].Document?)
  }

  /** Follows aliases and documents to the value itself. */
  function Resolved(g: Graph, n: NodeId): (r: NodeId)
    requires WellFormed(g) && n in g
    ensures r in g && !g[r].Alias? && (g[r].Document? ==> g[r].content == [])
  {
    match g[n]
    case Alias(t) => t
    case Document(content) =>
      if content == [] then n
      else if g[content[0]].Alias? then g[content[0]].target else content[0]
    case _ => n
  }

  function ScalarValue(g: Graph, n: NodeId): string
    requires WellFormed(g) && n in g
  {
    var r := Resolved(g, n);
    if g[r].Scalar? then g[r].value else ""
  }

  // ---------- what a lookup should find ----------

  /** The mapping `m` itself gives `key` the value `v`. */
  ghost predicate Binds(g: Graph, m: NodeId, key: string, v: NodeId)
    requires WellFormed(g)
  {
    m in g && g[m].Mapping? &&
    exists i :: 0 <= i && 2 * i + 1 < |g[m].content| && ScalarValue(g, g[m].content[2 * i]) == key
        && g[m].content[2 * i + 1] == v
  }

  /** The mapping `m` merges `b`, directly or as a member of a merged list. */
  ghost predicate Merges(g: Graph, m: NodeId, b: NodeId)
    requires WellFormed(g)
  {
    m in g && g[m].Mapping? && exists w :: Binds(g, m, "<<", w) && w in g && b in MergedBy(g, w)
  }

  /** The nodes a merge value brings in. */
  function MergedBy(g: Graph, w: NodeId): set<NodeId>
    requires WellFormed(g) && w in g
  {
    var r := Resolved(g, w);
    if g[r].Sequence? then set i | 0 <= i < |g[r].items| :: Resolved(g, g[r].items[i]) else {r}
  }

  ghost predicate IsPath(g: Graph, p: seq<NodeId>)
    requires WellFormed(g)
  {
    p != [] && forall i :: 0 <= i < |p| - 1 ==> Merges(g, p[i], p[i + 1])
  }

  /** Some chain of merges, of any length and possibly going round, leads from `n` to a mapping
      that binds the key. */
  ghost predicate Yields(g: Graph, n: NodeId, key: string, v: NodeId)
    requires WellFormed(g) && n in g
  {
    exists p :: IsPath(g, p) && p[0] == Resolved(g, n) && Binds(g, p[|p| - 1], key, v)
  }

  // ---------- what the path-bounded search finds ----------

  ghost predicate Found(g: Graph, m: NodeId, key: string, visited: set<NodeId>, v: NodeId)
    requires WellFormed(g) && m in g
    decreases g.Keys - visited
  {
    && g[m].Mapping? && m !in visited
    && (Binds(g, m, key, v) || exists b :: b in g && Merges(g, m, b) && Found(g, b, key, visited + {m}, v))
  }

  lemma {:induction false} FoundIsReachable(g: Graph, m: NodeId, key: string, visited: set<NodeId>, v: NodeId)
    returns (p: seq<NodeId>)
    requires WellFormed(g) && m in g && Found(g, m, key, visited, v)
    ensures IsPath(g, p) && p[0] == m && Binds(g, p[|p| - 1], key, v)
    decreases g.Keys - visited
  {
    if Binds(g, m, key, v) {
      p := [m];
    } else {
      var b :| b in g && Merges(g, m, b) && Found(g, b, key, visited + {m}, v);
      var q := FoundIsReachable(g, b, key, visited + {m}, v);
      p := [m] + q;
      assert forall i :: 0 < i < |p| - 1 ==> p[i] == q[i - 1] && p[i + 1] == q[i];
    }
  }

  ghost predicate Distinct(p: seq<NodeId>) { forall i, j :: 0 <= i < j < |p| ==> p[i] != p[j] }

  /** A path that goes round can be cut short. */
  lemma {:induction false} Shortcut(g: Graph, p: seq<NodeId>) returns (q: seq<NodeId>)
    requires WellFormed(g) && IsPath(g, p)
    ensures IsPath(g, q) && Distinct(q) && q[0] == p[0] && q[|q| - 1] == p[|p| - 1]
    decreases |p|
  {
    if Distinct(p) {
      q := p;
    } else {
      var i, j :| 0 <= i < j < |p| && p[i] == p[j];
      var r := p[..i] + p[j..];
      forall k | 0 <= k < |r| - 1 ensures Merges(g, r[k], r[k + 1]) {
        if k < i {
          assert r[k] == p[k] && r[k + 1] == p[k + 1];
        } else {
          assert r[k] == p[k - i + j] && r[k + 1] == p[k + 1 - i + j];
        }
      }
      q := Shortcut(g, r);
    }
  }

  lemma {:induction false} SimplePathIsFound(g: Graph, p: seq<NodeId>, key: string, visited: set<NodeId>, v: NodeId)
    requires WellFormed(g) && IsPath(g, p) && Distinct(p) && p[0] in g && Binds(g, p[|p| - 1], key, v)
    requires forall i :: 0 <= i < |p| ==> p[i] !in visited
    ensures Found(g, p[0], key, visited, v)
    decreases |p|
  {
    if |p| > 1 {
      assert Merges(g, p[0], p[1]);
      MergeTargetInGraph(g, p[0], p[1]);
      var q := p[1..];
      forall i | 0 <= i < |q| - 1 ensures Merges(g, q[i], q[i + 1]) {
        assert q[i] == p[i + 1] && q[i + 1] == p[i + 1 + 1];
      }
      SimplePathIsFound(g, q, key, visited + {p[0]}, v);
    }
  }

  lemma MergeTargetInGraph(g: Graph, m: NodeId, b: NodeId)
    requires WellFormed(g) && Merges(g, m, b)
    ensures b in g
  {
  }

  /** Stopping at mappings already on the path loses nothing, whatever cycles the merges form. */
  lemma FoundIff(g: Graph, n: NodeId, key: string, v: NodeId)
    requires WellFormed(g) && n in g
    ensures Found(g, Resolved(g, n), key, {}, v) <==> Yields(g, n, key, v)
  {
    var m := Resolved(g, n);
    if Found(g, m, key, {}, v) {
      var p := FoundIsReachable(g, m, key, {}, v);
    }
    if Yields(g, n, key, v) {
      var p :| IsPath(g, p) && p[0] == m && Binds(g, p[|p| - 1], key, v);
      var q := Shortcut(g, p);
      SimplePathIsFound(g, q, key, {}, v);
    }
  }

  // ---------- the search itself ----------

  /** Some entry before `upTo` supplies `v`, itself or through the merge it names. */
  ghost predicate FoundBefore(g: Graph, m: NodeId, key: string, visited: set<NodeId>, upTo: nat, v: NodeId)
    requires WellFormed(g) && m in g && g[m].Mapping? && m !in visited
  {
    exists i :: 0 <= i < upTo && 2 * i + 1 < |g[m].content| && FoundAt(g, m, key, visited, i, v)
  }

  ghost predicate FoundAt(g: Graph, m: NodeId, key: string, visited: set<NodeId>, i: nat, v: NodeId)
    requires WellFormed(g) && m in g && g[m].Mapping? && m !in visited && 2 * i + 1 < |g[m].content|
  {
    var k := ScalarValue(g, g[m].content[2 * i]);
    var w := g[m].content[2 * i + 1];
    || (k == key && v == w)
    || (k == "<<" && exists b :: b in MergedBy(g, w) && b in g && Found(g, b, key, visited + {m}, v))
  }

  lemma FoundByEntries(g: Graph, m: NodeId, key: string, visited: set<NodeId>, upTo: nat, v: NodeId)
    requires WellFormed(g) && m in g && g[m].Mapping? && m !in visited && |g[m].content| <= 2 * upTo + 1
    ensures FoundBefore(g, m, key, visited, upTo, v) <==> Found(g, m, key, visited, v)
  {
    if FoundBefore(g, m, key, visited, upTo, v) {
      var i :| 0 <= i < upTo && 2 * i + 1 < |g[m].content| && FoundAt(g, m, key, visited, i, v);
      EntryIsFound(g, m, key, visited, i, v);
    }
    if Found(g, m, key, visited, v) {
      var i := EntryOf(g, m, key, visited, v);
    }
  }

  lemma EntryIsFound(g: Graph, m: NodeId, key: string, visited: set<NodeId>, i: nat, v: NodeId)
    requires WellFormed(g) && m in g && g[m].Mapping? && m !in visited && 2 * i + 1 < |g[m].content|
    requires FoundAt(g, m, key, visited, i, v)
    ensures Found(g, m, key, visited, v)
  {
    var k := ScalarValue(g, g[m].content[2 * i]);
    var w := g[m].content[2 * i + 1];
    assert Binds(g, m, k, w);
    if !(k == key && v == w) {
      var b :| b in MergedBy(g, w) && b in g && Found(g, b, key, visited + {m}, v);
      assert Merges(g, m, b);
    }
  }

  lemma EntryOf(g: Graph, m: NodeId, key: string, visited: set<NodeId>, v: NodeId) returns (i: nat)
    requires WellFormed(g) && m in g && Found(g, m, key, visited, v)
    ensures 2 * i + 1 < |g[m].content| && FoundAt(g, m, key, visited, i, v)
  {
    if Binds(g, m, key, v) {
      i :| 2 * i + 1 < |g[m].content| && ScalarValue(g, g[m].content[2 * i]) == key && g[m].content[2 * i + 1] == v;
    } else {
      var b :| b in g && Merges(g, m, b) && Found(g, b, key, visited + {m}, v);
      var w :| Binds(g, m, "<<", w) && w in g && b in MergedBy(g, w);
      i :| 2 * i + 1 < |g[m].content| && ScalarValue(g, g[m].content[2 * i]) == "<<" && g[m].content[2 * i + 1] == w;
    }
  }

  /** Depth-first lookup. `visited` holds the mappings on the current path: a mapping is added while
      its own entries are searched and is gone again afterwards. */
  method Search(g: Graph, n: NodeId, key: string, visited: set<NodeId>) returns (values: seq<NodeId>)
    requires WellFormed(g) && n in g
    ensures forall v :: v in values <==> Found(g, Resolved(g, n), key, visited, v)
    decreases g.Keys - visited
  {
    var m := Resolved(g, n);
    values := [];
    if !g[m].Mapping? || m in visited {
      return;
    }
    var content := g[m].content;
    var entry := 0;
    while 2 * entry + 1 < |content|
      invariant 2 * entry <= |content|
      invariant forall v :: v in values <==> FoundBefore(g, m, key, visited, entry, v)
      decreases |content| - 2 * entry
    {
      ghost var before := values;
      var entryKey, entryValue := ScalarValue(g, content[2 * entry]), content[2 * entry + 1];
      var found := [];
      if entryKey == key {
        found := [entryValue];
      }
      if entryKey == "<<" {
        var merged := SearchMerged(g, m, entryValue, key, visited);
        found := found + merged;
      }
      values := values + found;
      forall v ensures v in values <==> FoundBefore(g, m, key, visited, entry + 1, v) {
        assert v in values <==> v in before || v in found;
        assert v in found <==> FoundAt(g, m, key, visited, entry, v);
        assert FoundBefore(g, m, key, visited, entry + 1, v) <==>
          FoundBefore(g, m, key, visited, entry, v) || FoundAt(g, m, key, visited, entry, v);
      }
      entry := entry + 1;
    }
    forall v ensures v in values <==> Found(g, m, key, visited, v) {
      FoundByEntries(g, m, key, visited, entry, v);
    }
  }

  /** One of the items finds the value. */
  ghost predicate FoundAmong(g: Graph, items: seq<NodeId>, key: string, visited: set<NodeId>, v: NodeId)
    requires WellFormed(g) && Closed(g, items)
  {
    exists i :: 0 <= i < |items| && Found(g, Resolved(g, items[i]), key, visited, v)
  }

  lemma FoundAmongNext(g: Graph, items: seq<NodeId>, k: nat, key: string, visited: set<NodeId>, v: NodeId)
    requires WellFormed(g) && Closed(g, items) && k < |items|
    ensures FoundAmong(g, items[..k + 1], key, visited, v) <==>
            FoundAmong(g, items[..k], key, visited, v) || Found(g, Resolved(g, items[k]), key, visited, v)
  {
    var longer := items[..k + 1];
    assert longer[k] == items[k] && forall i :: 0 <= i < k ==> longer[i] == items[..k][i];
  }

  method SearchMerged(g: Graph, m: NodeId, entryValue: NodeId, key: string, visited: set<NodeId>)
    returns (values: seq<NodeId>)
    requires WellFormed(g) && m in g && m !in visited && entryValue in g
    ensures forall v :: v in values <==>
              exists b :: b in MergedBy(g, entryValue) && b in g && Found(g, b, key, visited + {m}, v)
    decreases g.Keys - visited, 0
  {
    var merged := Resolved(g, entryValue);
    if g[merged].Sequence? {
      values := [];
      var items := g[merged].items;
      for k := 0 to |items|
        invariant forall v :: v in values <==> FoundAmong(g, items[..k], key, visited + {m}, v)
      {
        var found := Search(g, items[k], key, visited + {m});
        forall v ensures v in values + found <==> FoundAmong(g, items[..k + 1], key, visited + {m}, v) {
          FoundAmongNext(g, items, k, key, visited + {m}, v);
        }
        values := values + found;
      }
      assert items[..|items|] == items;
    } else {
      values := Search(g, merged, key, visited + {m});
    }
  }

  /** A lookup with no path behind it finds exactly what some chain of merges reaches. */
  method MappingValues(g: Graph, n: NodeId, key: string) returns (values: seq<NodeId>)
    requires WellFormed(g) && n in g
    ensures forall v :: v in values <==> Yields(g, n, key, v)
    ensures forall v :: v in values ==> v in g
  {
    values := Search(g, n, key, {});
    forall v ensures v in values <==> Yields(g, n, key, v) {
      FoundIff(g, n, key, v);
    }
    forall v | v in values ensures v in g {
      YieldsInGraph(g, n, key, v);
    }
  }

  lemma YieldsInGraph(g: Graph, n: NodeId, key: string, v: NodeId)
    requires WellFormed(g) && n in g && Yields(g, n, key, v)
    ensures v in g
  {
    var p :| IsPath(g, p) && p[0] == Resolved(g, n) && Binds(g, p[|p| - 1], key, v);
    var m := p[|p| - 1];
    assert Closed(g, g[m].content);
  }

  /** A mapping without a merge key gives only its own entries. */
  lemma YieldsWithoutMerge(g: Graph, n: NodeId, key: string, v: NodeId)
    requires WellFormed(g) && n in g
    requires forall w :: w in g ==> !Binds(g, Resolved(g, n), "<<", w)
    ensures Yields(g, n, key, v) <==> Binds(g, Resolved(g, n), key, v)
  {
    var m := Resolved(g, n);
    FoundIff(g, n, key, v);
    assert forall b :: !Merges(g, m, b);
  }
}
