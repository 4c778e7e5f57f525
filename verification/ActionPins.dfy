/** The action-pin checker (scripts/workflow_action_pins.go): every action a workflow uses, directly
    or through local composite actions, must be pinned. */
module ActionPins {

  import opened Yaml

  // ---------- targets ----------

  predicate HasPrefix(s: string, p: string) { p <= s }

  predicate HasSuffix(s: string, p: string) { |p| <= |s| && s[|s| - |p|..] == p }

  predicate Hex(s: string) { forall i :: 0 <= i < |s| ==> '0' <= s[i] <= '9' || 'a' <= s[i] <= 'f' }

  predicate Local(target: string) { HasPrefix(target, "./") }

  /** Where the last '@' stands, or -1. */
  function LastAt(s: string): (i: int)
    ensures -1 <= i < |s|
    ensures i >= 0 ==> s[i] == '@'
    ensures forall j :: i < j < |s| ==> s[j] != '@'
  {
    if s == "" then -1
    else if s[|s| - 1] == '@' then |s| - 1
    else LastAt(s[..|s| - 1])
  }

  /** The decision the checker makes about one target. */
  predicate ValidTarget(target: string)
  {
    if Local(target) then true
    else if HasPrefix(target, "docker://") then
      |target| >= 72 && target[|target| - 72..|target| - 64] == "@sha256:" && Hex(target[|target| - 64..])
    else
      var at := LastAt(target);
      at > 0 && |target| - at - 1 == 40 && Hex(target[at + 1..])
  }

  /** What it is for: a local path, a container fixed by digest, or an action fixed by commit. */
  ghost predicate Pinned(target: string)
  {
    || Local(target)
    || (HasPrefix(target, "docker://") && Ends(target, "@sha256:", 64, false))
    || (!HasPrefix(target, "docker://") && Ends(target, "@", 40, true))
  }

  /** Some name, the mark and that many hexadecimal digits. */
  ghost predicate Ends(target: string, mark: string, digits: nat, named: bool)
  {
    exists name, hex :: (named ==> name != "") && |hex| == digits && Hex(hex) && target == name + mark + hex
  }

  lemma ValidTargetIff(target: string)
    ensures ValidTarget(target) <==> Pinned(target)
  {
    if Local(target) {
    } else if HasPrefix(target, "docker://") {
      DockerIff(target);
    } else {
      CommitIff(target);
    }
  }

  lemma DockerIff(target: string)
    requires !Local(target) && HasPrefix(target, "docker://")
    ensures ValidTarget(target) <==> Pinned(target)
  {
    if ValidTarget(target) {
      var name, digest := target[..|target| - 72], target[|target| - 64..];
      assert target == name + "@sha256:" + digest;
      assert Ends(target, "@sha256:", 64, false);
    }
    if Pinned(target) {
      var name, digest :| |digest| == 64 && Hex(digest) && target == name + "@sha256:" + digest;
      assert target[|target| - 72..|target| - 64] == "@sha256:";
      assert target[|target| - 64..] == digest;
    }
  }

  lemma CommitIff(target: string)
    requires !Local(target) && !HasPrefix(target, "docker://")
    ensures ValidTarget(target) <==> Pinned(target)
  {
    var at := LastAt(target);
    if ValidTarget(target) {
      assert target == target[..at] + "@" + target[at + 1..];
      assert Ends(target, "@", 40, true);
    }
    if Pinned(target) {
      var name, commit :| name != "" && |commit| == 40 && Hex(commit) && target == name + "@" + commit;
      LastAtBefore(target, name, commit);
      assert target[|name| + 1..] == commit;
    }
  }

  lemma LastAtIs(s: string, k: nat)
    requires k < |s| && s[k] == '@' && forall j :: k < j < |s| ==> s[j] != '@'
    ensures LastAt(s) == k
  {
  }

  lemma LastAtBefore(s: string, name: string, rest: string)
    requires s == name + "@" + rest && Hex(rest)
    ensures LastAt(s) == |name|
  {
    var k := |name|;
    assert s[k] == '@';
    forall j | k < j < |s| ensures s[j] != '@' {
      assert s[j] == rest[j - k - 1];
    }
    LastAtIs(s, k);
  }

  // ---------- which nodes name actions ----------

  datatype Doc = Doc(graph: Graph, root: NodeId)

  ghost predicate DocOk(d: Doc) { WellFormed(d.graph) && d.root in d.graph }

  ghost predicate StepsUse(g: Graph, steps: NodeId, a: NodeId)
    requires WellFormed(g) && steps in g
  {
    var r := Resolved(g, steps);
    g[r].Sequence? && exists i :: 0 <= i < |g[r].items| && Yields(g, g[r].items[i], "uses", a)
  }

  /** A mapping whose `steps` use the action. */
  ghost predicate HolderUses(g: Graph, holder: NodeId, a: NodeId)
    requires WellFormed(g) && holder in g
  {
    exists steps :: steps in g && Yields(g, holder, "steps", steps) && StepsUse(g, steps, a)
  }

  ghost predicate JobUses(g: Graph, job: NodeId, a: NodeId)
    requires WellFormed(g) && job in g
  {
    Yields(g, job, "uses", a) || HolderUses(g, job, a)
  }

  ghost predicate JobsUse(g: Graph, jobs: NodeId, a: NodeId)
    requires WellFormed(g) && jobs in g
  {
    var r := Resolved(g, jobs);
    g[r].Mapping? && exists job :: job in JobNodes(g[r].content) && job in g && JobUses(g, job, a)
  }

  /** The values of a mapping, in order: every second node from the second on. */
  function JobNodes(content: seq<NodeId>): (jobs: seq<NodeId>)
    ensures forall g: Graph :: Closed(g, content) ==> Closed(g, jobs)
  {
    seq(|content| / 2, i requires 0 <= i < |content| / 2 => content[2 * i + 1])
  }

  ghost predicate WorkflowUses(d: Doc, a: NodeId)
    requires DocOk(d)
  {
    exists jobs :: jobs in d.graph && Yields(d.graph, d.root, "jobs", jobs) && JobsUse(d.graph, jobs, a)
  }

  ghost predicate ManifestUses(d: Doc, a: NodeId)
    requires DocOk(d)
  {
    exists runs :: runs in d.graph && Yields(d.graph, d.root, "runs", runs) && HolderUses(d.graph, runs, a)
  }

  method StepActions(g: Graph, steps: NodeId) returns (actions: seq<NodeId>)
    requires WellFormed(g) && steps in g
    ensures forall a :: a in actions <==> StepsUse(g, steps, a)
    ensures Closed(g, actions)
  {
    actions := [];
    var r := Resolved(g, steps);
    if !g[r].Sequence? {
      return;
    }
    var items := g[r].items;
    for k := 0 to |items|
      invariant forall a :: a in actions <==> exists i :: 0 <= i < k && Yields(g, items[i], "uses", a)
      invariant Closed(g, actions)
    {
      var found := MappingValues(g, items[k], "uses");
      actions := actions + found;
    }
  }

  // ---------- gathering over several nodes ----------

  /** The actions are exactly those that some of the nodes use. */
  ghost predicate Gathers(nodes: seq<NodeId>, uses: (NodeId, NodeId) -> bool, actions: seq<NodeId>)
  {
    forall a :: a in actions <==> exists n :: n in nodes && uses(n, a)
  }

  lemma GatherMore(nodes: seq<NodeId>, k: nat, uses: (NodeId, NodeId) -> bool, actions: seq<NodeId>,
                   found: seq<NodeId>)
    requires k < |nodes| && Gathers(nodes[..k], uses, actions) && forall a :: a in found <==> uses(nodes[k], a)
    ensures Gathers(nodes[..k + 1], uses, actions + found)
  {
    assert nodes[..k + 1] == nodes[..k] + [nodes[k]];
  }

  ghost function StepsUser(g: Graph): (NodeId, NodeId) -> bool
    requires WellFormed(g)
  {
    (n: NodeId, a: NodeId) => n in g && StepsUse(g, n, a)
  }

  ghost function HolderUser(g: Graph): (NodeId, NodeId) -> bool
    requires WellFormed(g)
  {
    (n: NodeId, a: NodeId) => n in g && HolderUses(g, n, a)
  }

  ghost function JobUser(g: Graph): (NodeId, NodeId) -> bool
    requires WellFormed(g)
  {
    (n: NodeId, a: NodeId) => n in g && JobUses(g, n, a)
  }

  ghost function JobsUser(g: Graph): (NodeId, NodeId) -> bool
    requires WellFormed(g)
  {
    (n: NodeId, a: NodeId) => n in g && JobsUse(g, n, a)
  }

  method EachSteps(g: Graph, nodes: seq<NodeId>) returns (actions: seq<NodeId>)
    requires WellFormed(g) && Closed(g, nodes)
    ensures Gathers(nodes, StepsUser(g), actions) && Closed(g, actions)
  {
    actions := [];
    for k := 0 to |nodes|
      invariant Gathers(nodes[..k], StepsUser(g), actions) && Closed(g, actions)
    {
      var found := StepActions(g, nodes[k]);
      GatherMore(nodes, k, StepsUser(g), actions, found);
      actions := actions + found;
    }
    assert nodes[..|nodes|] == nodes;
  }

  method HolderActions(g: Graph, holder: NodeId) returns (actions: seq<NodeId>)
    requires WellFormed(g) && holder in g
    ensures forall a :: a in actions <==> HolderUses(g, holder, a)
    ensures Closed(g, actions)
  {
    var all := MappingValues(g, holder, "steps");
    actions := EachSteps(g, all);
    HolderGathered(g, holder, all, actions);
  }

  lemma HolderGathered(g: Graph, holder: NodeId, all: seq<NodeId>, actions: seq<NodeId>)
    requires WellFormed(g) && holder in g && forall v :: v in all <==> Yields(g, holder, "steps", v)
    requires Gathers(all, StepsUser(g), actions)
    ensures forall a :: a in actions <==> HolderUses(g, holder, a)
  {
    forall a ensures a in actions <==> HolderUses(g, holder, a) {
      if HolderUses(g, holder, a) {
        var steps :| steps in g && Yields(g, holder, "steps", steps) && StepsUse(g, steps, a);
        assert steps in all && StepsUser(g)(steps, a);
      }
      if a in actions {
        var n :| n in all && StepsUser(g)(n, a);
      }
    }
  }

  method JobActions(g: Graph, job: NodeId) returns (actions: seq<NodeId>)
    requires WellFormed(g) && job in g
    ensures forall a :: a in actions <==> JobUses(g, job, a)
    ensures Closed(g, actions)
  {
    var direct := MappingValues(g, job, "uses");
    var stepped := HolderActions(g, job);
    actions := direct + stepped;
  }

  method EachJob(g: Graph, nodes: seq<NodeId>) returns (actions: seq<NodeId>)
    requires WellFormed(g) && Closed(g, nodes)
    ensures Gathers(nodes, JobUser(g), actions) && Closed(g, actions)
  {
    actions := [];
    for k := 0 to |nodes|
      invariant Gathers(nodes[..k], JobUser(g), actions) && Closed(g, actions)
    {
      var found := JobActions(g, nodes[k]);
      GatherMore(nodes, k, JobUser(g), actions, found);
      actions := actions + found;
    }
    assert nodes[..|nodes|] == nodes;
  }

  method JobsActions(g: Graph, jobs: NodeId) returns (actions: seq<NodeId>)
    requires WellFormed(g) && jobs in g
    ensures forall a :: a in actions <==> JobsUse(g, jobs, a)
    ensures Closed(g, actions)
  {
    var r := Resolved(g, jobs);
    if !g[r].Mapping? {
      return [];
    }
    actions := EachJob(g, JobNodes(g[r].content));
    JobsGathered(g, jobs, actions);
  }

  lemma JobsGathered(g: Graph, jobs: NodeId, actions: seq<NodeId>)
    requires WellFormed(g) && jobs in g && g[Resolved(g, jobs)].Mapping?
    requires Gathers(JobNodes(g[Resolved(g, jobs)].content), JobUser(g), actions)
    ensures forall a :: a in actions <==> JobsUse(g, jobs, a)
  {
    var all := JobNodes(g[Resolved(g, jobs)].content);
    forall a ensures a in actions <==> JobsUse(g, jobs, a) {
      if JobsUse(g, jobs, a) {
        var job :| job in all && job in g && JobUses(g, job, a);
        assert JobUser(g)(job, a);
      }
      if a in actions {
        var n :| n in all && JobUser(g)(n, a);
      }
    }
  }

  method EachJobs(g: Graph, nodes: seq<NodeId>) returns (actions: seq<NodeId>)
    requires WellFormed(g) && Closed(g, nodes)
    ensures Gathers(nodes, JobsUser(g), actions) && Closed(g, actions)
  {
    actions := [];
    for k := 0 to |nodes|
      invariant Gathers(nodes[..k], JobsUser(g), actions) && Closed(g, actions)
    {
      var found := JobsActions(g, nodes[k]);
      GatherMore(nodes, k, JobsUser(g), actions, found);
      actions := actions + found;
    }
    assert nodes[..|nodes|] == nodes;
  }

  /** Every action node of one workflow document. */
  method WorkflowActionNodes(d: Doc) returns (actions: seq<NodeId>)
    requires DocOk(d)
    ensures forall a :: a in actions <==> WorkflowUses(d, a)
    ensures Closed(d.graph, actions)
  {
    var all := MappingValues(d.graph, d.root, "jobs");
    actions := EachJobs(d.graph, all);
    WorkflowGathered(d, all, actions);
  }

  lemma WorkflowGathered(d: Doc, all: seq<NodeId>, actions: seq<NodeId>)
    requires DocOk(d) && forall v :: v in all <==> Yields(d.graph, d.root, "jobs", v)
    requires Gathers(all, JobsUser(d.graph), actions)
    ensures forall a :: a in actions <==> WorkflowUses(d, a)
  {
    var g := d.graph;
    forall a ensures a in actions <==> WorkflowUses(d, a) {
      if WorkflowUses(d, a) {
        var jobs :| jobs in g && Yields(g, d.root, "jobs", jobs) && JobsUse(g, jobs, a);
        assert jobs in all && JobsUser(g)(jobs, a);
      }
      if a in actions {
        var n :| n in all && JobsUser(g)(n, a);
      }
    }
  }

  method EachHolder(g: Graph, nodes: seq<NodeId>) returns (actions: seq<NodeId>)
    requires WellFormed(g) && Closed(g, nodes)
    ensures Gathers(nodes, HolderUser(g), actions) && Closed(g, actions)
  {
    actions := [];
    for k := 0 to |nodes|
      invariant Gathers(nodes[..k], HolderUser(g), actions) && Closed(g, actions)
    {
      var found := HolderActions(g, nodes[k]);
      GatherMore(nodes, k, HolderUser(g), actions, found);
      actions := actions + found;
    }
    assert nodes[..|nodes|] == nodes;
  }

  /** Every action node of one composite-action manifest, in the order the steps name them. */
  method ManifestActionNodes(d: Doc) returns (actions: seq<NodeId>)
    requires DocOk(d)
    ensures forall a :: a in actions <==> ManifestUses(d, a)
    ensures Closed(d.graph, actions)
  {
    var all := MappingValues(d.graph, d.root, "runs");
    actions := EachHolder(d.graph, all);
    ManifestGathered(d, all, actions);
  }

  lemma ManifestGathered(d: Doc, all: seq<NodeId>, actions: seq<NodeId>)
    requires DocOk(d) && forall v :: v in all <==> Yields(d.graph, d.root, "runs", v)
    requires Gathers(all, HolderUser(d.graph), actions)
    ensures forall a :: a in actions <==> ManifestUses(d, a)
  {
    var g := d.graph;
    forall a ensures a in actions <==> ManifestUses(d, a) {
      if ManifestUses(d, a) {
        var runs :| runs in g && Yields(g, d.root, "runs", runs) && HolderUses(g, runs, a);
        assert runs in all && HolderUser(g)(runs, a);
      }
      if a in actions {
        var n :| n in all && HolderUser(g)(n, a);
      }
    }
  }
}
