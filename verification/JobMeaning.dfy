/** What a workflow's jobs are, merges included, against the jobs the action-pin checker examines
    (scripts/workflow_action_pins.go). */
module JobMeaning {

  import opened ActionPins
  import opened Yaml

  // ---------- the jobs of a mapping ----------

  /** A mapping on the path, before its end, binds the key itself. */
  ghost predicate Shadowed(g: Graph, p: seq<NodeId>, key: string)
    requires WellFormed(g)
  {
    exists i, w :: 0 <= i < |p| - 1 && Binds(g, p[i], key, w)
  }

  /** Along the path of merges the job comes into the mapping `m`, overridden by none on the way.  Of
      several merged mappings with the same key each counts. */
  ghost predicate BringsIn(g: Graph, m: NodeId, p: seq<NodeId>, key: string, job: NodeId)
    requires WellFormed(g)
  {
    && key != "<<" && job in g && IsPath(g, p) && p[0] == m && Binds(g, p[|p| - 1], key, job)
    && !Shadowed(g, p, key)
  }

  /** Some job of the mapping, its own or merged in, uses the action. */
  ghost predicate SemJobUses(g: Graph, jobs: NodeId, a: NodeId)
    requires WellFormed(g) && jobs in g
  {
    exists p, key, job :: BringsIn(g, Resolved(g, jobs), p, key, job) && JobUses(g, job, a)
  }

  /** A job that a merge brings in uses the action. */
  ghost predicate MergedJobUses(g: Graph, jobs: NodeId, a: NodeId)
    requires WellFormed(g) && jobs in g
  {
    exists p, key, job :: |p| > 1 && BringsIn(g, Resolved(g, jobs), p, key, job) && JobUses(g, job, a)
  }

  ghost predicate OwnJobUses(g: Graph, jobs: NodeId, a: NodeId)
    requires WellFormed(g) && jobs in g
  {
    exists key, job :: key != "<<" && job in g && Binds(g, Resolved(g, jobs), key, job) && JobUses(g, job, a)
  }

  /** The value of a merge key, taken for a job, uses the action. */
  ghost predicate MergeValueUses(g: Graph, jobs: NodeId, a: NodeId)
    requires WellFormed(g) && jobs in g
  {
    exists w :: w in g && Binds(g, Resolved(g, jobs), "<<", w) && JobUses(g, w, a)
  }

  lemma BoundIsJob(g: Graph, m: NodeId, key: string, job: NodeId)
    requires WellFormed(g) && Binds(g, m, key, job)
    ensures job in JobNodes(g[m].content)
  {
    var content := g[m].content;
    var i :| 0 <= i && 2 * i + 1 < |content| && ScalarValue(g, content[2 * i]) == key && content[2 * i + 1] == job;
    assert JobNodes(content)[i] == job;
  }

  lemma JobIsBound(g: Graph, m: NodeId, job: NodeId) returns (key: string)
    requires WellFormed(g) && m in g && g[m].Mapping? && job in JobNodes(g[m].content)
    ensures Binds(g, m, key, job)
  {
    var content := g[m].content;
    var i :| 0 <= i < |JobNodes(content)| && JobNodes(content)[i] == job;
    key := ScalarValue(g, content[2 * i]);
    assert content[2 * i + 1] == job;
  }

  /** A job is the mapping's own or merged in. */
  lemma SemJobsSplit(g: Graph, jobs: NodeId, a: NodeId)
    requires WellFormed(g) && jobs in g
    ensures SemJobUses(g, jobs, a) <==> OwnJobUses(g, jobs, a) || MergedJobUses(g, jobs, a)
  {
    var m := Resolved(g, jobs);
    if p, key, job :| BringsIn(g, m, p, key, job) && JobUses(g, job, a) {
      assert |p| == 1 ==> Binds(g, m, key, job);
    }
    if key, job :| key != "<<" && job in g && Binds(g, m, key, job) && JobUses(g, job, a) {
      assert BringsIn(g, m, [m], key, job);
    }
  }

  /** What the checker takes for a job is one of the mapping's own, or the value of a merge key. */
  lemma JobsUseSplit(g: Graph, jobs: NodeId, a: NodeId)
    requires WellFormed(g) && jobs in g
    ensures JobsUse(g, jobs, a) <==> OwnJobUses(g, jobs, a) || MergeValueUses(g, jobs, a)
  {
    var m := Resolved(g, jobs);
    if JobsUse(g, jobs, a) {
      var job :| job in JobNodes(g[m].content) && job in g && JobUses(g, job, a);
      var key := JobIsBound(g, m, job);
    }
    if key, job :| job in g && Binds(g, m, key, job) && JobUses(g, job, a) {
      BoundIsJob(g, m, key, job);
    }
  }

  // ---------- the actions of a workflow ----------

  ghost predicate IsJobs(d: Doc, jobs: NodeId)
    requires DocOk(d)
  {
    jobs in d.graph && Yields(d.graph, d.root, "jobs", jobs)
  }

  /** The actions a workflow really uses. */
  ghost predicate SemUses(d: Doc, a: NodeId)
    requires DocOk(d)
  {
    exists jobs :: IsJobs(d, jobs) && SemJobUses(d.graph, jobs, a)
  }

  ghost predicate MergedUses(d: Doc, a: NodeId)
    requires DocOk(d)
  {
    exists jobs :: IsJobs(d, jobs) && MergedJobUses(d.graph, jobs, a)
  }

  ghost predicate MergeValuesUse(d: Doc, a: NodeId)
    requires DocOk(d)
  {
    exists jobs :: IsJobs(d, jobs) && MergeValueUses(d.graph, jobs, a)
  }

  lemma UsesSplit(d: Doc, a: NodeId)
    requires DocOk(d)
    ensures MergedUses(d, a) ==> SemUses(d, a)
    ensures SemUses(d, a) ==> WorkflowUses(d, a) || MergedUses(d, a)
    ensures WorkflowUses(d, a) ==> SemUses(d, a) || MergeValuesUse(d, a)
  {
    var g := d.graph;
    forall jobs | IsJobs(d, jobs)
      ensures SemJobUses(g, jobs, a) <==> OwnJobUses(g, jobs, a) || MergedJobUses(g, jobs, a)
      ensures JobsUse(g, jobs, a) <==> OwnJobUses(g, jobs, a) || MergeValueUses(g, jobs, a)
    {
      SemJobsSplit(g, jobs, a);
      JobsUseSplit(g, jobs, a);
    }
    if WorkflowUses(d, a) {
      var jobs :| jobs in g && Yields(g, d.root, "jobs", jobs) && JobsUse(g, jobs, a);
      assert IsJobs(d, jobs);
    }
  }

  /** The checker sees every action a workflow uses exactly when no merged-in job uses one that it
      does not see anyway. */
  lemma ActionsExaminedIff(d: Doc)
    requires DocOk(d)
    ensures (forall a :: SemUses(d, a) ==> WorkflowUses(d, a)) <==>
            (forall a :: MergedUses(d, a) ==> WorkflowUses(d, a))
  {
    forall a
      ensures MergedUses(d, a) ==> SemUses(d, a)
      ensures SemUses(d, a) ==> WorkflowUses(d, a) || MergedUses(d, a)
    {
      UsesSplit(d, a);
    }
  }

  /** Merged-in jobs use nothing new, and merge values taken for jobs nothing else. */
  ghost predicate JobsAgree(d: Doc)
    requires DocOk(d)
  {
    && (forall a :: MergedUses(d, a) ==> WorkflowUses(d, a))
    && (forall a :: MergeValuesUse(d, a) ==> SemUses(d, a))
  }

  lemma MergeValueIsSeen(d: Doc, a: NodeId)
    requires DocOk(d) && MergeValuesUse(d, a)
    ensures WorkflowUses(d, a)
  {
    var jobs :| IsJobs(d, jobs) && MergeValueUses(d.graph, jobs, a);
    JobsUseSplit(d.graph, jobs, a);
  }

  /** The examined actions are exactly the used ones exactly then. */
  lemma UsesAgreeIff(d: Doc)
    requires DocOk(d)
    ensures (forall a :: SemUses(d, a) <==> WorkflowUses(d, a)) <==> JobsAgree(d)
  {
    forall a
      ensures MergedUses(d, a) ==> SemUses(d, a)
      ensures SemUses(d, a) ==> WorkflowUses(d, a) || MergedUses(d, a)
      ensures WorkflowUses(d, a) ==> SemUses(d, a) || MergeValuesUse(d, a)
      ensures MergeValuesUse(d, a) ==> WorkflowUses(d, a)
    {
      UsesSplit(d, a);
      if MergeValuesUse(d, a) { MergeValueIsSeen(d, a); }
    }
  }

  /** No jobs mapping of the workflow has a merge key of its own. */
  ghost predicate NoJobsMerge(d: Doc)
    requires DocOk(d)
  {
    forall jobs, w :: IsJobs(d, jobs) ==> !Binds(d.graph, Resolved(d.graph, jobs), "<<", w)
  }

  /** Without a merge key in a jobs mapping, the examined actions are exactly the used ones. */
  lemma SemUsesIff(d: Doc)
    requires DocOk(d) && NoJobsMerge(d)
    ensures JobsAgree(d) && forall a :: SemUses(d, a) <==> WorkflowUses(d, a)
  {
    forall jobs, a | IsJobs(d, jobs) ensures !MergedJobUses(d.graph, jobs, a) && !MergeValueUses(d.graph, jobs, a) {
      NothingMerged(d.graph, jobs, a);
    }
    UsesAgreeIff(d);
  }

  lemma NothingMerged(g: Graph, jobs: NodeId, a: NodeId)
    requires WellFormed(g) && jobs in g && forall w :: !Binds(g, Resolved(g, jobs), "<<", w)
    ensures !MergedJobUses(g, jobs, a) && !MergeValueUses(g, jobs, a)
  {
    var m := Resolved(g, jobs);
    assert forall b :: !Merges(g, m, b);
    forall p, key, job | |p| > 1 ensures !BringsIn(g, m, p, key, job) {
      assert IsPath(g, p) ==> Merges(g, p[0], p[0 + 1]);
    }
  }

  /** jobs: { <<: { build: { uses: owner/action@main } } } */
  ghost predicate HasMergedJobs(g: Graph)
  {
    && g.Keys == {0, 1, 2, 3, 4, 5, 6, 7, 8}
    && g[0] == Mapping([1, 2]) && g[1] == Scalar("jobs") && g[2] == Mapping([3, 4]) && g[3] == Scalar("<<")
    && g[4] == Mapping([5, 6]) && g[5] == Scalar("build") && g[6] == Mapping([7, 8]) && g[7] == Scalar("uses")
    && g[8] == Scalar("owner/action@main")
  }

  lemma MergedJobsExist() returns (g: Graph)
    ensures HasMergedJobs(g)
  {
    g := map[0 := Mapping([1, 2]), 1 := Scalar("jobs"), 2 := Mapping([3, 4]), 3 := Scalar("<<"), 4 := Mapping([5, 6]),
      5 := Scalar("build"), 6 := Mapping([7, 8]), 7 := Scalar("uses"), 8 := Scalar("owner/action@main")];
  }

  /** A job that a merge brings into the jobs mapping is not examined: here the workflow yields a job
      that uses an unpinned action, and no action of it is found. */
  lemma MergedJobIsMissed() returns (g: Graph)
    ensures DocOk(Doc(g, 0)) && SemUses(Doc(g, 0), 8) && g[8] == Scalar("owner/action@main")
    ensures !Pinned("owner/action@main")
    ensures forall a :: !WorkflowUses(Doc(g, 0), a)
  {
    g := MergedJobsExist();
    MergedJobIsYielded(g);
    MergedJobIsUsed(Doc(g, 0), 2, [2, 4], "build", 6, 8);
    UnpinnedExample();
    forall a ensures !WorkflowUses(Doc(g, 0), a) {
      forall jobs | jobs in g && Yields(g, 0, "jobs", jobs) ensures !JobsUse(g, jobs, a) {
        MergedJobIsHidden(g, jobs, a);
      }
    }
  }

  lemma UnpinnedExample()
    ensures !Pinned("owner/action@main")
  {
    var t := "owner/action@main";
    ValidTargetIff(t);
    assert t[0] == 'o' && |t| == 17;
    assert "./"[0] == '.' && "docker://"[0] == 'd';
    assert !Local(t) && !HasPrefix(t, "docker://");
  }

  lemma MergedJobIsUsed(d: Doc, jobs: NodeId, p: seq<NodeId>, key: string, job: NodeId, a: NodeId)
    requires DocOk(d) && IsJobs(d, jobs) && Resolved(d.graph, jobs) == jobs && BringsIn(d.graph, jobs, p, key, job)
    requires Yields(d.graph, job, "uses", a)
    ensures SemUses(d, a)
  {
    assert SemJobUses(d.graph, jobs, a);
  }

  lemma MergedJobIsYielded(g: Graph)
    requires HasMergedJobs(g)
    ensures WellFormed(g) && Yields(g, 0, "jobs", 2) && BringsIn(g, 2, [2, 4], "build", 6) && Yields(g, 6, "uses", 8)
  {
    OneEntry(g, 0, 1, 2, "jobs");
    OneEntry(g, 2, 3, 4, "<<");
    OneEntry(g, 4, 5, 6, "build");
    OneEntry(g, 6, 7, 8, "uses");
    assert Merges(g, 2, 4);
    assert IsPath(g, [0]) && IsPath(g, [2, 4]) && IsPath(g, [6]);
  }

  lemma MergedJobIsHidden(g: Graph, jobs: NodeId, a: NodeId)
    requires HasMergedJobs(g) && WellFormed(g) && jobs in g && Yields(g, 0, "jobs", jobs)
    ensures !JobsUse(g, jobs, a)
  {
    OneEntry(g, 0, 1, 2, "jobs");
    OneEntry(g, 4, 5, 6, "build");
    YieldsWithoutMerge(g, 0, "jobs", jobs);
    assert JobNodes(g[2].content) == [4];
    YieldsWithoutMerge(g, 4, "uses", a);
    forall steps | steps in g ensures !Yields(g, 4, "steps", steps) {
      YieldsWithoutMerge(g, 4, "steps", steps);
    }
  }

  lemma OneEntry(g: Graph, m: NodeId, k: NodeId, v: NodeId, text: string)
    requires WellFormed(g) && m in g && g[m] == Mapping([k, v]) && k in g && g[k] == Scalar(text)
    ensures forall key, w :: Binds(g, m, key, w) <==> key == text && w == v
  {
    var content := g[m].content;
    assert content[2 * 0] == k && content[2 * 0 + 1] == v;
    assert forall i :: 0 <= i && 2 * i + 1 < |content| ==> i == 0;
  }

  /** A mapping with one plain entry yields that entry and nothing else. */
  lemma OneYield(g: Graph, n: NodeId, k: NodeId, v: NodeId, text: string)
    requires WellFormed(g) && n in g && g[n] == Mapping([k, v]) && k in g && g[k] == Scalar(text) && text != "<<"
    ensures forall key, w :: Yields(g, n, key, w) <==> key == text && w == v
  {
    OneEntry(g, n, k, v, text);
    forall key, w ensures Yields(g, n, key, w) <==> key == text && w == v {
      YieldsWithoutMerge(g, n, key, w);
    }
  }

  // ---------- documents with one entry at every level ----------

  lemma OneStep(g: Graph, steps: NodeId, item: NodeId, k: NodeId, v: NodeId, a: NodeId)
    requires WellFormed(g) && steps in g && g[steps] == Sequence([item])
    requires item in g && g[item] == Mapping([k, v]) && k in g && g[k] == Scalar("uses")
    ensures StepsUse(g, steps, a) <==> a == v
  {
    OneYield(g, item, k, v, "uses");
    assert g[steps].items[0] == item;
  }

  lemma OneHolder(g: Graph, holder: NodeId, k: NodeId, steps: NodeId, a: NodeId)
    requires WellFormed(g) && holder in g && g[holder] == Mapping([k, steps]) && k in g && g[k] == Scalar("steps")
    requires steps in g
    ensures HolderUses(g, holder, a) <==> StepsUse(g, steps, a)
    ensures JobUses(g, holder, a) <==> StepsUse(g, steps, a)
  {
    OneYield(g, holder, k, steps, "steps");
  }

  lemma OneJob(g: Graph, jobs: NodeId, k: NodeId, job: NodeId, a: NodeId)
    requires WellFormed(g) && jobs in g && job in g && g[jobs] == Mapping([k, job])
    ensures JobsUse(g, jobs, a) <==> JobUses(g, job, a)
  {
    assert JobNodes(g[jobs].content) == [job];
  }
}
