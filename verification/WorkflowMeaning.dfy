/** What the workflows of a repository really reach, reusable workflows and every local action
    included, against what the action-pin checker follows (scripts/workflow_action_pins.go). */
module WorkflowMeaning {

  import opened Wrappers
  import opened Text
  import opened ActionPins
  import opened JobMeaning
  import opened WorkflowChecks
  import Chains
  import Yaml

  // ---------- what is reached ----------

  ghost predicate SemDocNames(d: Doc, target: string)
    requires DocOk(d)
  {
    exists a :: a in d.graph && SemUses(d, a) && Names(d, a, target)
  }

  function EntryPath(repo: Repo, e: Entry): Path { repo.root + [".github", "workflows", e.name] }

  /** A local target that names a workflow file leads to its documents. */
  ghost predicate LeadsToDoc(repo: Repo, target: string, d: Doc)
  {
    Local(target) && repo.entries.Some? &&
    exists e :: e in repo.entries.value && !e.isDir && DirectoryOf(repo, target) == EntryPath(repo, e)
                && e.file.Documents? && d in e.file.docs
  }

  /** A local target that names a directory leads to the manifests in it. */
  ghost predicate LeadsToManifest(repo: Repo, target: string, m: Path)
  {
    Local(target) && m in Candidates(repo, target) && IsFile(repo, m)
  }

  ghost predicate SemLinked(repo: Repo, t: string, u: string)
    requires Decoded(repo)
  {
    || (exists m :: LeadsToManifest(repo, t, m) && ManifestNames(repo, m, u))
    || (Exempt(t) && exists d :: LeadsToDoc(repo, t, d) && DocOk(d) && SemDocNames(d, u))
  }

  ghost predicate SemDirectoryNames(repo: Repo, target: string)
    requires Decoded(repo)
  {
    repo.entries.Some? &&
    exists e, d :: e in repo.entries.value && Considered(e) && e.file.Documents? && d in e.file.docs && DocOk(d)
                   && SemDocNames(d, target)
  }

  ghost function SemStart(repo: Repo): string -> bool
    requires Decoded(repo)
  {
    t => SemDirectoryNames(repo, t)
  }

  ghost function SemLink(repo: Repo): (string, string) -> bool
    requires Decoded(repo)
  {
    (t, u) => SemLinked(repo, t, u)
  }

  /** Some workflow reaches the target, through any chain of local actions and reusable workflows. */
  ghost predicate SemReached(repo: Repo, target: string)
    requires Decoded(repo)
  {
    Chains.Reaches(SemStart(repo), SemLink(repo), target)
  }

  // ---------- the two conditions ----------

  ghost predicate JobsAllAgree(repo: Repo)
    requires Decoded(repo)
  {
    repo.entries.Some? ==>
      forall e, d :: e in repo.entries.value && Considered(e) && e.file.Documents? && d in e.file.docs ==>
                       DocOk(d) && JobsAgree(d)
  }

  ghost predicate Examined(repo: Repo, m: Path)
    requires Decoded(repo)
  {
    exists t :: Reached(repo, t) && Leads(repo, t, m)
  }

  /** Every action manifest behind a target that the checker exempts is examined for another. */
  ghost predicate NothingHidden(repo: Repo)
    requires Decoded(repo)
  {
    forall t, m :: Reached(repo, t) && Exempt(t) && LeadsToManifest(repo, t, m) ==> Examined(repo, m)
  }

  /** The checker's verdict. */
  ghost predicate Verdict(repo: Repo)
    requires Decoded(repo)
  {
    DirectoryFine(repo) && forall t :: Reached(repo, t) ==> Fine(repo, t)
  }

  // ---------- exempt targets and the entries they name ----------

  lemma SuffixOfName(directory: string, name: string, ext: string)
    requires directory != "" && directory[|directory| - 1] == '/' && '/' !in ext
    ensures HasSuffix(directory + name, ext) <==> HasSuffix(name, ext)
  {
    var path := directory + name;
    if |ext| <= |name| {
      assert path[|path| - |ext|..] == name[|name| - |ext|..];
    } else {
      assert path[|directory| - 1] == '/';
      assert |ext| <= |path| ==> path[|path| - |ext|..][|ext| - |name| - 1] == '/';
    }
  }

  function Last(parts: seq<string>): string
    requires parts != []
  {
    parts[|parts| - 1]
  }

  lemma LastOfCons(first: string, rest: seq<string>)
    requires rest != []
    ensures Last([first] + rest) == Last(rest)
  {
  }

  lemma SuffixAfter(first: string, rest: string, ext: string)
    requires HasSuffix(first + ['/'] + rest, ext) && '/' !in ext
    ensures HasSuffix(rest, ext)
  {
    var directory := first + ['/'];
    assert directory[|directory| - 1] == '/';
    SuffixOfName(directory, rest, ext);
  }

  lemma {:induction false} LastPart(s: string, ext: string)
    requires HasSuffix(s, ext) && '/' !in ext
    ensures HasSuffix(Last(Split(s, '/')), ext)
    decreases |s|
  {
    if '/' in s {
      var first, rest := SplitOnce(s, '/');
      SuffixAfter(first, rest, ext);
      LastPart(rest, ext);
      LastOfCons(first, Split(rest, '/'));
    } else {
      SplitPlain(s, '/');
    }
  }

  lemma {:induction false} WalkLast(base: Path, parts: seq<string>)
    requires parts != [] && Last(parts) !in ["", ".", ".."]
    ensures Walk(base, parts) != [] && Last(Walk(base, parts)) == Last(parts)
    decreases |parts|
  {
    if |parts| == 1 {
      assert Walk(base + [parts[0]], parts[1..]) == base + [parts[0]];
    } else {
      var next := if parts[0] == "" || parts[0] == "." then base
                  else if parts[0] == ".." then (if base == [] then base else base[..|base| - 1])
                  else base + [parts[0]];
      WalkLast(next, parts[1..]);
    }
  }

  lemma ExemptName(repo: Repo, target: string, ext: string)
    requires Local(target) && HasSuffix(target, ext) && '/' !in ext && 3 <= |ext| <= |target| - 2
    ensures DirectoryOf(repo, target) != [] && HasSuffix(Last(DirectoryOf(repo, target)), ext)
  {
    var tail := target[2..];
    assert target[|target| - |ext|..] == tail[|tail| - |ext|..];
    LastPart(tail, ext);
    WalkLast(repo.root, Split(tail, '/'));
  }

  /** However an exempt target spells its path, an entry of the workflow directory that it names is
      examined as a workflow exactly when it is not itself a directory. */
  lemma ExemptIsExamined(repo: Repo, target: string, e: Entry)
    requires Exempt(target) && DirectoryOf(repo, target) == EntryPath(repo, e)
    ensures Considered(e) <==> !e.isDir
  {
    assert Last(EntryPath(repo, e)) == e.name;
    ExemptName(repo, target, if HasSuffix(target, ".yml") then ".yml" else ".yaml");
  }

  // ---------- under the two conditions the checker follows everything ----------

  lemma NamesAgree(repo: Repo, e: Entry, d: Doc, t: string)
    requires Decoded(repo) && JobsAllAgree(repo) && repo.entries.Some? && e in repo.entries.value
    requires Considered(e) && e.file.Documents? && d in e.file.docs
    ensures DocOk(d) && (SemDocNames(d, t) <==> DocNames(d, t))
  {
    UsesAgreeIff(d);
  }

  lemma SemFirstReached(repo: Repo, t: string)
    requires Decoded(repo) && JobsAllAgree(repo) && SemDirectoryNames(repo, t)
    ensures Reached(repo, t)
  {
    var e, d :| e in repo.entries.value && Considered(e) && e.file.Documents? && d in e.file.docs && DocOk(d)
                && SemDocNames(d, t);
    NamesAgree(repo, e, d, t);
    assert FileNames(e, t);
    Chains.ReachesFirst(Start(repo), Link(repo), t);
  }

  lemma ManifestNextReached(repo: Repo, t: string, m: Path, u: string)
    requires Decoded(repo) && NothingHidden(repo) && Reached(repo, t)
    requires LeadsToManifest(repo, t, m) && ManifestNames(repo, m, u)
    ensures Reached(repo, u)
  {
    assert Examined(repo, m) by {
      if !Exempt(t) { assert Leads(repo, t, m); }
    }
    var follower :| Reached(repo, follower) && Leads(repo, follower, m);
    assert Linked(repo, follower, u);
    Chains.ReachesNext(Start(repo), Link(repo), follower, u);
  }

  lemma DocNextReached(repo: Repo, t: string, d: Doc, u: string)
    requires Decoded(repo) && JobsAllAgree(repo) && Exempt(t)
    requires LeadsToDoc(repo, t, d) && DocOk(d) && SemDocNames(d, u)
    ensures Reached(repo, u)
  {
    DocIsExamined(repo, t, d, u);
    SemFirstReached(repo, u);
  }

  lemma DocIsExamined(repo: Repo, t: string, d: Doc, u: string)
    requires Decoded(repo) && Exempt(t) && LeadsToDoc(repo, t, d) && DocOk(d) && SemDocNames(d, u)
    ensures SemDirectoryNames(repo, u)
  {
    var e :| e in repo.entries.value && !e.isDir && DirectoryOf(repo, t) == EntryPath(repo, e)
             && e.file.Documents? && d in e.file.docs;
    ExemptIsExamined(repo, t, e);
  }

  lemma SemNextReached(repo: Repo, t: string, u: string)
    requires Decoded(repo) && JobsAllAgree(repo) && NothingHidden(repo) && Reached(repo, t) && SemLinked(repo, t, u)
    ensures Reached(repo, u)
  {
    if m :| LeadsToManifest(repo, t, m) && ManifestNames(repo, m, u) {
      ManifestNextReached(repo, t, m, u);
    } else {
      var d :| LeadsToDoc(repo, t, d) && DocOk(d) && SemDocNames(d, u);
      DocNextReached(repo, t, d, u);
    }
  }

  lemma LinkedIsSem(repo: Repo, t: string, u: string)
    requires Decoded(repo) && Linked(repo, t, u)
    ensures SemLinked(repo, t, u)
  {
    var m :| Leads(repo, t, m) && ManifestNames(repo, m, u);
    assert LeadsToManifest(repo, t, m);
  }

  lemma FirstIsSem(repo: Repo, t: string)
    requires Decoded(repo) && JobsAllAgree(repo) && DirectoryNames(repo, t)
    ensures SemDirectoryNames(repo, t)
  {
    var e :| e in repo.entries.value && Considered(e) && FileNames(e, t);
    var d :| d in e.file.docs && DocNames(d, t);
    NamesAgree(repo, e, d, t);
  }

  /** If the jobs examined use what the jobs use and no manifest hides behind an exempt target, the verdict is about
      everything the workflows really reach, and a clean one means all of it is pinned. */
  lemma VerdictCoversAll(repo: Repo)
    requires Decoded(repo) && JobsAllAgree(repo) && NothingHidden(repo)
    ensures forall t :: SemReached(repo, t) <==> Reached(repo, t)
    ensures Verdict(repo) <==> DirectoryFine(repo) && forall t :: SemReached(repo, t) ==> Fine(repo, t)
    ensures Verdict(repo) ==> forall t :: SemReached(repo, t) ==> Pinned(t)
  {
    SemIsReached(repo);
    ReachedIsSem(repo);
  }

  lemma SemIsReached(repo: Repo)
    requires Decoded(repo) && JobsAllAgree(repo) && NothingHidden(repo)
    ensures forall t :: SemReached(repo, t) ==> Reached(repo, t)
  {
    forall t | SemDirectoryNames(repo, t) ensures Reached(repo, t) {
      SemFirstReached(repo, t);
    }
    forall t, u | Reached(repo, t) && SemLinked(repo, t, u) ensures Reached(repo, u) {
      SemNextReached(repo, t, u);
    }
    Chains.ReachesInduction(SemStart(repo), SemLink(repo), t => Reached(repo, t));
  }

  lemma ReachedIsSem(repo: Repo)
    requires Decoded(repo) && JobsAllAgree(repo)
    ensures forall t :: Reached(repo, t) ==> SemReached(repo, t)
  {
    forall t | DirectoryNames(repo, t) ensures SemReached(repo, t) {
      FirstIsSem(repo, t);
      Chains.ReachesFirst(SemStart(repo), SemLink(repo), t);
    }
    forall t, u | SemReached(repo, t) && Linked(repo, t, u) ensures SemReached(repo, u) {
      LinkedIsSem(repo, t, u);
      Chains.ReachesNext(SemStart(repo), SemLink(repo), t, u);
    }
    Chains.ReachesInduction(Start(repo), Link(repo), t => SemReached(repo, t));
  }

  // ---------- coverage, exactly ----------

  /** A merged-in job of some workflow names the target. */
  ghost predicate MergedInNames(repo: Repo, target: string)
    requires Decoded(repo)
  {
    repo.entries.Some? &&
    exists e, d, a :: e in repo.entries.value && Considered(e) && e.file.Documents? && d in e.file.docs && DocOk(d)
                      && a in d.graph && MergedUses(d, a) && Names(d, a, target)
  }

  /** A manifest behind an exempt target that is really reached names the target. */
  ghost predicate BehindExemptNames(repo: Repo, target: string)
    requires Decoded(repo)
  {
    exists t, m :: SemReached(repo, t) && Exempt(t) && LeadsToManifest(repo, t, m) && ManifestNames(repo, m, target)
  }

  /** In any checkout, the verdict covers all that the workflows reach exactly when all that merged-in
      jobs and manifests behind exempt targets name is reached anyway. */
  lemma CoveredIff(repo: Repo)
    requires Decoded(repo)
    ensures (forall t :: SemReached(repo, t) ==> Reached(repo, t)) <==>
            (forall t :: MergedInNames(repo, t) || BehindExemptNames(repo, t) ==> Reached(repo, t))
  {
    forall t | MergedInNames(repo, t) || BehindExemptNames(repo, t) ensures SemReached(repo, t) {
      if MergedInNames(repo, t) { MergedInIsSem(repo, t); } else { BehindExemptIsSem(repo, t); }
    }
    if forall t :: MergedInNames(repo, t) || BehindExemptNames(repo, t) ==> Reached(repo, t) {
      forall t | SemDirectoryNames(repo, t) ensures SemReached(repo, t) && Reached(repo, t) {
        Chains.ReachesFirst(SemStart(repo), SemLink(repo), t);
        FirstCovered(repo, t);
      }
      forall t, u | (SemReached(repo, t) && Reached(repo, t)) && SemLinked(repo, t, u)
        ensures SemReached(repo, u) && Reached(repo, u)
      {
        Chains.ReachesNext(SemStart(repo), SemLink(repo), t, u);
        NextCovered(repo, t, u);
      }
      Chains.ReachesInduction(SemStart(repo), SemLink(repo), t => SemReached(repo, t) && Reached(repo, t));
    }
  }

  lemma MergedInIsSem(repo: Repo, t: string)
    requires Decoded(repo) && MergedInNames(repo, t)
    ensures SemReached(repo, t)
  {
    var e, d, a :| e in repo.entries.value && Considered(e) && e.file.Documents? && d in e.file.docs && DocOk(d)
                   && a in d.graph && MergedUses(d, a) && Names(d, a, t);
    UsesSplit(d, a);
    assert SemDocNames(d, t);
    Chains.ReachesFirst(SemStart(repo), SemLink(repo), t);
  }

  lemma BehindExemptIsSem(repo: Repo, u: string)
    requires Decoded(repo) && BehindExemptNames(repo, u)
    ensures SemReached(repo, u)
  {
    var t, m :| SemReached(repo, t) && Exempt(t) && LeadsToManifest(repo, t, m) && ManifestNames(repo, m, u);
    assert SemLinked(repo, t, u);
    Chains.ReachesNext(SemStart(repo), SemLink(repo), t, u);
  }

  lemma FirstCovered(repo: Repo, t: string)
    requires Decoded(repo) && SemDirectoryNames(repo, t) && (MergedInNames(repo, t) ==> Reached(repo, t))
    ensures Reached(repo, t)
  {
    var e, d :| e in repo.entries.value && Considered(e) && e.file.Documents? && d in e.file.docs && DocOk(d)
                && SemDocNames(d, t);
    var a :| a in d.graph && SemUses(d, a) && Names(d, a, t);
    UsesSplit(d, a);
    if WorkflowUses(d, a) {
      assert DocNames(d, t);
      assert FileNames(e, t);
      Chains.ReachesFirst(Start(repo), Link(repo), t);
    } else {
      assert MergedInNames(repo, t);
    }
  }

  lemma NextCovered(repo: Repo, t: string, u: string)
    requires Decoded(repo) && SemReached(repo, t) && Reached(repo, t) && SemLinked(repo, t, u)
    requires MergedInNames(repo, u) || BehindExemptNames(repo, u) ==> Reached(repo, u)
    ensures Reached(repo, u)
  {
    if m :| LeadsToManifest(repo, t, m) && ManifestNames(repo, m, u) {
      if Exempt(t) {
        assert BehindExemptNames(repo, u);
      } else {
        assert Leads(repo, t, m) && Linked(repo, t, u);
        Chains.ReachesNext(Start(repo), Link(repo), t, u);
      }
    } else {
      var d :| LeadsToDoc(repo, t, d) && DocOk(d) && SemDocNames(d, u);
      DocIsExamined(repo, t, d, u);
      FirstCovered(repo, u);
    }
  }

  // ---------- and the second condition is exact ----------

  /** The same checkout, but for the content of manifests that the checker does not examine. */
  ghost predicate Alike(repo: Repo, other: Repo)
    requires Decoded(repo)
  {
    && Decoded(other) && other.entries == repo.entries && other.root == repo.root && other.files.Keys == repo.files.Keys
    && (forall p :: p in repo.files ==> SameKind(repo.files[p], other.files[p]))
    && (forall m :: Examined(repo, m) ==> other.files[m] == repo.files[m])
  }

  predicate SameKind(a: Stat, b: Stat) { a.File? == b.File? && a.Denied? == b.Denied? }

  lemma AlikeLeads(repo: Repo, other: Repo, t: string)
    requires Decoded(repo) && Alike(repo, other)
    ensures forall m :: Leads(repo, t, m) <==> Leads(other, t, m)
    ensures Located(repo, t) <==> Located(other, t)
  {
    forall m ensures Leads(repo, t, m) <==> Leads(other, t, m) {
    }
  }

  lemma AlikeManifest(repo: Repo, other: Repo, t: string, m: Path)
    requires Decoded(repo) && Alike(repo, other) && Reached(repo, t) && Leads(repo, t, m)
    ensures forall u :: ManifestNames(repo, m, u) <==> ManifestNames(other, m, u)
    ensures ManifestFine(repo, m) <==> ManifestFine(other, m)
  {
    assert Examined(repo, m);
  }

  lemma AlikeLinked(repo: Repo, other: Repo, t: string, u: string)
    requires Decoded(repo) && Alike(repo, other) && Reached(repo, t)
    ensures Linked(repo, t, u) <==> Linked(other, t, u)
  {
    AlikeLeads(repo, other, t);
    if m :| Leads(repo, t, m) && ManifestNames(repo, m, u) {
      AlikeManifest(repo, other, t, m);
    }
    if m :| Leads(other, t, m) && ManifestNames(other, m, u) {
      AlikeManifest(repo, other, t, m);
    }
  }

  lemma AlikeFine(repo: Repo, other: Repo, t: string)
    requires Decoded(repo) && Alike(repo, other) && Reached(repo, t)
    ensures Fine(repo, t) <==> Fine(other, t)
  {
    AlikeLeads(repo, other, t);
    forall m | Leads(repo, t, m) ensures ManifestFine(repo, m) <==> ManifestFine(other, m) {
      AlikeManifest(repo, other, t, m);
    }
  }

  lemma AlikeReached(repo: Repo, other: Repo)
    requires Decoded(repo) && Alike(repo, other)
    ensures forall t :: Reached(repo, t) <==> Reached(other, t)
  {
    forall t, u | Reached(repo, t) && Linked(other, t, u) ensures Reached(repo, u) {
      AlikeLinked(repo, other, t, u);
      Chains.ReachesNext(Start(repo), Link(repo), t, u);
    }
    forall t | DirectoryNames(repo, t) ensures Reached(repo, t) && Reached(other, t) {
      Chains.ReachesFirst(Start(repo), Link(repo), t);
      Chains.ReachesFirst(Start(other), Link(other), t);
    }
    Chains.ReachesInduction(Start(other), Link(other), t => Reached(repo, t));
    forall t, u | Reached(repo, t) && Reached(other, t) && Linked(repo, t, u)
      ensures Reached(repo, u) && Reached(other, u)
    {
      AlikeLinked(repo, other, t, u);
      Chains.ReachesNext(Start(repo), Link(repo), t, u);
      Chains.ReachesNext(Start(other), Link(other), t, u);
    }
    Chains.ReachesInduction(Start(repo), Link(repo), t => Reached(repo, t) && Reached(other, t));
  }

  /** The checker cannot tell such checkouts apart. */
  lemma AlikeVerdict(repo: Repo, other: Repo)
    requires Decoded(repo) && Alike(repo, other)
    ensures Verdict(repo) <==> Verdict(other)
  {
    AlikeReached(repo, other);
    forall t | Reached(repo, t) ensures Fine(repo, t) <==> Fine(other, t) {
      AlikeFine(repo, other, t);
    }
  }

  /** runs: { steps: [ { uses: owner/action@main } ] } */
  ghost predicate HasUnpinnedStep(g: Yaml.Graph)
  {
    && g.Keys == {0, 1, 2, 3, 4, 5, 6, 7}
    && g[0] == Yaml.Mapping([1, 2]) && g[1] == Yaml.Scalar("runs") && g[2] == Yaml.Mapping([3, 4])
    && g[3] == Yaml.Scalar("steps") && g[4] == Yaml.Sequence([5]) && g[5] == Yaml.Mapping([6, 7])
    && g[6] == Yaml.Scalar("uses") && g[7] == Yaml.Scalar("owner/action@main")
  }

  lemma UnpinnedStepExists() returns (d: Doc)
    ensures HasUnpinnedStep(d.graph) && d.root == 0
  {
    d := Doc(map[0 := Yaml.Mapping([1, 2]), 1 := Yaml.Scalar("runs"), 2 := Yaml.Mapping([3, 4]),
                 3 := Yaml.Scalar("steps"), 4 := Yaml.Sequence([5]), 5 := Yaml.Mapping([6, 7]),
                 6 := Yaml.Scalar("uses"), 7 := Yaml.Scalar("owner/action@main")], 0);
  }

  lemma UnpinnedStepNames(d: Doc)
    requires HasUnpinnedStep(d.graph) && d.root == 0
    ensures DocOk(d) && StepsName(d, "owner/action@main")
  {
    UnpinnedStepWellFormed(d.graph);
    UnpinnedStepUsed(d);
    assert Names(d, 7, "owner/action@main");
  }

  lemma UnpinnedStepWellFormed(g: Yaml.Graph)
    requires HasUnpinnedStep(g)
    ensures Yaml.WellFormed(g)
  {
  }

  lemma UnpinnedStepUsed(d: Doc)
    requires HasUnpinnedStep(d.graph) && d.root == 0 && DocOk(d)
    ensures ManifestUses(d, 7)
  {
    var g := d.graph;
    OneYield(g, 0, 1, 2, "runs");
    OneStep(g, 4, 5, 6, 7, 7);
    OneHolder(g, 2, 3, 4, 7);
  }

  lemma AlikeHidden(repo: Repo, other: Repo)
    requires Decoded(repo) && Alike(repo, other) && NothingHidden(repo)
    ensures NothingHidden(other)
  {
    AlikeReached(repo, other);
    forall t, m | Reached(other, t) && Exempt(t) && LeadsToManifest(other, t, m) ensures Examined(other, m) {
      assert LeadsToManifest(repo, t, m);
      var follower :| Reached(repo, follower) && Leads(repo, follower, m);
      AlikeLeads(repo, other, follower);
    }
  }

  lemma AlikeReplaced(repo: Repo, m: Path, d: Doc)
    requires Decoded(repo) && IsFile(repo, m) && !Examined(repo, m) && DocOk(d)
    ensures Alike(repo, repo.(files := repo.files[m := File(Manifest(d))]))
  {
    var other := repo.(files := repo.files[m := File(Manifest(d))]);
    assert other.files.Keys == repo.files.Keys;
    assert forall p :: p in repo.files && p != m ==> other.files[p] == repo.files[p];
  }

  lemma SemNext(repo: Repo, t: string, m: Path, u: string)
    requires Decoded(repo) && JobsAllAgree(repo) && Reached(repo, t) && LeadsToManifest(repo, t, m)
        && ManifestNames(repo, m, u)
    ensures SemReached(repo, u)
  {
    ReachedIsSem(repo);
    assert SemLinked(repo, t, u);
    Chains.ReachesNext(SemStart(repo), SemLink(repo), t, u);
  }

  /** A checkout with a hidden manifest, in which that manifest uses an unpinned action. */
  lemma HiddenUnpinned(repo: Repo, t: string, m: Path) returns (other: Repo)
    requires Decoded(repo) && JobsAllAgree(repo) && Reached(repo, t) && LeadsToManifest(repo, t, m)
        && !Examined(repo, m)
    ensures Alike(repo, other) && SemReached(other, "owner/action@main")
  {
    var d := UnpinnedStepExists();
    UnpinnedStepNames(d);
    other := repo.(files := repo.files[m := File(Manifest(d))]);
    AlikeReplaced(repo, m, d);
    AlikeReached(repo, other);
    SemNext(other, t, m, "owner/action@main");
  }

  /** For a checkout that the checker finds clean: no manifest hides behind an exempt target exactly
      when, whatever the manifests that were not examined may hold, everything reached is pinned. */
  lemma NothingHiddenIff(repo: Repo)
    requires Decoded(repo) && JobsAllAgree(repo) && Verdict(repo)
    ensures NothingHidden(repo) <==> forall other :: Alike(repo, other) ==> AllPinned(other)
  {
    if NothingHidden(repo) {
      forall other | Alike(repo, other) ensures AllPinned(other) {
        AlikeHidden(repo, other);
        AlikeVerdict(repo, other);
        VerdictCoversAll(other);
      }
    } else {
      var t, m :| Reached(repo, t) && Exempt(t) && LeadsToManifest(repo, t, m) && !Examined(repo, m);
      var other := HiddenUnpinned(repo, t, m);
      UnpinnedExample();
      assert !AllPinned(other);
    }
  }

  ghost predicate AllPinned(repo: Repo)
  {
    Decoded(repo) && forall u :: SemReached(repo, u) ==> Pinned(u)
  }

  // ---------- an input ----------

  /** jobs: { build: { steps: [ { uses: <target> } ] } } */
  ghost predicate HasStep(g: Yaml.Graph, target: string)
  {
    && g.Keys == {0, 1, 2, 3, 4, 5, 6, 7, 8, 9}
    && g[0] == Yaml.Mapping([1, 2]) && g[1] == Yaml.Scalar("jobs") && g[2] == Yaml.Mapping([3, 4])
    && g[3] == Yaml.Scalar("build") && g[4] == Yaml.Mapping([5, 6]) && g[5] == Yaml.Scalar("steps")
    && g[6] == Yaml.Sequence([7]) && g[7] == Yaml.Mapping([8, 9]) && g[8] == Yaml.Scalar("uses")
    && g[9] == Yaml.Scalar(target)
  }

  lemma StepExists(target: string) returns (d: Doc)
    ensures HasStep(d.graph, target) && d.root == 0
  {
    d := Doc(map[0 := Yaml.Mapping([1, 2]), 1 := Yaml.Scalar("jobs"), 2 := Yaml.Mapping([3, 4]),
                 3 := Yaml.Scalar("build"), 4 := Yaml.Mapping([5, 6]), 5 := Yaml.Scalar("steps"),
                 6 := Yaml.Sequence([7]), 7 := Yaml.Mapping([8, 9]), 8 := Yaml.Scalar("uses"),
                 9 := Yaml.Scalar(target)], 0);
  }

  lemma StepWellFormed(g: Yaml.Graph, target: string)
    requires HasStep(g, target)
    ensures Yaml.WellFormed(g)
  {
  }

  lemma StepUses(d: Doc, target: string, a: Yaml.NodeId)
    requires HasStep(d.graph, target) && d.root == 0 && DocOk(d)
    ensures WorkflowUses(d, a) <==> a == 9
  {
    var g := d.graph;
    OneYield(g, 0, 1, 2, "jobs");
    OneStep(g, 6, 7, 8, 9, a);
    OneHolder(g, 4, 5, 6, a);
    OneJob(g, 2, 3, 4, a);
  }

  lemma StepUnmerged(d: Doc, target: string)
    requires HasStep(d.graph, target) && d.root == 0 && DocOk(d)
    ensures JobsAgree(d)
  {
    OneYield(d.graph, 0, 1, 2, "jobs");
    OneEntry(d.graph, 2, 3, 4, "build");
    SemUsesIff(d);
  }

  lemma StepNames(d: Doc, target: string)
    requires HasStep(d.graph, target) && d.root == 0 && DocOk(d)
    ensures DocFine(d) && forall t :: DocNames(d, t) <==> t == target
  {
    forall a ensures WorkflowUses(d, a) <==> a == 9 {
      StepUses(d, target, a);
    }
    assert Names(d, 9, target);
  }

  lemma ExemptExample() returns (target: string)
    ensures Exempt(target) && Local(target)
  {
    var directory := "./.github/workflows/";
    target := directory + "x.yml";
    assert target[..|directory|] == directory && directory[..2] == "./";
    assert target[|target| - 4..] == ".yml";
  }

  /** One workflow file, whose only step uses the exempt target, and an action manifest behind it. */
  ghost predicate HidesAction(repo: Repo, d: Doc, target: string, m: Path)
  {
    && repo.entries == Some([Entry("ci.yml", false, Documents([d], false))])
    && HasStep(d.graph, target) && d.root == 0 && DocOk(d)
    && repo.files.Keys == {m} && repo.files[m].File? && Decoded(repo)
    && Local(target) && Exempt(target) && m in Candidates(repo, target)
  }

  lemma HidesActionReaches(repo: Repo, d: Doc, target: string, m: Path, t: string)
    requires HidesAction(repo, d, target, m)
    ensures Reached(repo, t) <==> t == target
  {
    var e := Entry("ci.yml", false, Documents([d], false));
    StepNames(d, target);
    assert e.name[2..] == ".yml" && Considered(e);
    assert forall u :: DirectoryNames(repo, u) <==> u == target by {
      assert e in repo.entries.value && d in e.file.docs;
      assert forall x :: x in repo.entries.value ==> x == e;
      assert forall u :: FileNames(e, u) <==> DocNames(d, u);
    }
    assert forall u, v :: u == target ==> !Linked(repo, u, v);
    Chains.ReachesInduction(Start(repo), Link(repo), u => u == target);
    Chains.ReachesFirst(Start(repo), Link(repo), target);
  }

  lemma HidesActionClean(repo: Repo, d: Doc, target: string, m: Path)
    requires HidesAction(repo, d, target, m)
    ensures JobsAllAgree(repo) && Verdict(repo)
  {
    StepUnmerged(d, target);
    StepNames(d, target);
    OnlyDocument(repo, d, target, m);
    forall t | Reached(repo, t) ensures Fine(repo, t) {
      HidesActionReaches(repo, d, target, m, t);
    }
  }

  lemma OnlyDocument(repo: Repo, d: Doc, target: string, m: Path)
    requires HidesAction(repo, d, target, m) && JobsAgree(d) && DocFine(d)
    ensures JobsAllAgree(repo) && DirectoryFine(repo)
  {
  }

  lemma HidesActionExists(target: string, hidden: Doc) returns (repo: Repo, d: Doc, m: Path)
    requires Exempt(target) && Local(target) && DocOk(hidden)
    ensures HidesAction(repo, d, target, m) && repo.files[m] == File(Manifest(hidden))
  {
    d := StepExists(target);
    StepWellFormed(d.graph, target);
    var entries := Some([Entry("ci.yml", false, Documents([d], false))]);
    m := Candidates(Repo(entries, [], map[]), target)[0];
    repo := Repo(entries, [], map[m := File(Manifest(hidden))]);
    assert m == Candidates(repo, target)[0];
  }

  /** The checker finds this checkout clean, and a step of its workflow runs an unpinned action. */
  lemma ExemptHidesUnpinned() returns (repo: Repo)
    ensures Decoded(repo) && JobsAllAgree(repo) && Verdict(repo)
    ensures SemReached(repo, "owner/action@main") && !Pinned("owner/action@main")
  {
    var hidden := UnpinnedStepExists();
    UnpinnedStepNames(hidden);
    var target := ExemptExample();
    var d, m;
    repo, d, m := HidesActionExists(target, hidden);
    HidesActionClean(repo, d, target, m);
    HidesActionReaches(repo, d, target, m, target);
    SemNext(repo, target, m, "owner/action@main");
    UnpinnedExample();
  }
}
