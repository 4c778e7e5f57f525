/** The memoised walk of the action-pin checker over workflows and local composite actions
    (scripts/workflow_action_pins.go). */
module WorkflowChecks {

  import opened Wrappers
  import opened Text
  import opened ActionPins
  import Chains
  import Yaml

  type Path = seq<string>

  /** What a file holds for the decoder. A manifest contributes its first document only. */
  datatype ManifestFile = Unreadable | Manifest(doc: Doc)

  datatype Stat = Directory | Denied | File(manifest: ManifestFile)

  /** A workflow file: its documents in order, and whether decoding stops at an error after them. */
  datatype WorkflowFile = Unopenable | Documents(docs: seq<Doc>, broken: bool)

  datatype Entry = Entry(name: string, isDir: bool, file: WorkflowFile)

  /** The checkout: the workflow directory's listing (None when it cannot be read), the path of its
      root, and what stands at each path; a path not in `files` does not exist. */
  datatype Repo = Repo(entries: Option<seq<Entry>>, root: Path, files: map<Path, Stat>)

  ghost predicate Decoded(repo: Repo)
  {
    && (forall p :: p in repo.files && repo.files[p].File? && repo.files[p].manifest.Manifest? ==>
        DocOk(repo.files[p].manifest.doc))
    && (repo.entries.Some? ==> forall e :: e in repo.entries.value ==> EntryDecoded(e))
  }

  ghost predicate EntryDecoded(e: Entry)
  {
    e.file.Documents? ==> forall d :: d in e.file.docs ==> DocOk(d)
  }

  // ---------- where a local target leads ----------

  /** Lexical cleaning of a path below `base`. */
  function Walk(base: Path, parts: seq<string>): Path
    decreases |parts|
  {
    if parts == [] then base
    else if parts[0] == "" || parts[0] == "." then Walk(base, parts[1..])
    else if parts[0] == ".." then Walk(if base == [] then base else base[..|base| - 1], parts[1..])
    else Walk(base + [parts[0]], parts[1..])
  }

  function DirectoryOf(repo: Repo, target: string): Path
    requires Local(target)
  {
    Walk(repo.root, Split(target[2..], '/'))
  }

  /** References to reusable workflows, which are files of the workflow directory. */
  predicate Exempt(target: string)
  {
    HasPrefix(target, "./.github/workflows/") && (HasSuffix(target, ".yml") || HasSuffix(target, ".yaml"))
  }

  predicate Followed(target: string) { Local(target) && !Exempt(target) }

  function Candidates(repo: Repo, target: string): seq<Path>
    requires Local(target)
  {
    [DirectoryOf(repo, target) + ["action.yml"], DirectoryOf(repo, target) + ["action.yaml"]]
  }

  predicate IsFile(repo: Repo, p: Path) { p in repo.files && repo.files[p].File? }

  /** The manifests behind a local target: both spellings count. */
  ghost predicate Leads(repo: Repo, target: string, m: Path)
  {
    Followed(target) && m in Candidates(repo, target) && IsFile(repo, m)
  }

  // ---------- what is used ----------

  ghost predicate ManifestNames(repo: Repo, m: Path, target: string)
    requires Decoded(repo)
  {
    IsFile(repo, m) && repo.files[m].manifest.Manifest? && StepsName(repo.files[m].manifest.doc, target)
  }

  /** Some step of a manifest names the target. */
  ghost predicate StepsName(d: Doc, target: string)
    requires DocOk(d)
  {
    exists a :: a in d.graph && ManifestUses(d, a) && Names(d, a, target)
  }

  /** The action node stands for the scalar `target`. */
  ghost predicate Names(d: Doc, a: Yaml.NodeId, target: string)
    requires DocOk(d) && a in d.graph
  {
    var r := Yaml.Resolved(d.graph, a);
    d.graph[r].Scalar? && d.graph[r].value == target
  }

  ghost predicate IsScalar(d: Doc, a: Yaml.NodeId)
    requires DocOk(d) && a in d.graph
  {
    d.graph[Yaml.Resolved(d.graph, a)].Scalar?
  }

  ghost predicate ManifestFine(repo: Repo, m: Path)
    requires Decoded(repo)
  {
    IsFile(repo, m) && repo.files[m].manifest.Manifest? && StepsFine(repo.files[m].manifest.doc)
  }

  ghost predicate StepsFine(d: Doc)
    requires DocOk(d)
  {
    forall a :: a in d.graph && ManifestUses(d, a) ==> IsScalar(d, a)
  }

  /** The target is pinned and, when it is followed, stays inside the repository and has a manifest. */
  ghost predicate Located(repo: Repo, target: string)
  {
    && Pinned(target)
    && (Followed(target) ==>
          && repo.root <= DirectoryOf(repo, target)
          && (forall p :: p in Candidates(repo, target) && p in repo.files ==> !repo.files[p].Denied?)
          && exists m :: Leads(repo, target, m))
  }

  ghost predicate Fine(repo: Repo, target: string)
    requires Decoded(repo)
  {
    Located(repo, target) && forall m :: Leads(repo, target, m) ==> ManifestFine(repo, m)
  }

  /** A chain of targets, each named by a manifest the one before leads to. */
  ghost predicate IsChain(repo: Repo, chain: seq<string>)
    requires Decoded(repo)
  {
    Chains.IsChain(Link(repo), chain)
  }

  ghost function Link(repo: Repo): (string, string) -> bool
    requires Decoded(repo)
  {
    (t, u) => Linked(repo, t, u)
  }

  ghost predicate Linked(repo: Repo, t: string, u: string)
    requires Decoded(repo)
  {
    exists m :: Leads(repo, t, m) && ManifestNames(repo, m, u)
  }

  predicate Considered(e: Entry) { !e.isDir && (HasSuffix(e.name, ".yml") || HasSuffix(e.name, ".yaml")) }

  ghost predicate DocNames(d: Doc, target: string)
    requires DocOk(d)
  {
    exists a :: a in d.graph && WorkflowUses(d, a) && Names(d, a, target)
  }

  ghost predicate DocFine(d: Doc)
    requires DocOk(d)
  {
    forall a :: a in d.graph && WorkflowUses(d, a) ==> IsScalar(d, a)
  }

  // ---------- what the walk leaves behind ----------

  /** Relative to a set of manifests examined or being examined. */
  ghost predicate Settled(repo: Repo, seen: set<Path>, target: string)
  {
    Located(repo, target) && forall m :: Leads(repo, target, m) ==> m in seen
  }

  ghost predicate ManifestSettled(repo: Repo, seen: set<Path>, m: Path)
    requires Decoded(repo)
  {
    ManifestFine(repo, m) && forall t :: ManifestNames(repo, m, t) ==> Settled(repo, seen, t)
  }

  ghost predicate AllSettled(repo: Repo, seen: set<Path>, which: set<Path>)
    requires Decoded(repo)
  {
    forall m :: m in which ==> ManifestSettled(repo, seen, m)
  }

  lemma SettledGrows(repo: Repo, seen: set<Path>, more: set<Path>, which: set<Path>)
    requires Decoded(repo) && seen <= more && AllSettled(repo, seen, which)
    ensures AllSettled(repo, more, which)
  {
  }

  lemma SettledNext(repo: Repo, seen: set<Path>, t: string, u: string)
    requires Decoded(repo) && AllSettled(repo, seen, seen) && Settled(repo, seen, t) && Linked(repo, t, u)
    ensures Settled(repo, seen, u)
  {
    var m :| Leads(repo, t, m) && ManifestNames(repo, m, u);
    assert ManifestSettled(repo, seen, m);
  }

  lemma SettledIsFine(repo: Repo, seen: set<Path>, t: string)
    requires Decoded(repo) && AllSettled(repo, seen, seen) && Settled(repo, seen, t)
    ensures Fine(repo, t)
  {
    forall m | Leads(repo, t, m) ensures ManifestFine(repo, m) {
      assert ManifestSettled(repo, seen, m);
    }
  }

  /** Once every examined manifest is settled, everything any chain reaches is fine. */
  lemma {:induction false} ClosedIsFine(repo: Repo, seen: set<Path>, chain: seq<string>)
    requires Decoded(repo) && AllSettled(repo, seen, seen)
    requires IsChain(repo, chain) && Settled(repo, seen, chain[0])
    ensures Fine(repo, chain[|chain| - 1])
    decreases |chain|
  {
    if |chain| == 1 {
      SettledIsFine(repo, seen, chain[0]);
    } else {
      Chains.Tail(Link(repo), chain);
      SettledNext(repo, seen, chain[0], chain[1]);
      ClosedIsFine(repo, seen, chain[1..]);
    }
  }

  lemma SettledJoins(repo: Repo, first: set<Path>, second: set<Path>, third: set<Path>)
    requires Decoded(repo) && first <= second <= third
    requires AllSettled(repo, second, second - first) && AllSettled(repo, third, third - second)
    ensures AllSettled(repo, third, third - first)
  {
    SettledGrows(repo, second, third, second - first);
  }

  /** A chain from `target` to something that is not fine. */
  ghost predicate Blames(repo: Repo, target: string, chain: seq<string>)
    requires Decoded(repo)
  {
    IsChain(repo, chain) && chain[0] == target && !Fine(repo, chain[|chain| - 1])
  }

  ghost predicate ManifestBlames(repo: Repo, m: Path, chain: seq<string>)
    requires Decoded(repo)
  {
    !ManifestFine(repo, m) || (chain != [] && ManifestNames(repo, m, chain[0]) && Blames(repo, chain[0], chain))
  }

  lemma BlameThroughManifest(repo: Repo, target: string, m: Path, chain: seq<string>) returns (blame: seq<string>)
    requires Decoded(repo) && Leads(repo, target, m) && ManifestBlames(repo, m, chain)
    ensures Blames(repo, target, blame)
  {
    if !ManifestFine(repo, m) {
      blame := [target];
    } else {
      blame := [target] + chain;
      assert Linked(repo, target, chain[0]);
      Chains.Prepend(Link(repo), target, chain);
    }
  }

  /** What an action node says: a target, or nothing when it is not a scalar. */
  function TargetOf(d: Doc, a: Yaml.NodeId): (t: Option<string>)
    requires DocOk(d) && a in d.graph
    ensures t.Some? <==> IsScalar(d, a)
    ensures forall u :: Names(d, a, u) <==> t == Some(u)
  {
    var r := Yaml.Resolved(d.graph, a);
    if d.graph[r].Scalar? then Some(d.graph[r].value) else None
  }

  class WorkflowChecker {

    const repo: Repo
    var localActions: set<Path>
    /** The manifests opened so far, in order. */
    var examined: seq<Path>

    constructor (repo: Repo)
      requires Decoded(repo)
      ensures this.repo == repo && localActions == {} && examined == [] && Valid()
    {
      this.repo, localActions, examined := repo, {}, [];
    }

    /** The memo is finite, and no manifest has been opened twice. */
    ghost predicate Valid()
      reads this
    {
      && Decoded(repo)
      && localActions <= repo.files.Keys
      && (forall p :: p in examined <==> p in localActions)
      && (forall i, j :: 0 <= i < j < |examined| ==> examined[i] != examined[j])
    }

    /** The manifests a directory holds, or None when one cannot be inspected. */
    method FindManifests(target: string) returns (found: Option<seq<Path>>)
      requires Followed(target)
      ensures found.None? <==> exists p :: p in Candidates(repo, target) && p in repo.files && repo.files[p].Denied?
      ensures found.Some? ==> forall m :: m in found.value <==> Leads(repo, target, m)
    {
      var manifests: seq<Path> := [];
      var names := Candidates(repo, target);
      for k := 0 to |names|
        invariant forall m :: m in manifests <==> m in names[..k] && IsFile(repo, m)
        invariant forall p :: p in names[..k] && p in repo.files ==> !repo.files[p].Denied?
      {
        if IsFile(repo, names[k]) {
          manifests := manifests + [names[k]];
        } else if names[k] in repo.files && repo.files[names[k]].Denied? {
          return None;
        }
      }
      assert names[..|names|] == names;
      return Some(manifests);
    }

    method CheckLocalAction(target: string) returns (clean: bool, ghost blame: seq<string>)
      requires Valid() && Local(target)
      modifies this
      ensures Valid() && old(localActions) <= localActions
      ensures clean ==> Settled(repo, localActions, target)
      ensures clean ==> AllSettled(repo, localActions, localActions - old(localActions))
      ensures !clean ==> Blames(repo, target, blame)
      decreases repo.files.Keys - localActions, 0
    {
      clean, blame := true, [target];
      if Exempt(target) {
        return;
      }
      if !(repo.root <= DirectoryOf(repo, target)) {
        clean := false;
        return;
      }
      var found := FindManifests(target);
      if found.None? || found.value == [] {
        clean := false;
        return;
      }
      assert found.value[0] in found.value;
      clean, blame := CheckManifests(target, found.value);
    }

    method CheckManifests(target: string, manifests: seq<Path>) returns (clean: bool, ghost blame: seq<string>)
      requires Valid() && forall m :: m in manifests ==> Leads(repo, target, m)
      modifies this
      ensures Valid() && old(localActions) <= localActions
      ensures forall m :: m in manifests ==> m in localActions
      ensures clean ==> AllSettled(repo, localActions, localActions - old(localActions))
      ensures !clean ==> Blames(repo, target, blame)
      decreases repo.files.Keys - localActions, 0, 0
    {
      clean, blame := true, [];
      for k := 0 to |manifests|
        invariant Valid() && old(localActions) <= localActions
        invariant forall m :: m in manifests[..k] ==> m in localActions
        invariant clean ==> AllSettled(repo, localActions, localActions - old(localActions))
        invariant !clean ==> Blames(repo, target, blame)
      {
        assert manifests[k] in manifests;
        ghost var before := localActions;
        var ok, chain := CheckOnce(manifests[k]);
        if ok {
          if clean {
            SettledJoins(repo, old(localActions), before, localActions);
          }
        } else {
          blame := BlameThroughManifest(repo, target, manifests[k], chain);
        }
        clean := clean && ok;
      }
    }

    /** A manifest already in the memo is not opened again. */
    method CheckOnce(m: Path) returns (clean: bool, ghost blame: seq<string>)
      requires Valid() && IsFile(repo, m)
      modifies this
      ensures Valid() && old(localActions) + {m} <= localActions
      ensures clean ==> AllSettled(repo, localActions, localActions - old(localActions))
      ensures !clean ==> ManifestBlames(repo, m, blame)
      decreases repo.files.Keys - localActions, 0, 0, 0
    {
      clean, blame := true, [];
      if m !in localActions {
        localActions, examined := localActions + {m}, examined + [m];
        clean, blame := CheckLocalActionManifest(m);
      }
    }

    /** One action of a manifest: it must be a scalar, valid, and fine when followed. */
    method CheckAction(action: Option<string>) returns (clean: bool, ghost blame: seq<string>)
      requires Valid()
      modifies this
      ensures Valid() && old(localActions) <= localActions
      ensures clean ==> action.Some? && Settled(repo, localActions, action.value)
      ensures clean ==> AllSettled(repo, localActions, localActions - old(localActions))
      ensures !clean && action.Some? ==> Blames(repo, action.value, blame)
      decreases repo.files.Keys - localActions, 1, 0
    {
      clean, blame := true, [];
      if action.None? {
        clean := false;
        return;
      }
      blame := [action.value];
      ValidTargetIff(action.value);
      if !ValidTarget(action.value) {
        clean := false;
      } else if Local(action.value) {
        clean, blame := CheckLocalAction(action.value);
      }
    }

    method CheckLocalActionManifest(path: Path) returns (clean: bool, ghost blame: seq<string>)
      requires Valid() && path in localActions && IsFile(repo, path)
      modifies this
      ensures Valid() && old(localActions) <= localActions
      ensures clean ==> ManifestSettled(repo, localActions, path)
      ensures clean ==> AllSettled(repo, localActions, localActions - old(localActions))
      ensures !clean ==> ManifestBlames(repo, path, blame)
      decreases repo.files.Keys - localActions, 1
    {
      clean, blame := true, [];
      var file := repo.files[path].manifest;
      if file.Unreadable? {
        clean := false;
        return;
      }
      var d := file.doc;
      var actions := ManifestActionNodes(d);
      for k := 0 to |actions|
        invariant Valid() && old(localActions) <= localActions
        invariant clean ==> AllSettled(repo, localActions, localActions - old(localActions))
        invariant clean ==> forall i :: 0 <= i < k ==> ActionSettled(repo, localActions, d, actions[i])
        invariant !clean ==> ManifestBlames(repo, path, blame)
      {
        ghost var before := localActions;
        var ok, chain := CheckAction(TargetOf(d, actions[k]));
        if ok {
          if clean {
            SettledJoins(repo, old(localActions), before, localActions);
          }
        } else {
          blame := chain;
          ActionBlamed(repo, path, d, actions[k], chain);
        }
        clean := clean && ok;
      }
      if clean {
        ActionsSettled(repo, localActions, path, d, actions);
      }
    }

    method CheckDocument(d: Doc) returns (clean: bool, ghost blame: seq<string>)
      requires Valid() && DocOk(d)
      modifies this
      ensures Valid() && old(localActions) <= localActions
      ensures clean ==> DocSettled(repo, localActions, d)
      ensures clean ==> AllSettled(repo, localActions, localActions - old(localActions))
      ensures !clean ==> DocBlames(repo, d, blame)
    {
      clean, blame := true, [];
      var actions := WorkflowActionNodes(d);
      for k := 0 to |actions|
        invariant Valid() && old(localActions) <= localActions
        invariant clean ==> AllSettled(repo, localActions, localActions - old(localActions))
        invariant clean ==> forall i :: 0 <= i < k ==> ActionSettled(repo, localActions, d, actions[i])
        invariant !clean ==> DocBlames(repo, d, blame)
      {
        ghost var before := localActions;
        var ok, chain := CheckAction(TargetOf(d, actions[k]));
        if ok {
          if clean {
            SettledJoins(repo, old(localActions), before, localActions);
          }
        } else {
          blame := chain;
          DocActionBlamed(repo, d, actions[k], chain);
        }
        clean := clean && ok;
      }
      if clean {
        DocActionsSettled(repo, localActions, d, actions);
      }
    }

    /** Every document of one workflow file; a decoding error after them is a finding too. */
    method CheckWorkflowFile(e: Entry) returns (clean: bool, ghost blame: seq<string>)
      requires Valid() && EntryDecoded(e)
      modifies this
      ensures Valid() && old(localActions) <= localActions
      ensures clean ==> FileSettled(repo, localActions, e)
      ensures clean ==> AllSettled(repo, localActions, localActions - old(localActions))
      ensures !clean ==> FileBlames(repo, e, blame)
    {
      clean, blame := true, [];
      if e.file.Unopenable? {
        clean := false;
        return;
      }
      var docs := e.file.docs;
      for k := 0 to |docs|
        invariant Valid() && old(localActions) <= localActions
        invariant clean ==> AllSettled(repo, localActions, localActions - old(localActions))
        invariant clean ==> forall i :: 0 <= i < k ==> DocSettled(repo, localActions, docs[i])
        invariant !clean ==> FileBlames(repo, e, blame)
      {
        ghost var before := localActions;
        var ok, chain := CheckDocument(docs[k]);
        if !ok {
          blame := chain;
          DocBlamesFile(repo, e, docs[k], chain);
        } else if clean {
          SettledJoins(repo, old(localActions), before, localActions);
          forall i | 0 <= i < k + 1 ensures DocSettled(repo, localActions, docs[i]) {
            DocStaysSettled(repo, before, localActions, docs, k, i);
          }
        }
        clean := clean && ok;
      }
      if e.file.broken {
        clean := false;
      } else if clean {
        DocsSettled(repo, localActions, e);
      }
    }
  }

  // ---------- the workflow directory ----------

  ghost predicate DocSettled(repo: Repo, seen: set<Path>, d: Doc)
    requires DocOk(d)
  {
    DocFine(d) && forall t :: DocNames(d, t) ==> Settled(repo, seen, t)
  }

  ghost predicate DocBlames(repo: Repo, d: Doc, chain: seq<string>)
    requires Decoded(repo) && DocOk(d)
  {
    !DocFine(d) || (chain != [] && DocNames(d, chain[0]) && Blames(repo, chain[0], chain))
  }

  ghost predicate FileFine(e: Entry)
    requires EntryDecoded(e)
  {
    e.file.Documents? && !e.file.broken && forall d :: d in e.file.docs ==> DocFine(d)
  }

  ghost predicate FileNames(e: Entry, target: string)
    requires EntryDecoded(e)
  {
    e.file.Documents? && exists d :: d in e.file.docs && DocNames(d, target)
  }

  ghost predicate FileSettled(repo: Repo, seen: set<Path>, e: Entry)
    requires EntryDecoded(e)
  {
    FileFine(e) && forall t :: FileNames(e, t) ==> Settled(repo, seen, t)
  }

  ghost predicate FileBlames(repo: Repo, e: Entry, chain: seq<string>)
    requires Decoded(repo) && EntryDecoded(e)
  {
    !FileFine(e) || (chain != [] && FileNames(e, chain[0]) && Blames(repo, chain[0], chain))
  }

  /** Every workflow file decodes and every `uses` in it is a scalar. */
  ghost predicate DirectoryFine(repo: Repo)
    requires Decoded(repo)
  {
    repo.entries.Some? && forall e :: e in repo.entries.value && Considered(e) ==> FileFine(e)
  }

  ghost predicate DirectoryNames(repo: Repo, target: string)
    requires Decoded(repo)
  {
    repo.entries.Some? && exists e :: e in repo.entries.value && Considered(e) && FileNames(e, target)
  }

  /** Some workflow reaches the target through some chain of local composite actions. */
  ghost predicate Reached(repo: Repo, target: string)
    requires Decoded(repo)
  {
    Chains.Reaches(Start(repo), Link(repo), target)
  }

  ghost function Start(repo: Repo): string -> bool
    requires Decoded(repo)
  {
    t => DirectoryNames(repo, t)
  }

  lemma DocActionBlamed(repo: Repo, d: Doc, a: Yaml.NodeId, chain: seq<string>)
    requires Decoded(repo) && DocOk(d) && a in d.graph && WorkflowUses(d, a)
    requires TargetOf(d, a).Some? ==> Blames(repo, TargetOf(d, a).value, chain)
    ensures DocBlames(repo, d, chain)
  {
    if TargetOf(d, a).Some? {
      assert Names(d, a, TargetOf(d, a).value);
    }
  }

  lemma DocActionsSettled(repo: Repo, seen: set<Path>, d: Doc, actions: seq<Yaml.NodeId>)
    requires DocOk(d) && Yaml.Closed(d.graph, actions) && forall a :: WorkflowUses(d, a) ==> a in actions
    requires forall i :: 0 <= i < |actions| ==> ActionSettled(repo, seen, d, actions[i])
    ensures DocSettled(repo, seen, d)
  {
    forall a | a in d.graph && WorkflowUses(d, a) ensures ActionSettled(repo, seen, d, a) {
      assert a in actions;
    }
    forall t | DocNames(d, t) ensures Settled(repo, seen, t) {
      var a :| a in d.graph && WorkflowUses(d, a) && Names(d, a, t);
      assert ActionSettled(repo, seen, d, a);
    }
  }

  lemma DocSettledGrows(repo: Repo, seen: set<Path>, more: set<Path>, d: Doc)
    requires DocOk(d) && seen <= more && DocSettled(repo, seen, d)
    ensures DocSettled(repo, more, d)
  {
  }

  lemma DocStaysSettled(repo: Repo, before: set<Path>, after: set<Path>, docs: seq<Doc>, k: nat, i: nat)
    requires i <= k < |docs| && before <= after && DocOk(docs[i])
    requires i < k ==> DocSettled(repo, before, docs[i])
    requires i == k ==> DocSettled(repo, after, docs[i])
    ensures DocSettled(repo, after, docs[i])
  {
    if i < k { DocSettledGrows(repo, before, after, docs[i]); }
  }

  lemma FileSettledGrows(repo: Repo, seen: set<Path>, more: set<Path>, e: Entry)
    requires EntryDecoded(e) && seen <= more && FileSettled(repo, seen, e)
    ensures FileSettled(repo, more, e)
  {
  }

  lemma DocsSettled(repo: Repo, seen: set<Path>, e: Entry)
    requires EntryDecoded(e) && e.file.Documents? && !e.file.broken
    requires forall i :: 0 <= i < |e.file.docs| ==> DocSettled(repo, seen, e.file.docs[i])
    ensures FileSettled(repo, seen, e)
  {
    forall t | FileNames(e, t) ensures Settled(repo, seen, t) {
      var d :| d in e.file.docs && DocNames(d, t);
      assert DocSettled(repo, seen, d);
    }
  }

  lemma DocBlamesFile(repo: Repo, e: Entry, d: Doc, chain: seq<string>)
    requires Decoded(repo) && EntryDecoded(e) && e.file.Documents? && d in e.file.docs && DocBlames(repo, d, chain)
    ensures FileBlames(repo, e, chain)
  {
  }

  /** With every considered file settled and no manifest left open, the whole directory is fine. */
  lemma SettledDirectory(repo: Repo, seen: set<Path>)
    requires Decoded(repo) && repo.entries.Some? && AllSettled(repo, seen, seen)
    requires forall e :: e in repo.entries.value && Considered(e) ==> FileSettled(repo, seen, e)
    ensures DirectoryFine(repo) && forall t :: Reached(repo, t) ==> Fine(repo, t)
  {
    forall e | e in repo.entries.value && Considered(e) ensures FileFine(e) {
      assert FileSettled(repo, seen, e);
    }
    forall t | DirectoryNames(repo, t) ensures Settled(repo, seen, t) {
      FirstSettled(repo, seen, t);
    }
    forall t, u | Settled(repo, seen, t) && Linked(repo, t, u) ensures Settled(repo, seen, u) {
      SettledNext(repo, seen, t, u);
    }
    Chains.ReachesInduction(Start(repo), Link(repo), t => Settled(repo, seen, t));
    forall t | Reached(repo, t) ensures Fine(repo, t) {
      SettledIsFine(repo, seen, t);
    }
  }

  lemma FirstSettled(repo: Repo, seen: set<Path>, t: string)
    requires Decoded(repo) && DirectoryNames(repo, t)
    requires forall e :: e in repo.entries.value && Considered(e) ==> FileSettled(repo, seen, e)
    ensures Settled(repo, seen, t)
  {
    var e :| e in repo.entries.value && Considered(e) && FileNames(e, t);
    assert FileSettled(repo, seen, e);
  }

  lemma BlamedDirectory(repo: Repo, e: Entry, chain: seq<string>)
    requires Decoded(repo) && repo.entries.Some? && e in repo.entries.value && Considered(e)
    requires FileBlames(repo, e, chain)
    ensures !DirectoryFine(repo) || exists t :: Reached(repo, t) && !Fine(repo, t)
  {
    if FileFine(e) {
      assert Start(repo)(chain[0]);
      assert Reached(repo, chain[|chain| - 1]);
    }
  }

  /** The whole check. It reports no finding exactly when every workflow decodes and everything any
      workflow reaches is pinned, stays inside the repository and leads to readable manifests. */
  method CheckWorkflowDir(repo: Repo) returns (clean: bool)
    requires Decoded(repo)
    ensures clean <==> DirectoryFine(repo) && forall t :: Reached(repo, t) ==> Fine(repo, t)
  {
    if repo.entries.None? {
      return false;
    }
    var checker := new WorkflowChecker(repo);
    var entries := repo.entries.value;
    clean := true;
    for k := 0 to |entries|
      invariant checker.Valid() && checker.repo == repo && fresh(checker)
      invariant clean ==> AllSettled(repo, checker.localActions, checker.localActions)
      invariant clean ==> forall i :: 0 <= i < k && Considered(entries[i]) ==>
                FileSettled(repo, checker.localActions, entries[i])
      invariant !clean ==> !DirectoryFine(repo) || exists t :: Reached(repo, t) && !Fine(repo, t)
    {
      if Considered(entries[k]) {
        ghost var before := checker.localActions;
        var ok, chain := checker.CheckWorkflowFile(entries[k]);
        if !ok {
          BlamedDirectory(repo, entries[k], chain);
        } else if clean {
          EarlierStaySettled(repo, before, checker.localActions, entries, k);
        }
        clean := clean && ok;
      }
    }
    if clean {
      SettledDirectory(repo, checker.localActions);
    }
  }

  lemma EarlierStaySettled(repo: Repo, before: set<Path>, after: set<Path>, entries: seq<Entry>, k: nat)
    requires Decoded(repo) && repo.entries == Some(entries) && before <= after && k < |entries|
    requires AllSettled(repo, before, before) && AllSettled(repo, after, after - before)
    requires forall i :: 0 <= i < k && Considered(entries[i]) ==> FileSettled(repo, before, entries[i])
    ensures AllSettled(repo, after, after)
    ensures forall i :: 0 <= i < k && Considered(entries[i]) ==> FileSettled(repo, after, entries[i])
  {
    SettledGrows(repo, before, after, before);
    forall i | 0 <= i < k && Considered(entries[i]) ensures FileSettled(repo, after, entries[i]) {
      FileSettledGrows(repo, before, after, entries[i]);
    }
  }

  /** The action is a scalar whose target is settled. */
  ghost predicate ActionSettled(repo: Repo, seen: set<Path>, d: Doc, a: Yaml.NodeId)
    requires DocOk(d) && a in d.graph
  {
    TargetOf(d, a).Some? && Settled(repo, seen, TargetOf(d, a).value)
  }

  lemma ActionBlamed(repo: Repo, m: Path, d: Doc, a: Yaml.NodeId, chain: seq<string>)
    requires Decoded(repo) && IsFile(repo, m) && repo.files[m].manifest == Manifest(d)
    requires a in d.graph && ManifestUses(d, a)
    requires TargetOf(d, a).Some? ==> Blames(repo, TargetOf(d, a).value, chain)
    ensures ManifestBlames(repo, m, chain)
  {
    if TargetOf(d, a).Some? {
      assert Names(d, a, TargetOf(d, a).value);
    }
  }

  lemma ActionsSettled(repo: Repo, seen: set<Path>, m: Path, d: Doc, actions: seq<Yaml.NodeId>)
    requires Decoded(repo) && IsFile(repo, m) && repo.files[m].manifest == Manifest(d)
    requires Yaml.Closed(d.graph, actions) && forall a :: ManifestUses(d, a) ==> a in actions
    requires forall i :: 0 <= i < |actions| ==> ActionSettled(repo, seen, d, actions[i])
    ensures ManifestSettled(repo, seen, m)
  {
    forall a | a in d.graph && ManifestUses(d, a) ensures ActionSettled(repo, seen, d, a) {
      assert a in actions;
    }
    forall t | ManifestNames(repo, m, t) ensures Settled(repo, seen, t) {
      var a :| a in d.graph && ManifestUses(d, a) && Names(d, a, t);
      assert ActionSettled(repo, seen, d, a);
    }
  }
}
