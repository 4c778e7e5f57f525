/** The two-level lock protocol of the image cache (internal/applevmhelper/runtime_darwin_arm64.go):
    creators, clone-replacers and cleaners share one directory lock and one advisory lock per
    staging file, and any of them may crash between any two system calls. */
module StagingLocks {
  import opened Wrappers

  type Pid = nat
  type Name = string
  type Inode = nat

  /** Where a process is between two system calls. */
  datatype Proc =
    | Idle
    // createCacheTemp
    | CLocked
    | CCreated(name: Name, ino: Inode)
    | COwned(name: Name, ino: Inode)
    | CClosed(name: Name)
    // the writer: holds the lock of its own file and nothing else
    | Owner(name: Name, ino: Inode)
    // after the rename: the lock is still held and the removal of the old name still owed
    | Renamed(name: Name, ino: Inode)
    | Discarded(ino: Inode)
    | Closing(name: Name)
    // replaceCacheTempWithClone
    | RLocked(name: Name, ino: Inode)
    | RClosed(name: Name)
    | RRemoved(name: Name)
    | RCloned(name: Name, ino: Inode)
    | ROpened(name: Name, ino: Inode)
    | RRelocked(name: Name, ino: Inode)
    // cleanupAbandonedCacheTemps; `skipped` maps a name to the time its lock was found taken
    | KLocked
    | KScan(since: nat, todo: set<Name>, skipped: map<Name, nat>)
    | KOpened(since: nat, todo: set<Name>, skipped: map<Name, nat>, name: Name, ino: Inode)
    | KHeld(since: nat, todo: set<Name>, skipped: map<Name, nat>, name: Name, ino: Inode)
    | KRemoved(since: nat, todo: set<Name>, skipped: map<Name, nat>, ino: Inode)
    | KDone(since: nat, skipped: map<Name, nat>)

  /** One system call, with the choice the environment makes for it. */
  datatype Action =
    | LockDirToCreate
    | CreateTemp(name: Name)
    | LockFile
    | AbortCreate
    | RemoveAborted
    | UnlockDir
    | LockDirToReplace
    | CloseFile
    | RemovePlaceholder
    | Clone
    | OpenReplacement
    | AbortReplace
    | Rename
    | RemoveOwn
    | LockDirToClean
    | ReadDir
    | OpenEntry(name: Name)
    | TryLockEntry
    | RemoveEntry
    | UnlockEntry
    | FinishScan
    | Crash

  /** `dir` holds the regular files whose names match the staging pattern. */
  datatype State = State(
    time: nat,
    dir: map<Name, Inode>,
    nextInode: Inode,
    locks: map<Inode, Pid>,
    dirLock: Option<Pid>,
    procs: map<Pid, Proc>)

  predicate HoldsDir(c: Proc)
  {
    c.CLocked? || c.CCreated? || c.COwned? || c.CClosed? || c.RLocked? || c.RClosed? || c.RRemoved? || c.RCloned?
    || c.ROpened? || c.RRelocked? || c.KLocked? || c.KScan? || c.KOpened? || c.KHeld? || c.KRemoved? || c.KDone?
  }

  function FileLock(c: Proc): Option<Inode>
  {
    if c.COwned? || c.Owner? || c.Renamed? || c.Discarded? || c.RLocked? || c.RRelocked? || c.KHeld? || c.KRemoved?
    then Some(c.ino) else None
  }

  /** The staging file a live writer means to keep. */
  function Writes(c: Proc): Option<Inode>
  {
    if c.CCreated? || c.COwned? || c.Owner? || c.RLocked? || c.RCloned? || c.ROpened? || c.RRelocked?
    then Some(c.ino) else None
  }

  predicate Cleaning(c: Proc) { c.KScan? || c.KOpened? || c.KHeld? || c.KRemoved? || c.KDone? }

  function ProcOf(s: State, p: Pid): Proc { if p in s.procs then s.procs[p] else Idle }

  function Set(s: State, p: Pid, c: Proc): State { s.(procs := s.procs[p := c]) }

  function Without(locks: map<Inode, Pid>, ino: Inode): map<Inode, Pid> { locks - {ino} }

  /** A new file under the name. */
  function WithFile(s: State, name: Name): State
  {
    s.(dir := s.dir[name := s.nextInode], nextInode := s.nextInode + 1)
  }

  function Released(s: State, c: Proc): State
  {
    s.(locks := if FileLock(c).Some? then Without(s.locks, FileLock(c).value) else s.locks,
       dirLock := if HoldsDir(c) then None else s.dirLock)
  }

  predicate CreateCall(a: Action)
  {
    a.LockDirToCreate? || a.CreateTemp? || a.LockFile? || a.AbortCreate? || a.RemoveAborted? || a.UnlockDir?
  }

  predicate ReplaceCall(a: Action)
  {
    a.LockDirToReplace? || a.CloseFile? || a.RemovePlaceholder? || a.Clone? || a.OpenReplacement? || a.AbortReplace?
  }

  predicate CleanerCall(a: Action)
  {
    a.ReadDir? || a.OpenEntry? || a.TryLockEntry? || a.RemoveEntry? || a.UnlockEntry? || a.FinishScan?
  }

  function CreateEffect(s: State, p: Pid, a: Action): State
    requires CreateCall(a)
  {
    var c := ProcOf(s, p);
    match a
    case LockDirToCreate => if c.Idle? && s.dirLock.None? then Set(s.(dirLock := Some(p)), p, CLocked) else s
    case CreateTemp(name) =>
      if c.CLocked? && name !in s.dir
      then Set(WithFile(s, name), p, CCreated(name, s.nextInode)) else s
    case LockFile =>
      if c.CCreated? && c.ino !in s.locks then Set(s.(locks := s.locks[c.ino := p]), p, COwned(c.name, c.ino))
      else if c.ROpened? && c.ino !in s.locks then Set(s.(locks := s.locks[c.ino := p]), p, RRelocked(c.name, c.ino))
      else s
    case AbortCreate =>
      if c.CCreated? || c.COwned? then Set(Released(s, c).(dirLock := s.dirLock), p, CClosed(c.name)) else s
    case RemoveAborted => if c.CClosed? then Set(s.(dir := s.dir - {c.name}), p, CLocked) else s
    case UnlockDir =>
      if c.CLocked? || c.KLocked? || c.KDone? then Set(s.(dirLock := None), p, Idle)
      else if c.COwned? || c.RRelocked? then Set(s.(dirLock := None), p, Owner(c.name, c.ino))
      else s
  }

  /** Replacing the placeholder by a clone. */
  function ReplaceEffect(s: State, p: Pid, a: Action): State
    requires ReplaceCall(a)
  {
    var c := ProcOf(s, p);
    match a
    case LockDirToReplace =>
      if c.Owner? && s.dirLock.None? then Set(s.(dirLock := Some(p)), p, RLocked(c.name, c.ino)) else s
    case CloseFile =>
      if c.RLocked? then Set(s.(locks := Without(s.locks, c.ino)), p, RClosed(c.name))
      else if c.Owner? then Set(s.(locks := Without(s.locks, c.ino)), p, Closing(c.name))
      else if c.Renamed? then Set(s.(locks := Without(s.locks, c.ino)), p, Closing(c.name))
      else if c.Discarded? then Set(s.(locks := Without(s.locks, c.ino)), p, Idle)
      else s
    case RemovePlaceholder => if c.RClosed? then Set(s.(dir := s.dir - {c.name}), p, RRemoved(c.name)) else s
    case Clone =>
      if c.RRemoved? && c.name !in s.dir
      then Set(WithFile(s, c.name), p, RCloned(c.name, s.nextInode)) else s
    case OpenReplacement =>
      if c.RCloned? && c.name in s.dir then Set(s, p, ROpened(c.name, s.dir[c.name]))
      else if c.RRemoved? && c.name !in s.dir
      then Set(WithFile(s, c.name), p, ROpened(c.name, s.nextInode))
      else s
    case AbortReplace =>
      if c.RLocked? || c.RClosed? || c.RRemoved? || c.RCloned? || c.ROpened? || c.RRelocked?
      then Set(Released(s, c), p, Closing(c.name)) else s
  }

  function CleanEffect(s: State, p: Pid, a: Action): State
    requires CleanerCall(a)
  {
    var c := ProcOf(s, p);
    match a
    case ReadDir => if c.KLocked? then Set(s, p, KScan(s.time, s.dir.Keys, map[])) else s
    case OpenEntry(name) =>
      if c.KScan? && name in c.todo then
        (if name in s.dir then Set(s, p, KOpened(c.since, c.todo - {name}, c.skipped, name, s.dir[name]))
         else Set(s, p, KScan(c.since, c.todo - {name}, c.skipped)))
      else s
    case TryLockEntry =>
      if c.KOpened? then
        (if c.ino in s.locks then Set(s, p, KScan(c.since, c.todo, c.skipped[c.name := s.time]))
         else Set(s.(locks := s.locks[c.ino := p]), p, KHeld(c.since, c.todo, c.skipped, c.name, c.ino)))
      else s
    case RemoveEntry =>
      if c.KHeld? then Set(s.(dir := s.dir - {c.name}), p, KRemoved(c.since, c.todo, c.skipped, c.ino)) else s
    case UnlockEntry =>
      if c.KRemoved? then Set(s.(locks := Without(s.locks, c.ino)), p, KScan(c.since, c.todo, c.skipped)) else s
    case FinishScan => if c.KScan? && c.todo == {} then Set(s, p, KDone(c.since, c.skipped)) else s
  }

  /** Finishing, and a crash, which closes every descriptor. */
  function FinishEffect(s: State, p: Pid, a: Action): State
    requires !CreateCall(a) && !ReplaceCall(a) && !CleanerCall(a)
  {
    var c := ProcOf(s, p);
    match a
    case Rename => if c.Owner? then Set(s.(dir := s.dir - {c.name}), p, Renamed(c.name, c.ino)) else s
    case RemoveOwn =>
      if c.Closing? then Set(s.(dir := s.dir - {c.name}), p, Idle)
      else if c.Owner? || c.Renamed? then Set(s.(dir := s.dir - {c.name}), p, Discarded(c.ino))
      else s
    case LockDirToClean => if c.Idle? && s.dirLock.None? then Set(s.(dirLock := Some(p)), p, KLocked) else s
    case Crash => Set(Released(s, c), p, Idle)
  }

  /** The effect of one call; a call that is not enabled changes nothing but the clock. */
  function Effect(s: State, p: Pid, a: Action): State
  {
    if CreateCall(a) then CreateEffect(s, p, a)
    else if ReplaceCall(a) then ReplaceEffect(s, p, a)
    else if CleanerCall(a) then CleanEffect(s, p, a)
    else FinishEffect(s, p, a)
  }

  function Step(s: State, p: Pid, a: Action): State
  {
    Effect(s, p, a).(time := s.time + 1)
  }

  // ---------- the invariant ----------

  ghost predicate LocksAgree(s: State)
  {
    && (forall p: Pid :: s.dirLock == Some(p) <==> HoldsDir(ProcOf(s, p)))
    && (forall p: Pid, ino: Inode :: FileLock(ProcOf(s, p)) == Some(ino) <==> ino in s.locks && s.locks[ino] == p)
  }

  ghost predicate InodesKnown(s: State)
  {
    && (forall n :: n in s.dir ==> s.dir[n] < s.nextInode)
    && (forall ino :: ino in s.locks ==> ino < s.nextInode)
    && (forall p: Pid :: Writes(ProcOf(s, p)).Some? ==> Writes(ProcOf(s, p)).value < s.nextInode)
    && (forall p: Pid :: ProcOf(s, p).KOpened? ==> ProcOf(s, p).ino < s.nextInode)
  }

  /** A freshly made file is nobody's but its maker's. */
  ghost predicate FreshUnlocked(s: State, c: Proc)
  {
    && (c.CCreated? || c.ROpened? || c.RCloned? ==> c.ino !in s.locks)
    && (c.RCloned? && c.name in s.dir ==> s.dir[c.name] == c.ino)
  }

  /** A cleaner's path still names the file it opened, or nothing; every other file of the
      directory is still to do or was found locked. */
  ghost predicate CleanerSound(s: State, c: Proc)
  {
    && (c.KOpened? || c.KHeld? ==> c.name in s.dir ==> s.dir[c.name] == c.ino)
    && (c.KScan? || c.KRemoved? ==> forall n :: n in s.dir ==> n in c.todo || n in c.skipped)
    && (c.KOpened? || c.KHeld? ==> forall n :: n in s.dir ==> n in c.todo || n in c.skipped || n == c.name)
    && (c.KDone? ==> forall n :: n in s.dir ==> n in c.skipped)
  }

  ghost predicate Inv(s: State)
  {
    && LocksAgree(s) && InodesKnown(s)
    && (forall p: Pid :: FreshUnlocked(s, ProcOf(s, p)))
    && (forall p: Pid :: CleanerSound(s, ProcOf(s, p)))
  }

  lemma EmptyCacheInv(dir: map<Name, Inode>, nextInode: Inode)
    requires forall n :: n in dir ==> dir[n] < nextInode
    ensures Inv(State(0, dir, nextInode, map[], None, map[]))
  {
  }

  lemma CreateKeepsOthers(s: State, p: Pid, a: Action, q: Pid)
    requires CreateCall(a)
    requires q != p
    ensures ProcOf(Step(s, p, a), q) == ProcOf(s, q)
  {
  }

  lemma ReplaceKeepsOthers(s: State, p: Pid, a: Action, q: Pid)
    requires ReplaceCall(a)
    requires q != p
    ensures ProcOf(Step(s, p, a), q) == ProcOf(s, q)
  {
  }

  lemma CleanerKeepsOthers(s: State, p: Pid, a: Action, q: Pid)
    requires CleanerCall(a)
    requires q != p
    ensures ProcOf(Step(s, p, a), q) == ProcOf(s, q)
  {
  }

  lemma FinishKeepsOthers(s: State, p: Pid, a: Action, q: Pid)
    requires !CreateCall(a) && !ReplaceCall(a) && !CleanerCall(a)
    requires q != p
    ensures ProcOf(Step(s, p, a), q) == ProcOf(s, q)
  {
  }

  lemma OthersKeep(s: State, p: Pid, a: Action, q: Pid)
    requires q != p
    ensures ProcOf(Step(s, p, a), q) == ProcOf(s, q)
  {
    if CreateCall(a) { CreateKeepsOthers(s, p, a, q); }
    else if ReplaceCall(a) { ReplaceKeepsOthers(s, p, a, q); }
    else if CleanerCall(a) { CleanerKeepsOthers(s, p, a, q); }
    else { FinishKeepsOthers(s, p, a, q); }
  }

  /** What a process holds alone, before and after its own step. */
  ghost predicate OwnLocksAgree(s: State, p: Pid, c: Proc)
  {
    && (s.dirLock == Some(p) <==> HoldsDir(c))
    && (FileLock(c).Some? ==> FileLock(c).value in s.locks && s.locks[FileLock(c).value] == p)
  }

  function LocksAfter(locks: map<Inode, Pid>, p: Pid, c: Proc, c': Proc): map<Inode, Pid>
  {
    if FileLock(c') == FileLock(c) then locks
    else
      var dropped := if FileLock(c).Some? then Without(locks, FileLock(c).value) else locks;
      if FileLock(c').Some? then dropped[FileLock(c').value := p] else dropped
  }

  ghost predicate DirLockStep(s: State, s': State, p: Pid)
  {
    var c, c' := ProcOf(s, p), ProcOf(s', p);
    && s'.dirLock == (if HoldsDir(c') then Some(p) else if HoldsDir(c) then None else s.dirLock)
    && (HoldsDir(c') && !HoldsDir(c) ==> s.dirLock.None?)
  }

  ghost predicate FileLockStep(s: State, s': State, p: Pid)
  {
    var c, c' := ProcOf(s, p), ProcOf(s', p);
    && s'.locks == LocksAfter(s.locks, p, c, c')
    && (FileLock(c').Some? && FileLock(c') != FileLock(c) ==> FileLock(c').value !in s.locks)
  }

  /** Every step, as far as locks go, is: give up what is no longer held, take what was free. */
  lemma CreateOnDirLock(s: State, p: Pid, a: Action)
    requires CreateCall(a)
    requires OwnLocksAgree(s, p, ProcOf(s, p))
    ensures DirLockStep(s, Step(s, p, a), p)
  {
  }

  lemma ReplaceOnDirLock(s: State, p: Pid, a: Action)
    requires ReplaceCall(a)
    requires OwnLocksAgree(s, p, ProcOf(s, p))
    ensures DirLockStep(s, Step(s, p, a), p)
  {
  }

  lemma CleanerOnDirLock(s: State, p: Pid, a: Action)
    requires CleanerCall(a)
    requires OwnLocksAgree(s, p, ProcOf(s, p))
    ensures DirLockStep(s, Step(s, p, a), p)
  {
  }

  lemma FinishOnDirLock(s: State, p: Pid, a: Action)
    requires !CreateCall(a) && !ReplaceCall(a) && !CleanerCall(a)
    requires OwnLocksAgree(s, p, ProcOf(s, p))
    ensures DirLockStep(s, Step(s, p, a), p)
  {
  }

  lemma StepOnDirLock(s: State, p: Pid, a: Action)
    requires OwnLocksAgree(s, p, ProcOf(s, p))
    ensures DirLockStep(s, Step(s, p, a), p)
  {
    if CreateCall(a) { CreateOnDirLock(s, p, a); }
    else if ReplaceCall(a) { ReplaceOnDirLock(s, p, a); }
    else if CleanerCall(a) { CleanerOnDirLock(s, p, a); }
    else { FinishOnDirLock(s, p, a); }
  }

  /** The calls that take or give up a file lock. */
  predicate TouchesFileLock(a: Action)
  {
    a.LockFile? || a.AbortCreate? || a.CloseFile? || a.AbortReplace? || a.TryLockEntry? || a.UnlockEntry? || a.Crash?
  }

  lemma CreateOffFileLocks(s: State, p: Pid, a: Action)
    requires CreateCall(a)
    requires !TouchesFileLock(a)
    ensures Step(s, p, a).locks == s.locks && FileLock(ProcOf(Step(s, p, a), p)) == FileLock(ProcOf(s, p))
  {
  }

  lemma ReplaceOffFileLocks(s: State, p: Pid, a: Action)
    requires ReplaceCall(a)
    requires !TouchesFileLock(a)
    ensures Step(s, p, a).locks == s.locks && FileLock(ProcOf(Step(s, p, a), p)) == FileLock(ProcOf(s, p))
  {
  }

  lemma CleanerOffFileLocks(s: State, p: Pid, a: Action)
    requires CleanerCall(a)
    requires !TouchesFileLock(a)
    ensures Step(s, p, a).locks == s.locks && FileLock(ProcOf(Step(s, p, a), p)) == FileLock(ProcOf(s, p))
  {
  }

  lemma FinishOffFileLocks(s: State, p: Pid, a: Action)
    requires !CreateCall(a) && !ReplaceCall(a) && !CleanerCall(a)
    requires !TouchesFileLock(a)
    ensures Step(s, p, a).locks == s.locks && FileLock(ProcOf(Step(s, p, a), p)) == FileLock(ProcOf(s, p))
  {
  }

  lemma StepOffFileLocks(s: State, p: Pid, a: Action)
    requires !TouchesFileLock(a)
    ensures Step(s, p, a).locks == s.locks && FileLock(ProcOf(Step(s, p, a), p)) == FileLock(ProcOf(s, p))
  {
    if CreateCall(a) { CreateOffFileLocks(s, p, a); }
    else if ReplaceCall(a) { ReplaceOffFileLocks(s, p, a); }
    else if CleanerCall(a) { CleanerOffFileLocks(s, p, a); }
    else { FinishOffFileLocks(s, p, a); }
  }

  lemma CreateOnFileLocks(s: State, p: Pid, a: Action)
    requires CreateCall(a)
    requires TouchesFileLock(a)
    ensures FileLockStep(s, Step(s, p, a), p)
  {
  }

  lemma ReplaceOnFileLocks(s: State, p: Pid, a: Action)
    requires ReplaceCall(a)
    requires TouchesFileLock(a)
    ensures FileLockStep(s, Step(s, p, a), p)
  {
  }

  lemma CleanerOnFileLocks(s: State, p: Pid, a: Action)
    requires CleanerCall(a)
    requires TouchesFileLock(a)
    ensures FileLockStep(s, Step(s, p, a), p)
  {
  }

  lemma FinishOnFileLocks(s: State, p: Pid, a: Action)
    requires !CreateCall(a) && !ReplaceCall(a) && !CleanerCall(a)
    requires TouchesFileLock(a)
    ensures FileLockStep(s, Step(s, p, a), p)
  {
  }

  lemma StepOnFileLocks(s: State, p: Pid, a: Action)
    requires TouchesFileLock(a)
    ensures FileLockStep(s, Step(s, p, a), p)
  {
    if CreateCall(a) { CreateOnFileLocks(s, p, a); }
    else if ReplaceCall(a) { ReplaceOnFileLocks(s, p, a); }
    else if CleanerCall(a) { CleanerOnFileLocks(s, p, a); }
    else { FinishOnFileLocks(s, p, a); }
  }

  lemma StepKeepsLocks(s: State, p: Pid, a: Action)
    requires LocksAgree(s)
    ensures LocksAgree(Step(s, p, a))
  {
    var c, s' := ProcOf(s, p), Step(s, p, a);
    assert OwnLocksAgree(s, p, c);
    StepOnDirLock(s, p, a);
    if TouchesFileLock(a) { StepOnFileLocks(s, p, a); } else { StepOffFileLocks(s, p, a); }
    forall q: Pid | q != p ensures ProcOf(s', q) == ProcOf(s, q) { OthersKeep(s, p, a, q); }
    LocksAgreeAfter(s, s', p);
  }

  lemma LocksAgreeAfter(s: State, s': State, p: Pid)
    requires LocksAgree(s)
    requires forall q: Pid :: q != p ==> ProcOf(s', q) == ProcOf(s, q)
    requires DirLockStep(s, s', p) && FileLockStep(s, s', p)
    ensures LocksAgree(s')
  {
    var c := ProcOf(s, p);
    assert s.dirLock == Some(p) <==> HoldsDir(c);
    forall q: Pid ensures s'.dirLock == Some(q) <==> HoldsDir(ProcOf(s', q)) {
      assert s.dirLock == Some(q) <==> HoldsDir(ProcOf(s, q));
    }
    forall q: Pid, ino: Inode ensures FileLock(ProcOf(s', q)) == Some(ino) <==> ino in s'.locks && s'.locks[ino] == q {
      assert FileLock(ProcOf(s, q)) == Some(ino) <==> ino in s.locks && s.locks[ino] == q;
      assert FileLock(c) == Some(ino) <==> ino in s.locks && s.locks[ino] == p;
    }
  }

  /** Every step, as far as the directory goes, only removes names, unless it makes one new file
      while holding the directory lock for writing. */
  ghost predicate OnlyRemoves(s: State, s': State)
  {
    && s'.nextInode == s.nextInode
    && forall n :: n in s'.dir ==> n in s.dir && s'.dir[n] == s.dir[n]
  }

  ghost predicate MakesFile(s: State, s': State, c: Proc, c': Proc)
  {
    && HoldsDir(c) && !Cleaning(c) && (c'.CCreated? || c'.RCloned? || c'.ROpened?)
    && c'.ino == s.nextInode && s'.nextInode == s.nextInode + 1
    && s'.dir == s.dir[c'.name := s.nextInode]
  }

  lemma CreateOnDir(s: State, p: Pid, a: Action)
    requires CreateCall(a)
    ensures OnlyRemoves(s, Step(s, p, a)) || MakesFile(s, Step(s, p, a), ProcOf(s, p), ProcOf(Step(s, p, a), p))
  {
  }

  lemma ReplaceOnDir(s: State, p: Pid, a: Action)
    requires ReplaceCall(a)
    ensures OnlyRemoves(s, Step(s, p, a)) || MakesFile(s, Step(s, p, a), ProcOf(s, p), ProcOf(Step(s, p, a), p))
  {
  }

  lemma CleanerOnDir(s: State, p: Pid, a: Action)
    requires CleanerCall(a)
    ensures OnlyRemoves(s, Step(s, p, a)) || MakesFile(s, Step(s, p, a), ProcOf(s, p), ProcOf(Step(s, p, a), p))
  {
  }

  lemma FinishOnDir(s: State, p: Pid, a: Action)
    requires !CreateCall(a) && !ReplaceCall(a) && !CleanerCall(a)
    ensures OnlyRemoves(s, Step(s, p, a)) || MakesFile(s, Step(s, p, a), ProcOf(s, p), ProcOf(Step(s, p, a), p))
  {
  }

  lemma StepOnDir(s: State, p: Pid, a: Action)
    ensures OnlyRemoves(s, Step(s, p, a)) || MakesFile(s, Step(s, p, a), ProcOf(s, p), ProcOf(Step(s, p, a), p))
  {
    if CreateCall(a) { CreateOnDir(s, p, a); }
    else if ReplaceCall(a) { ReplaceOnDir(s, p, a); }
    else if CleanerCall(a) { CleanerOnDir(s, p, a); }
    else { FinishOnDir(s, p, a); }
  }

  /** Without the directory lock a process can neither lock a file nor make one. */
  lemma WithoutDirLock(s: State, p: Pid, a: Action)
    requires !HoldsDir(ProcOf(s, p))
    ensures OnlyRemoves(s, Step(s, p, a))
    ensures forall ino :: ino in Step(s, p, a).locks ==> ino in s.locks
  {
  }

  lemma OneDirLockHolder(s: State, p: Pid, q: Pid)
    requires LocksAgree(s) && HoldsDir(ProcOf(s, p)) && HoldsDir(ProcOf(s, q))
    ensures p == q
  {
    assert s.dirLock == Some(p) && s.dirLock == Some(q);
  }

  ghost predicate OwnInodesKnown(c: Proc, next: Inode)
  {
    && (Writes(c).Some? ==> Writes(c).value < next)
    && (c.KOpened? ==> c.ino < next)
    && (FileLock(c).Some? ==> FileLock(c).value < next)
  }

  lemma CreateOnInodes(s: State, p: Pid, a: Action)
    requires CreateCall(a)
    requires OwnInodesKnown(ProcOf(s, p), s.nextInode)
    requires forall n :: n in s.dir ==> s.dir[n] < s.nextInode
    ensures Step(s, p, a).nextInode >= s.nextInode
    ensures OwnInodesKnown(ProcOf(Step(s, p, a), p), Step(s, p, a).nextInode)
  {
  }

  lemma ReplaceOnInodes(s: State, p: Pid, a: Action)
    requires ReplaceCall(a)
    requires OwnInodesKnown(ProcOf(s, p), s.nextInode)
    requires forall n :: n in s.dir ==> s.dir[n] < s.nextInode
    ensures Step(s, p, a).nextInode >= s.nextInode
    ensures OwnInodesKnown(ProcOf(Step(s, p, a), p), Step(s, p, a).nextInode)
  {
  }

  lemma CleanerOnInodes(s: State, p: Pid, a: Action)
    requires CleanerCall(a)
    requires OwnInodesKnown(ProcOf(s, p), s.nextInode)
    requires forall n :: n in s.dir ==> s.dir[n] < s.nextInode
    ensures Step(s, p, a).nextInode >= s.nextInode
    ensures OwnInodesKnown(ProcOf(Step(s, p, a), p), Step(s, p, a).nextInode)
  {
  }

  lemma FinishOnInodes(s: State, p: Pid, a: Action)
    requires !CreateCall(a) && !ReplaceCall(a) && !CleanerCall(a)
    requires OwnInodesKnown(ProcOf(s, p), s.nextInode)
    requires forall n :: n in s.dir ==> s.dir[n] < s.nextInode
    ensures Step(s, p, a).nextInode >= s.nextInode
    ensures OwnInodesKnown(ProcOf(Step(s, p, a), p), Step(s, p, a).nextInode)
  {
  }

  lemma StepOnInodes(s: State, p: Pid, a: Action)
    requires OwnInodesKnown(ProcOf(s, p), s.nextInode)
    requires forall n :: n in s.dir ==> s.dir[n] < s.nextInode
    ensures Step(s, p, a).nextInode >= s.nextInode
    ensures OwnInodesKnown(ProcOf(Step(s, p, a), p), Step(s, p, a).nextInode)
  {
    if CreateCall(a) { CreateOnInodes(s, p, a); }
    else if ReplaceCall(a) { ReplaceOnInodes(s, p, a); }
    else if CleanerCall(a) { CleanerOnInodes(s, p, a); }
    else { FinishOnInodes(s, p, a); }
  }

  lemma InodesKnownAfter(s: State, s': State, p: Pid)
    requires InodesKnown(s) && LocksAgree(s) && LocksAgree(s')
    requires forall q: Pid :: q != p ==> ProcOf(s', q) == ProcOf(s, q)
    requires OwnInodesKnown(ProcOf(s', p), s'.nextInode) && s'.nextInode >= s.nextInode
    requires forall n :: n in s'.dir ==> s'.dir[n] < s'.nextInode
    ensures InodesKnown(s')
  {
    forall ino | ino in s'.locks ensures ino < s'.nextInode {
      var q := s'.locks[ino];
      HolderOf(s', q, ino);
      if q != p { HolderOf(s, q, ino); }
    }
  }

  lemma HolderOf(s: State, q: Pid, ino: Inode)
    requires LocksAgree(s)
    ensures FileLock(ProcOf(s, q)) == Some(ino) <==> ino in s.locks && s.locks[ino] == q
  {
  }

  lemma StepKeepsInodes(s: State, p: Pid, a: Action)
    requires InodesKnown(s) && LocksAgree(s)
    ensures InodesKnown(Step(s, p, a))
  {
    var s', c := Step(s, p, a), ProcOf(s, p);
    assert FileLock(c).Some? ==> FileLock(c).value in s.locks;
    assert OwnInodesKnown(c, s.nextInode);
    StepOnInodes(s, p, a);
    StepOnDir(s, p, a);
    StepKeepsLocks(s, p, a);
    forall q: Pid | q != p ensures ProcOf(s', q) == ProcOf(s, q) { OthersKeep(s, p, a, q); }
    InodesKnownAfter(s, s', p);
  }

  lemma CreateKeepsFresh(s: State, p: Pid, a: Action)
    requires CreateCall(a)
    requires Inv(s)
    ensures FreshUnlocked(Step(s, p, a), ProcOf(Step(s, p, a), p))
  {
    assert FreshUnlocked(s, ProcOf(s, p));
    assert s.nextInode !in s.locks;
  }

  lemma ReplaceKeepsFresh(s: State, p: Pid, a: Action)
    requires ReplaceCall(a)
    requires Inv(s)
    ensures FreshUnlocked(Step(s, p, a), ProcOf(Step(s, p, a), p))
  {
    assert FreshUnlocked(s, ProcOf(s, p));
    assert s.nextInode !in s.locks;
  }

  lemma CleanerKeepsFresh(s: State, p: Pid, a: Action)
    requires CleanerCall(a)
    requires Inv(s)
    ensures FreshUnlocked(Step(s, p, a), ProcOf(Step(s, p, a), p))
  {
    assert FreshUnlocked(s, ProcOf(s, p));
    assert s.nextInode !in s.locks;
  }

  lemma FinishKeepsFresh(s: State, p: Pid, a: Action)
    requires !CreateCall(a) && !ReplaceCall(a) && !CleanerCall(a)
    requires Inv(s)
    ensures FreshUnlocked(Step(s, p, a), ProcOf(Step(s, p, a), p))
  {
    assert FreshUnlocked(s, ProcOf(s, p));
    assert s.nextInode !in s.locks;
  }

  lemma StepKeepsOwnFresh(s: State, p: Pid, a: Action)
    requires Inv(s)
    ensures FreshUnlocked(Step(s, p, a), ProcOf(Step(s, p, a), p))
  {
    if CreateCall(a) { CreateKeepsFresh(s, p, a); }
    else if ReplaceCall(a) { ReplaceKeepsFresh(s, p, a); }
    else if CleanerCall(a) { CleanerKeepsFresh(s, p, a); }
    else { FinishKeepsFresh(s, p, a); }
  }

  lemma CreateEndsTheScan(s: State, p: Pid, a: Action)
    requires CreateCall(a)
    ensures !Cleaning(ProcOf(Step(s, p, a), p)) || Step(s, p, a) == s.(time := s.time + 1)
  {
  }

  lemma ReplaceEndsTheScan(s: State, p: Pid, a: Action)
    requires ReplaceCall(a)
    ensures !Cleaning(ProcOf(Step(s, p, a), p)) || Step(s, p, a) == s.(time := s.time + 1)
  {
  }

  lemma FinishEndsTheScan(s: State, p: Pid, a: Action)
    requires !CreateCall(a) && !ReplaceCall(a) && !CleanerCall(a)
    ensures !Cleaning(ProcOf(Step(s, p, a), p)) || Step(s, p, a) == s.(time := s.time + 1)
  {
  }

  lemma OtherCallsEndTheScan(s: State, p: Pid, a: Action)
    requires !CleanerCall(a)
    ensures !Cleaning(ProcOf(Step(s, p, a), p)) || Step(s, p, a) == s.(time := s.time + 1)
  {
    if CreateCall(a) { CreateEndsTheScan(s, p, a); }
    else if ReplaceCall(a) { ReplaceEndsTheScan(s, p, a); }
    else { FinishEndsTheScan(s, p, a); }
  }

  lemma EntryCallKeepsScan(s: State, p: Pid, a: Action)
    requires CleanerSound(s, ProcOf(s, p)) && (a.OpenEntry? || a.TryLockEntry? || a.RemoveEntry?)
    ensures CleanerSound(Step(s, p, a), ProcOf(Step(s, p, a), p))
  {
  }

  lemma ScanCallKeepsScan(s: State, p: Pid, a: Action)
    requires CleanerSound(s, ProcOf(s, p)) && (a.ReadDir? || a.UnlockEntry? || a.FinishScan?)
    ensures CleanerSound(Step(s, p, a), ProcOf(Step(s, p, a), p))
  {
  }

  lemma StepKeepsOwnScan(s: State, p: Pid, a: Action)
    requires CleanerSound(s, ProcOf(s, p))
    ensures CleanerSound(Step(s, p, a), ProcOf(Step(s, p, a), p))
  {
    if a.OpenEntry? || a.TryLockEntry? || a.RemoveEntry? { EntryCallKeepsScan(s, p, a); }
    else if CleanerCall(a) { ScanCallKeepsScan(s, p, a); }
    else { OtherCallsEndTheScan(s, p, a); }
  }

  lemma StepKeepsOthers(s: State, p: Pid, a: Action, q: Pid)
    requires Inv(s) && q != p
    ensures FreshUnlocked(Step(s, p, a), ProcOf(Step(s, p, a), q))
    ensures CleanerSound(Step(s, p, a), ProcOf(Step(s, p, a), q))
  {
    OthersKeep(s, p, a, q);
    assert FreshUnlocked(s, ProcOf(s, q)) && CleanerSound(s, ProcOf(s, q));
    if HoldsDir(ProcOf(s, q)) {
      if HoldsDir(ProcOf(s, p)) { OneDirLockHolder(s, p, q); }
      WithoutDirLock(s, p, a);
    }
  }

  lemma StepKeepsInv(s: State, p: Pid, a: Action)
    requires Inv(s)
    ensures Inv(Step(s, p, a))
  {
    var s' := Step(s, p, a);
    StepKeepsLocks(s, p, a);
    StepKeepsInodes(s, p, a);
    StepKeepsOwnFresh(s, p, a);
    assert CleanerSound(s, ProcOf(s, p));
    StepKeepsOwnScan(s, p, a);
    forall q: Pid ensures FreshUnlocked(s', ProcOf(s', q)) && CleanerSound(s', ProcOf(s', q)) {
      if q != p { StepKeepsOthers(s, p, a, q); }
    }
  }

  // ---------- what the protocol guarantees ----------

  /** A live writer's file is covered by its own lock or by its directory lock. */
  lemma LiveWriterProtected(s: State, p: Pid)
    requires Inv(s) && Writes(ProcOf(s, p)).Some?
    ensures var ino := Writes(ProcOf(s, p)).value;
            (ino in s.locks && s.locks[ino] == p) || s.dirLock == Some(p)
  {
  }

  /** When a cleaner is about to unlink a path, the file there belongs to no live writer. */
  lemma CleanerRemovesOnlyAbandoned(s: State, cleaner: Pid, writer: Pid)
    requires Inv(s) && ProcOf(s, cleaner).KHeld? && ProcOf(s, cleaner).name in s.dir
    ensures Writes(ProcOf(s, writer)) != Some(s.dir[ProcOf(s, cleaner).name])
  {
    var c, w := ProcOf(s, cleaner), ProcOf(s, writer);
    assert CleanerSound(s, c);
    assert FileLock(c) == Some(c.ino);
    assert s.locks[c.ino] == cleaner;
    if Writes(w).Some? && writer != cleaner {
      LiveWriterProtected(s, writer);
      assert s.dirLock == Some(cleaner);
    }
  }

  /** A creator's or replacer's non-blocking lock on the file it just made always succeeds. */
  lemma FirstLockNeverContended(s: State, p: Pid)
    requires Inv(s) && (ProcOf(s, p).CCreated? || ProcOf(s, p).ROpened?)
    ensures var c, c' := ProcOf(s, p), ProcOf(Step(s, p, LockFile), p);
            FileLock(c') == Some(c.ino) && Writes(c') == Some(c.ino)
  {
    assert FreshUnlocked(s, ProcOf(s, p));
  }

  // ---------- runs ----------

  type Schedule = seq<(Pid, Action)>

  function RunFrom(s: State, schedule: Schedule): State
    decreases |schedule|
  {
    if schedule == [] then s
    else
      var n := |schedule| - 1;
      Step(RunFrom(s, schedule[..n]), schedule[n].0, schedule[n].1)
  }

  /** Everything above holds in every state of every interleaving. */
  lemma {:induction false} RunKeepsInv(s: State, schedule: Schedule)
    requires Inv(s)
    ensures Inv(RunFrom(s, schedule))
    ensures RunFrom(s, schedule).time == s.time + |schedule|
    decreases |schedule|
  {
    if schedule != [] {
      var n := |schedule| - 1;
      RunKeepsInv(s, schedule[..n]);
      StepKeepsInv(RunFrom(s, schedule[..n]), schedule[n].0, schedule[n].1);
    }
  }

  /** At this moment `cleaner` has `name` open and some other process holds that file's lock. */
  ghost predicate FoundHeld(s: State, cleaner: Pid, name: Name)
  {
    var c := ProcOf(s, cleaner);
    c.KOpened? && c.name == name && c.ino in s.locks && s.locks[c.ino] != cleaner
  }

  ghost predicate SkippedWitnessed(s: State, schedule: Schedule, p: Pid)
  {
    var c := ProcOf(RunFrom(s, schedule), p);
    Cleaning(c) ==> c.since <= |schedule| && forall name :: name in c.skipped ==>
      && c.since <= c.skipped[name] < |schedule|
      && FoundHeld(RunFrom(s, schedule[..c.skipped[name]]), p, name)
  }

  lemma {:induction false} SkippedWasHeld(s: State, schedule: Schedule, p: Pid)
    requires Inv(s) && s.time == 0 && !Cleaning(ProcOf(s, p))
    ensures SkippedWitnessed(s, schedule, p)
    decreases |schedule|
  {
    if schedule != [] {
      var n := |schedule| - 1;
      var before := RunFrom(s, schedule[..n]);
      SkippedWasHeld(s, schedule[..n], p);
      RunKeepsInv(s, schedule[..n]);
      if schedule[n].0 == p {
        OwnStepWitnessed(s, schedule, p);
      } else {
        OthersKeep(before, schedule[n].0, schedule[n].1, p);
        PrefixesAgree(s, schedule, p);
      }
    }
  }

  lemma PrefixesAgree(s: State, schedule: Schedule, p: Pid)
    requires schedule != []
    ensures forall k :: 0 <= k < |schedule| ==> schedule[..|schedule| - 1][..k] == schedule[..k]
  {
  }

  /** How one of the cleaner's own steps changes what it has skipped. */
  ghost predicate ScanGoesOn(s: State, p: Pid, c: Proc, c': Proc)
  {
    Cleaning(c') ==>
      || (c'.since == s.time && c'.skipped == map[])
      || (Cleaning(c) && c'.since == c.since && c'.skipped == c.skipped)
      || (c.KOpened? && c'.since == c.since && c'.skipped == c.skipped[c.name := s.time] && FoundHeld(s, p, c.name))
  }

  lemma TryLockScanStep(s: State, p: Pid)
    requires LocksAgree(s)
    ensures ScanGoesOn(s, p, ProcOf(s, p), ProcOf(Step(s, p, TryLockEntry), p))
  {
    var c := ProcOf(s, p);
    if c.KOpened? && c.ino in s.locks {
      assert FileLock(c) == Some(c.ino) <==> s.locks[c.ino] == p;
    }
  }

  lemma OtherScanStep(s: State, p: Pid, a: Action)
    requires CleanerCall(a) && !a.TryLockEntry?
    ensures ScanGoesOn(s, p, ProcOf(s, p), ProcOf(Step(s, p, a), p))
  {
  }

  lemma ScanStep(s: State, p: Pid, a: Action)
    requires LocksAgree(s)
    ensures ScanGoesOn(s, p, ProcOf(s, p), ProcOf(Step(s, p, a), p))
  {
    if a.TryLockEntry? {
      TryLockScanStep(s, p);
    } else if CleanerCall(a) {
      OtherScanStep(s, p, a);
    } else {
      OtherCallsEndTheScan(s, p, a);
    }
  }

  lemma OwnStepWitnessed(s: State, schedule: Schedule, p: Pid)
    requires Inv(s) && s.time == 0 && schedule != [] && schedule[|schedule| - 1].0 == p
    requires Inv(RunFrom(s, schedule[..|schedule| - 1]))
    requires RunFrom(s, schedule[..|schedule| - 1]).time == |schedule| - 1
    requires SkippedWitnessed(s, schedule[..|schedule| - 1], p)
    ensures SkippedWitnessed(s, schedule, p)
  {
    var n := |schedule| - 1;
    var before := RunFrom(s, schedule[..n]);
    PrefixesAgree(s, schedule, p);
    ScanStep(before, p, schedule[n].1);
    var c, c' := ProcOf(before, p), ProcOf(RunFrom(s, schedule), p);
    if Cleaning(c') {
      forall name | name in c'.skipped
        ensures c'.since <= c'.skipped[name] < |schedule|
                  && FoundHeld(RunFrom(s, schedule[..c'.skipped[name]]), p, name)
      {
        if !(c.KOpened? && name == c.name && c'.skipped[name] == n) {
          assert name in c.skipped && c'.skipped[name] == c.skipped[name];
          assert schedule[..n][..c.skipped[name]] == schedule[..c.skipped[name]];
        }
      }
    }
  }

  /** A pass that completes has removed every matching file, except those whose lock another
      process held when the pass came to them. */
  lemma CompletedPassRemovedTheRest(s: State, schedule: Schedule, p: Pid, name: Name)
    requires Inv(s) && s.time == 0 && !Cleaning(ProcOf(s, p))
    requires var end := RunFrom(s, schedule); ProcOf(end, p).KDone? && name in end.dir
    ensures exists k :: ProcOf(RunFrom(s, schedule), p).since <= k < |schedule|
              && FoundHeld(RunFrom(s, schedule[..k]), p, name)
  {
    var end := RunFrom(s, schedule);
    RunKeepsInv(s, schedule);
    SkippedWasHeld(s, schedule, p);
    assert CleanerSound(end, ProcOf(end, p));
    var k := ProcOf(end, p).skipped[name];
    assert FoundHeld(RunFrom(s, schedule[..k]), p, name);
  }
}
