/** Who may still take a staging file away from under its name
    (internal/applevmhelper/runtime_darwin_arm64.go): every user of a staging file removes that name
    again before it returns, whether or not the file there is still its own. */
module StagingNames {
  import opened Wrappers
  import opened StagingLocks

  /** The name a process will still remove. */
  function Owes(c: Proc): Option<Name>
  {
    if c.CCreated? || c.COwned? || c.CClosed? || c.Owner? || c.Renamed? || c.Closing? || c.RLocked? || c.RClosed?
       || c.RRemoved? || c.RCloned? || c.ROpened? || c.RRelocked? then Some(c.name) else None
  }

  /** A live writer's file stands under the writer's name. */
  ghost predicate InPlace(s: State, p: Pid)
  {
    var c := ProcOf(s, p);
    Writes(c).Some? && c.name in s.dir && s.dir[c.name] == c.ino
  }

  /** No other process owes a removal of the writer's name. */
  ghost predicate SoleOwner(s: State, p: Pid)
    requires Owes(ProcOf(s, p)).Some?
  {
    forall q: Pid :: q != p ==> Owes(ProcOf(s, q)) != Owes(ProcOf(s, p))
  }

  // ---------- a writer that shares its name with nobody ----------

  predicate Removes(a: Action)
  {
    a.RemoveAborted? || a.RemovePlaceholder? || a.Rename? || a.RemoveOwn? || a.RemoveEntry?
  }

  predicate Makes(a: Action) { a.CreateTemp? || a.Clone? || a.OpenReplacement? }

  /** What a removal takes out of the directory. */
  lemma RemovalStep(s: State, q: Pid, a: Action, n: Name)
    requires Removes(a) && n in s.dir && Owes(ProcOf(s, q)) != Some(n)
    requires ProcOf(s, q).KHeld? ==> ProcOf(s, q).name != n
    ensures n in Step(s, q, a).dir && Step(s, q, a).dir[n] == s.dir[n]
  {
  }

  lemma MakingStep(s: State, q: Pid, a: Action, n: Name)
    requires Makes(a) && n in s.dir
    ensures n in Step(s, q, a).dir && Step(s, q, a).dir[n] == s.dir[n]
  {
  }

  lemma OtherStep(s: State, q: Pid, a: Action)
    requires !Makes(a) && !Removes(a)
    ensures Step(s, q, a).dir == s.dir
  {
  }

  /** A name that is taken is not taken on by anyone else. */
  lemma CreateTakesFreeName(s: State, q: Pid, a: Action, n: Name)
    requires CreateCall(a) && n in s.dir && Owes(ProcOf(s, q)) != Some(n)
    ensures Owes(ProcOf(Step(s, q, a), q)) != Some(n)
  {
  }

  lemma OtherCallsTakeNoName(s: State, q: Pid, a: Action)
    requires !CreateCall(a)
    ensures Owes(ProcOf(Step(s, q, a), q)).Some? ==> Owes(ProcOf(Step(s, q, a), q)) == Owes(ProcOf(s, q))
  {
  }

  lemma NoNewDebt(s: State, q: Pid, a: Action, n: Name)
    requires n in s.dir && Owes(ProcOf(s, q)) != Some(n)
    ensures Owes(ProcOf(Step(s, q, a), q)) != Some(n)
  {
    if CreateCall(a) { CreateTakesFreeName(s, q, a, n); } else { OtherCallsTakeNoName(s, q, a); }
  }

  lemma OthersLeaveInPlace(s: State, p: Pid, q: Pid, a: Action)
    requires Inv(s) && q != p && InPlace(s, p) && SoleOwner(s, p)
    ensures InPlace(Step(s, q, a), p) && SoleOwner(Step(s, q, a), p)
  {
    var s', n := Step(s, q, a), ProcOf(s, p).name;
    OthersKeep(s, q, a, p);
    assert Owes(ProcOf(s, q)) != Some(n);
    if Removes(a) {
      if ProcOf(s, q).KHeld? && ProcOf(s, q).name == n {
        CleanerRemovesOnlyAbandoned(s, q, p);
      }
      RemovalStep(s, q, a, n);
    } else if Makes(a) {
      MakingStep(s, q, a, n);
    } else {
      OtherStep(s, q, a);
    }
    NoNewDebt(s, q, a, n);
    forall r: Pid | r != p ensures Owes(ProcOf(s', r)) != Some(n) {
      if r != q { OthersKeep(s, q, a, r); }
    }
  }

  /** No step of the schedule is the writer's own. */
  ghost predicate Without(schedule: Schedule, p: Pid)
  {
    forall i :: 0 <= i < |schedule| ==> schedule[i].0 != p
  }

  lemma {:induction false} RunLeavesInPlace(s: State, p: Pid, schedule: Schedule)
    requires Inv(s) && InPlace(s, p) && SoleOwner(s, p) && Without(schedule, p)
    ensures InPlace(RunFrom(s, schedule), p) && SoleOwner(RunFrom(s, schedule), p)
    decreases |schedule|
  {
    if schedule != [] {
      var n := |schedule| - 1;
      RunLeavesInPlace(s, p, schedule[..n]);
      RunKeepsInv(s, schedule[..n]);
      OthersLeaveInPlace(RunFrom(s, schedule[..n]), p, schedule[n].0, schedule[n].1);
    }
  }

  // ---------- one that shares it ----------

  /** How a process gets to its removal, alone and in at most two calls. */
  function Payment(c: Proc): seq<Action>
  {
    if c.CCreated? || c.COwned? then [AbortCreate, RemoveAborted]
    else if c.CClosed? then [RemoveAborted]
    else if c.Owner? || c.Renamed? || c.Closing? then [RemoveOwn]
    else [AbortReplace, RemoveOwn]
  }

  function By(q: Pid, actions: seq<Action>): Schedule
  {
    seq(|actions|, i requires 0 <= i < |actions| => (q, actions[i]))
  }

  lemma RunOfOne(s: State, q: Pid, a: Action)
    ensures RunFrom(s, By(q, [a])) == Step(s, q, a)
  {
    assert By(q, [a])[..0] == [];
  }

  lemma RunOfTwo(s: State, q: Pid, a: Action, b: Action)
    ensures RunFrom(s, By(q, [a, b])) == Step(Step(s, q, a), q, b)
  {
    assert By(q, [a, b])[..1] == By(q, [a]);
    RunOfOne(s, q, a);
  }

  lemma CreatorPays(s: State, q: Pid)
    requires ProcOf(s, q).CCreated? || ProcOf(s, q).COwned?
    ensures ProcOf(s, q).name !in Step(Step(s, q, AbortCreate), q, RemoveAborted).dir
  {
  }

  lemma ReplacerPays(s: State, q: Pid)
    requires var c := ProcOf(s, q);
             c.RLocked? || c.RClosed? || c.RRemoved? || c.RCloned? || c.ROpened? || c.RRelocked?
    ensures ProcOf(s, q).name !in Step(Step(s, q, AbortReplace), q, RemoveOwn).dir
  {
  }

  lemma PaysAtOnce(s: State, q: Pid)
    requires var c := ProcOf(s, q); c.CClosed? || c.Owner? || c.Renamed? || c.Closing?
    ensures ProcOf(s, q).name !in Step(s, q, if ProcOf(s, q).CClosed? then RemoveAborted else RemoveOwn).dir
  {
  }

  lemma DebtIsPaid(s: State, q: Pid, n: Name)
    requires Owes(ProcOf(s, q)) == Some(n)
    ensures n !in RunFrom(s, By(q, Payment(ProcOf(s, q)))).dir
  {
    var c := ProcOf(s, q);
    var pay := Payment(c);
    if c.CCreated? || c.COwned? {
      RunOfTwo(s, q, pay[0], pay[1]);
      CreatorPays(s, q);
    } else if c.CClosed? || c.Owner? || c.Renamed? || c.Closing? {
      RunOfOne(s, q, pay[0]);
      PaysAtOnce(s, q);
    } else {
      RunOfTwo(s, q, pay[0], pay[1]);
      ReplacerPays(s, q);
    }
  }

  /** A live writer's file stays under its name, whatever the other processes do, exactly when none of
      them owes a removal of the same name. */
  lemma StaysInPlaceIff(s: State, p: Pid)
    requires Inv(s) && InPlace(s, p)
    ensures (forall schedule :: Without(schedule, p) ==> InPlace(RunFrom(s, schedule), p)) <==> SoleOwner(s, p)
  {
    if SoleOwner(s, p) {
      forall schedule | Without(schedule, p) ensures InPlace(RunFrom(s, schedule), p) {
        RunLeavesInPlace(s, p, schedule);
      }
    } else {
      var q: Pid :| q != p && Owes(ProcOf(s, q)) == Owes(ProcOf(s, p));
      var schedule := By(q, Payment(ProcOf(s, q)));
      DebtIsPaid(s, q, ProcOf(s, p).name);
      RunKeepsProc(s, schedule, p);
      assert !InPlace(RunFrom(s, schedule), p);
    }
  }

  lemma {:induction false} RunKeepsProc(s: State, schedule: Schedule, p: Pid)
    requires Without(schedule, p)
    ensures ProcOf(RunFrom(s, schedule), p) == ProcOf(s, p)
    decreases |schedule|
  {
    if schedule != [] {
      var n := |schedule| - 1;
      RunKeepsProc(s, schedule[..n], p);
      OthersKeep(RunFrom(s, schedule[..n]), schedule[n].0, schedule[n].1, p);
    }
  }

  // ---------- and such a sharing happens ----------

  lemma RunThen(s: State, schedule: Schedule, p: Pid, a: Action)
    ensures RunFrom(s, schedule + [(p, a)]) == Step(RunFrom(s, schedule), p, a)
  {
    var all := schedule + [(p, a)];
    assert all[..|all| - 1] == schedule;
  }

  /** Nobody holds anything, `p` is idle and the name is free. */
  ghost predicate Quiet(s: State, p: Pid, n: Name)
  {
    s.dirLock == None && s.locks == map[] && n !in s.dir && ProcOf(s, p).Idle?
  }

  /** The calls by which `p` becomes the live writer of `n`, and those by which it gives a
      replacement up after the placeholder is gone. */
  function Taking(n: Name): seq<Action> { [LockDirToCreate, CreateTemp(n), LockFile, UnlockDir] }

  function GivingUp(): seq<Action> { [LockDirToReplace, CloseFile, RemovePlaceholder, AbortReplace] }

  lemma RunOfPair(s: State, schedule: Schedule, p: Pid, a: Action, b: Action)
    ensures RunFrom(s, schedule + By(p, [a, b])) == Step(Step(RunFrom(s, schedule), p, a), p, b)
  {
    RunThen(s, schedule, p, a);
    RunThen(s, schedule + [(p, a)], p, b);
    assert schedule + By(p, [a, b]) == schedule + [(p, a)] + [(p, b)];
  }

  lemma FourAsPairs(schedule: Schedule, p: Pid, a: Action, b: Action, c: Action, d: Action)
    ensures schedule + By(p, [a, b, c, d]) == (schedule + By(p, [a, b])) + By(p, [c, d])
  {
  }

  lemma TakesLock(s: State, p: Pid, n: Name)
    requires Quiet(s, p, n)
    ensures var s1 := Step(Step(s, p, LockDirToCreate), p, CreateTemp(n));
            && ProcOf(s1, p) == CCreated(n, s.nextInode) && s1.dirLock == Some(p) && s1.locks == map[]
            && s1.dir == s.dir[n := s.nextInode] && s1.procs == s.procs[p := CCreated(n, s.nextInode)]
  {
  }

  lemma TakesFile(s: State, p: Pid, n: Name, ino: Inode)
    requires ProcOf(s, p) == CCreated(n, ino) && s.dirLock == Some(p) && s.locks == map[] && p in s.procs
    ensures var s1 := Step(Step(s, p, LockFile), p, UnlockDir);
            && ProcOf(s1, p) == Owner(n, ino) && s1.dirLock == None && s1.locks == map[ino := p] && s1.dir == s.dir
            && s1.procs == s.procs[p := Owner(n, ino)]
  {
  }

  lemma BecomesOwner(s: State, schedule: Schedule, p: Pid, n: Name)
    requires Quiet(RunFrom(s, schedule), p, n)
    ensures var s0, s1 := RunFrom(s, schedule), RunFrom(s, schedule + By(p, Taking(n)));
            && s1.procs == s0.procs[p := Owner(n, s0.nextInode)] && s1.dirLock == None
            && s1.dir == s0.dir[n := s0.nextInode] && s1.locks == map[s0.nextInode := p]
  {
    var s0 := RunFrom(s, schedule);
    var half := schedule + By(p, [LockDirToCreate, CreateTemp(n)]);
    FourAsPairs(schedule, p, LockDirToCreate, CreateTemp(n), LockFile, UnlockDir);
    RunOfPair(s, schedule, p, LockDirToCreate, CreateTemp(n));
    TakesLock(s0, p, n);
    RunOfPair(s, half, p, LockFile, UnlockDir);
    TakesFile(RunFrom(s, half), p, n, s0.nextInode);
  }

  lemma ClosesPlaceholder(s: State, p: Pid, n: Name, ino: Inode)
    requires p in s.procs && s.procs[p] == Owner(n, ino) && s.dirLock == None && s.locks == map[ino := p]
    ensures var s1 := Step(Step(s, p, LockDirToReplace), p, CloseFile);
            && s1.procs == s.procs[p := RClosed(n)] && s1.dirLock == Some(p) && s1.locks == map[] && s1.dir == s.dir
  {
  }

  lemma AbandonsPlaceholder(s: State, p: Pid, n: Name)
    requires p in s.procs && s.procs[p] == RClosed(n) && s.dirLock == Some(p) && s.locks == map[]
    ensures var s1 := Step(Step(s, p, RemovePlaceholder), p, AbortReplace);
            && s1.procs == s.procs[p := Closing(n)] && s1.dirLock == None && s1.locks == map[] && s1.dir == s.dir - {n}
  {
  }

  lemma GivesUp(s: State, schedule: Schedule, p: Pid, n: Name, ino: Inode)
    requires var s0 := RunFrom(s, schedule);
             p in s0.procs && s0.procs[p] == Owner(n, ino) && s0.dirLock == None && s0.locks == map[ino := p]
    ensures var s0, s1 := RunFrom(s, schedule), RunFrom(s, schedule + By(p, GivingUp()));
            s1.procs == s0.procs[p := Closing(n)] && s1.dirLock == None && s1.locks == map[] && s1.dir == s0.dir - {n}
  {
    var s0 := RunFrom(s, schedule);
    var half := schedule + By(p, [LockDirToReplace, CloseFile]);
    FourAsPairs(schedule, p, LockDirToReplace, CloseFile, RemovePlaceholder, AbortReplace);
    RunOfPair(s, schedule, p, LockDirToReplace, CloseFile);
    ClosesPlaceholder(s0, p, n, ino);
    RunOfPair(s, half, p, RemovePlaceholder, AbortReplace);
    AbandonsPlaceholder(RunFrom(s, half), p, n);
  }

  const EMPTY := State(0, map[], 0, map[], None, map[])

  /** Process 0 takes the name and gives it up, process 1 takes it. */
  function Reuse(n: Name): Schedule { [] + By(0, Taking(n)) + By(0, GivingUp()) + By(1, Taking(n)) }

  lemma ReuseShares(n: Name)
    ensures var end := RunFrom(EMPTY, Reuse(n));
            InPlace(end, 1) && ProcOf(end, 1).Owner? && ProcOf(end, 1).name == n && ProcOf(end, 0) == Closing(n)
  {
    assert RunFrom(EMPTY, []) == EMPTY;
    BecomesOwner(EMPTY, [], 0, n);
    GivesUp(EMPTY, [] + By(0, Taking(n)), 0, n, 0);
    BecomesOwner(EMPTY, [] + By(0, Taking(n)) + By(0, GivingUp()), 1, n);
  }

  /** From an empty cache: one process gives up its replacement, another is given the name it freed,
      and the removal the first still owes takes the live file away. */
  lemma NameTakenTwice(n: Name)
    ensures var end := RunFrom(EMPTY, Reuse(n));
            Inv(EMPTY) && Inv(end) && InPlace(end, 1) && !SoleOwner(end, 1) && !InPlace(Step(end, 0, RemoveOwn), 1)
  {
    var end := RunFrom(EMPTY, Reuse(n));
    EmptyCacheInv(map[], 0);
    RunKeepsInv(EMPTY, Reuse(n));
    ReuseShares(n);
    assert Owes(ProcOf(end, 0)) == Owes(ProcOf(end, 1));
    OthersKeep(end, 0, RemoveOwn, 1);
  }
}
