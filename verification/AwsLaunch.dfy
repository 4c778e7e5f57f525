/** Fixed-lease AWS launches in one region: a write-ahead protocol around a RunInstances call
    whose outcome may be unknown, driven through candidate and market fallback with a deferred
    rollback of the key pair (internal/cli/aws.go).

    Everything remote is decided by `Env`, an arbitrary function of what has happened so far, so
    a statement about every `Env` is a statement about every behaviour of the cloud and of the
    persistence callbacks. */
module AwsLaunch {
  import opened Wrappers

  /** How the error-text classifiers see an error. */
  datatype ErrorClass = ErrorClass(retryable: bool, market: bool)

  /** An attempt is identified by what its client token hashes; lease, region, zone, subnet,
      security group and host are fixed within a region. */
  datatype Attempt = Attempt(serverType: string, spot: bool, image: string)

  /** `Terminal` is one of the six account-level rejections; `Rejected` is every other error. */
  datatype RunOutcome = Launched | NoInstances | Terminal | Rejected(class_: ErrorClass)

  datatype Event =
    | BeforeAttempt(attempt: Attempt, ok: bool)
    | RunInstances(attempt: Attempt, outcome: RunOutcome)
    | DefiniteFailure(attempt: Attempt, ok: bool)

  datatype Callback = Persisted | NotPersisted(class_: ErrorClass)

  datatype Env = Env(
    image: (seq<Event>, string) -> Result<string, ErrorClass>,
    before: seq<Event> -> Callback,
    run: seq<Event> -> RunOutcome,
    failure: seq<Event> -> Callback,
    deleteKey: seq<Event> -> bool)

  datatype KeyBinding = KeyBinding(created: bool, managed: bool)

  /** What the deferred rollback did. */
  datatype Rollback = Rollback(keyDeletes: nat, keyDeleted: bool, failureRecorded: Option<bool>)

  /** How the launch ended: with a server, on an error no other candidate can answer, or with
      every candidate rejected. */
  datatype Launch = Running(attempt: Attempt) | Stopped | Exhausted

  datatype Created = Server(attempt: Attempt) | Failed(class_: ErrorClass)

  /** A definite rejection: the only outcome after which another attempt may follow. */
  predicate Definite(o: RunOutcome) { o.Rejected? && o.class_.retryable }

  /** Neither a server nor any kind of rejection: the call may or may not have had an effect. */
  predicate Unknown(o: RunOutcome) { !o.Launched? && !o.Terminal? && !Definite(o) }

  // ---------- the protocol, read off the event log ----------

  predicate IsRun(log: seq<Event>, i: int) { 0 <= i < |log| && log[i].RunInstances? }

  /** Rejected, and the rejection durably recorded. */
  predicate Closed(log: seq<Event>, i: int)
  {
    IsRun(log, i) && Definite(log[i].outcome) && i + 1 < |log| && log[i + 1] == DefiniteFailure(log[i].attempt, true)
  }

  /** Rejected, but the record could not be persisted. */
  predicate Stuck(log: seq<Event>, i: int)
  {
    IsRun(log, i) && Definite(log[i].outcome) && i + 1 < |log| && log[i + 1] == DefiniteFailure(log[i].attempt, false)
  }

  /** The very last event: launched, terminally rejected, or of unknown effect. */
  predicate Final(log: seq<Event>, i: int)
  {
    IsRun(log, i) && i == |log| - 1 && !Definite(log[i].outcome)
  }

  /** Every call is announced durably just before it is made. */
  ghost predicate Announced(log: seq<Event>)
  {
    forall i :: IsRun(log, i) ==> i > 0 && log[i - 1] == BeforeAttempt(log[i].attempt, true)
  }

  /** No attempt is sent twice, nor one that had failed before this run. */
  ghost predicate NeverResent(log: seq<Event>, failedBefore: set<Attempt>)
  {
    && (forall i :: IsRun(log, i) ==> log[i].attempt !in failedBefore)
    && (forall i, j :: IsRun(log, i) && IsRun(log, j) && i < j ==> log[i].attempt != log[j].attempt)
  }

  /** Each call is closed and its token remembered as failed, or it is the last call and pinned. */
  ghost predicate Accounted(log: seq<Event>, pinned: Option<Attempt>, failed: set<Attempt>)
  {
    forall i :: IsRun(log, i) ==>
      || (Closed(log, i) && log[i].attempt in failed)
      || ((Stuck(log, i) || Final(log, i)) && pinned == Some(log[i].attempt) && forall j :: IsRun(log, j) ==> j <= i)
  }

  ghost predicate Protocol(log: seq<Event>, pinned: Option<Attempt>, failedBefore: set<Attempt>, failed: set<Attempt>)
  {
    && Announced(log) && NeverResent(log, failedBefore) && Accounted(log, pinned, failed) && failedBefore <= failed
    && (pinned.Some? ==> exists i :: IsRun(log, i) && log[i].attempt == pinned.value && !Closed(log, i))
  }

  ghost predicate EndsIn(log: seq<Event>, o: RunOutcome)
  {
    log != [] && log[|log| - 1].RunInstances? && log[|log| - 1].outcome == o
  }

  lemma ProtocolAppendOther(log: seq<Event>, e: Event, pinned: Option<Attempt>, failedBefore: set<Attempt>,
                            failed: set<Attempt>)
    requires Protocol(log, pinned, failedBefore, failed)
    requires !e.RunInstances? && (log != [] ==> !Final(log, |log| - 1) && !log[|log| - 1].RunInstances?)
    ensures Protocol(log + [e], pinned, failedBefore, failed)
  {
    var log' := log + [e];
    assert forall i :: IsRun(log', i) <==> IsRun(log, i);
    assert forall i :: IsRun(log, i) ==> i + 1 < |log|;
    assert forall i :: IsRun(log, i) ==> log'[i] == log[i] && log'[i + 1] == log[i + 1];
    if pinned.Some? {
      var i :| IsRun(log, i) && log[i].attempt == pinned.value && !Closed(log, i);
      assert !Closed(log', i);
    }
  }

  lemma ProtocolAppendRun(log: seq<Event>, a: Attempt, o: RunOutcome, failedBefore: set<Attempt>, failed: set<Attempt>)
    requires Protocol(log, None, failedBefore, failed) && a !in failed
    requires log != [] && log[|log| - 1] == BeforeAttempt(a, true)
    requires !Definite(o)
    ensures Protocol(log + [RunInstances(a, o)], Some(a), failedBefore, failed)
  {
    var log' := log + [RunInstances(a, o)];
    assert forall i :: IsRun(log', i) <==> IsRun(log, i) || i == |log|;
    assert forall i :: IsRun(log, i) ==> Closed(log, i) && log'[i] == log[i] && log'[i + 1] == log[i + 1];
    assert forall i :: IsRun(log, i) ==> Closed(log', i);
    assert Final(log', |log|);
    assert log'[|log| - 1] == log[|log| - 1];
  }

  lemma ProtocolAppendRejected(log: seq<Event>, a: Attempt, o: RunOutcome, ok: bool, failedBefore: set<Attempt>,
                               failed: set<Attempt>)
    requires Protocol(log, None, failedBefore, failed) && a !in failed
    requires log != [] && log[|log| - 1] == BeforeAttempt(a, true)
    requires Definite(o)
    ensures Protocol(log + [RunInstances(a, o), DefiniteFailure(a, ok)], if ok then None else Some(a),
                     failedBefore, failed + {a})
  {
    var n := |log|;
    var log' := log + [RunInstances(a, o), DefiniteFailure(a, ok)];
    assert forall i :: IsRun(log', i) <==> IsRun(log, i) || i == n;
    assert forall i :: IsRun(log, i) ==> Closed(log, i) && log'[i] == log[i] && log'[i + 1] == log[i + 1];
    assert forall i :: IsRun(log, i) ==> Closed(log', i);
    assert log'[n] == RunInstances(a, o) && log'[n + 1] == DefiniteFailure(a, ok) && log'[n - 1] == log[n - 1];
    assert if ok then Closed(log', n) else Stuck(log', n) && !Closed(log', n);
  }

  // ---------- the code ----------

  class FixedCreateControl {
    const env: Env
    ghost const failedBefore: set<Attempt>
    var log: seq<Event>
    var pinned: Option<Attempt>
    var failed: set<Attempt>
    var terminalRejection: bool
    ghost var tried: seq<(string, bool)>

    /** A launch may start: nothing pinned, no terminal rejection yet, any set of tokens already
        known to have failed. */
    constructor (env: Env, failed: set<Attempt>)
      ensures this.env == env && this.failedBefore == failed && this.failed == failed
      ensures log == [] && pinned == None && !terminalRejection && tried == [] && Between()
    {
      this.env, this.failed, this.failedBefore := env, failed, failed;
      log, pinned, terminalRejection, tried := [], None, false, [];
    }

    ghost predicate Inv()
      reads this
    {
      Protocol(log, pinned, failedBefore, failed)
    }

    /** The state in which the loops go round: no call is of unknown effect. */
    ghost predicate Between()
      reads this
    {
      && Inv() && !terminalRejection
      && (log != [] ==> !log[|log| - 1].RunInstances?)
    }

    /** The last event is a call of unknown effect: an error that is neither a definite nor a
        terminal rejection, or a success that named no instance. */
    ghost predicate Ambiguous()
      reads this
    {
      !terminalRejection && log != [] && log[|log| - 1].RunInstances? && Unknown(log[|log| - 1].outcome)
    }

    /** The provider's record of a rejection: the token counts as failed from here on, whether or not
        the record could be persisted. */
    method RecordFailure(attempt: Attempt) returns (persisted: Callback)
      modifies this`failed
      ensures persisted == env.failure(log) && failed == old(failed) + {attempt}
    {
      persisted := env.failure(log);
      failed := failed + {attempt};
    }

    /** The control part of `createServer`. */
    method CreateServer(attempt: Attempt) returns (r: Created)
      requires Between()
      modifies this
      ensures Inv()
      ensures tried == old(tried)
      ensures r.Server? ==>
                r.attempt == attempt && EndsIn(log, Launched) && pinned == Some(attempt) && !terminalRejection
      ensures r.Failed? && r.class_.retryable ==> Between()
      ensures r.Failed? ==> Between() || (EndsIn(log, Terminal) && terminalRejection) || Ambiguous()
    {
      if attempt in failed {
        return Failed(ErrorClass(true, true));
      }
      if pinned.Some? {
        return Failed(ErrorClass(false, false));
      }
      var before := env.before(log);
      ProtocolAppendOther(log, BeforeAttempt(attempt, before.Persisted?), pinned, failedBefore, failed);
      log := log + [BeforeAttempt(attempt, before.Persisted?)];
      if before.NotPersisted? {
        return Failed(before.class_);
      }
      ghost var announced := log;
      pinned := Some(attempt);
      var outcome := env.run(log);
      log := log + [RunInstances(attempt, outcome)];
      match outcome {
        case Launched =>
          ProtocolAppendRun(announced, attempt, outcome, failedBefore, failed);
          r := Server(attempt);
        case NoInstances =>
          ProtocolAppendRun(announced, attempt, outcome, failedBefore, failed);
          r := Failed(ErrorClass(false, false));
        case Terminal =>
          ProtocolAppendRun(announced, attempt, outcome, failedBefore, failed);
          terminalRejection := true;
          r := Failed(ErrorClass(false, false));
        case Rejected(c) =>
          if !c.retryable {
            ProtocolAppendRun(announced, attempt, outcome, failedBefore, failed);
            return Failed(c);
          }
          ghost var known := failed;
          var persisted := RecordFailure(attempt);
          ProtocolAppendRejected(announced, attempt, outcome, persisted.Persisted?, failedBefore, known);
          log := log + [DefiniteFailure(attempt, persisted.Persisted?)];
          assert log == announced + [RunInstances(attempt, outcome), DefiniteFailure(attempt, persisted.Persisted?)];
          if persisted.NotPersisted? {
            return Failed(ErrorClass(true, c.market || persisted.class_.market));
          }
          pinned := None;
          r := Failed(c);
      }
    }

    method TryCreate(serverType: string, spot: bool) returns (r: Created)
      requires Between()
      modifies this
      ensures Inv()
      ensures tried == old(tried) + [(serverType, spot)]
      ensures r.Server? ==> EndsIn(log, Launched) && pinned == Some(r.attempt) && !terminalRejection
                            && r.attempt.serverType == serverType && r.attempt.spot == spot
      ensures r.Failed? && r.class_.retryable ==> Between()
      ensures r.Failed? ==> Between() || (EndsIn(log, Terminal) && terminalRejection) || Ambiguous()
    {
      tried := tried + [(serverType, spot)];
      var image := env.image(log, serverType);
      if image.Err? {
        return Failed(image.error);
      }
      r := CreateServer(Attempt(serverType, spot, image.value));
    }

    /** One pass over candidate types; collects those whose rejection another market may answer. */
    method TryAll(types: seq<string>, spot: bool) returns (r: Launch, marketFallback: seq<string>)
      requires Between()
      modifies this
      ensures Inv()
      ensures |old(tried)| <= |tried| <= |old(tried)| + |types|
                && tried == old(tried) + Plan(types, spot)[..|tried| - |old(tried)|]
      ensures forall t :: t in marketFallback ==> t in types
      ensures r.Exhausted? ==> Between() && |tried| == |old(tried)| + |types|
      ensures r.Running? ==> EndsIn(log, Launched) && pinned == Some(r.attempt) && !terminalRejection
      ensures r.Stopped? ==> Between() || (EndsIn(log, Terminal) && terminalRejection) || Ambiguous()
    {
      marketFallback := [];
      for i := 0 to |types|
        invariant Between()
        invariant tried == old(tried) + Plan(types, spot)[..i]
        invariant forall t :: t in marketFallback ==> t in types
      {
        var created := TryCreate(types[i], spot);
        assert Plan(types, spot)[..i + 1] == Plan(types, spot)[..i] + [(types[i], spot)];
        if created.Server? {
          return Running(created.attempt), marketFallback;
        }
        if !created.class_.retryable {
          return Stopped, marketFallback;
        }
        if created.class_.market {
          marketFallback := marketFallback + [types[i]];
        }
      }
      r := Exhausted;
    }

    /** The deferred rollback of a failed launch. */
    method RollBack(binding: KeyBinding) returns (rb: Rollback)
      requires Inv()
      requires terminalRejection ==> EndsIn(log, Terminal)
      requires pinned.None? ==> Between()
      modifies this`pinned
      ensures terminalRejection && old(pinned).Some? ==>
                && rb.keyDeletes == (if binding.managed then 1 else 0)
                && (rb.failureRecorded.Some? <==> binding.managed ==> rb.keyDeleted)
                && pinned == (if rb.failureRecorded == Some(true) then None else old(pinned))
      ensures !(terminalRejection && old(pinned).Some?) ==> pinned == old(pinned) && rb.failureRecorded == None
      ensures !terminalRejection && old(pinned).Some? ==> rb == Rollback(0, false, None)
      ensures old(pinned).None? ==> rb.keyDeletes == if binding.created then 1 else 0
    {
      var terminal := terminalRejection && pinned.Some?;
      var cleanupKey := (binding.created && pinned.None?) || (terminal && binding.managed);
      rb := Rollback(0, false, None);
      if cleanupKey {
        var deleted := env.deleteKey(log);
        rb := rb.(keyDeletes := 1, keyDeleted := deleted);
        if !deleted {
          return;
        }
      }
      if terminal {
        var persisted := env.failure(log);
        rb := rb.(failureRecorded := Some(persisted.Persisted?));
        if persisted.Persisted? {
          pinned := None;
        }
      }
    }

    /** Both passes: all candidates in the first market, then the marked ones on demand. */
    method TryMarkets(candidates: seq<string>, useSpot: bool, onDemandFallback: bool) returns (r: Launch)
      requires Between() && tried == []
      modifies this
      ensures Inv()
      ensures r.Exhausted? ==> Between()
      ensures r.Running? ==> EndsIn(log, Launched) && pinned == Some(r.attempt) && !terminalRejection
      ensures r.Stopped? ==> Between() || (EndsIn(log, Terminal) && terminalRejection) || Ambiguous()
      ensures TriedInOrder(tried, candidates, useSpot, onDemandFallback)
      ensures r.Exhausted? ==> |tried| >= |candidates|
    {
      var marketFallback;
      r, marketFallback := TryAll(candidates, useSpot);
      assert [] + Plan(candidates, useSpot)[..|tried|] == Plan(candidates, useSpot)[..|tried|];
      if r.Exhausted? && useSpot && marketFallback != [] && onDemandFallback {
        ghost var firstMarket := tried;
        assert firstMarket == Plan(candidates, useSpot);
        var unused;
        r, unused := TryAll(marketFallback, false);
        SecondMarket(firstMarket, marketFallback, tried, candidates);
      }
    }

    /** The whole launch.  `setup` is an image or security-group error before any attempt. */
    method CreateServerInRegion(binding: KeyBinding, setup: Option<ErrorClass>, candidates: seq<string>, useSpot: bool,
                                onDemandFallback: bool)
      returns (r: Launch, rb: Rollback)
      requires Between() && log == [] && pinned == None && tried == []
      modifies this
      // Every call was durably announced, no token was sent twice or after failing before.
      ensures Announced(log) && NeverResent(log, failedBefore)
      // Every call but the last ended in a rejection that was durably recorded.
      ensures forall i, j :: IsRun(log, i) && IsRun(log, j) && i < j ==> Closed(log, i)
      // Nothing at all follows a call that was not definitely rejected.
      ensures forall i :: IsRun(log, i) && !Definite(log[i].outcome) ==> i == |log| - 1
      // Success is a call that launched; it leaves its own attempt pinned and touches no key.
      ensures r.Running? <==> exists i :: IsRun(log, i) && log[i].outcome.Launched?
      ensures r.Running? ==> EndsIn(log, Launched) && pinned == Some(r.attempt) && rb == Rollback(0, false, None)
      // A call of unknown effect leaves exactly its attempt pinned and the key in place.
      ensures forall i :: IsRun(log, i) && Unknown(log[i].outcome) ==>
                r.Stopped? && !terminalRejection && pinned == Some(log[i].attempt) && rb == Rollback(0, false, None)
      // A terminal rejection gives up the managed key, then records the failure, then unpins.
      ensures terminalRejection <==> exists i :: IsRun(log, i) && log[i].outcome.Terminal?
      ensures terminalRejection ==>
                && r.Stopped? && EndsIn(log, Terminal)
                && rb.keyDeletes == (if binding.managed then 1 else 0)
                && (rb.failureRecorded.Some? <==> (binding.managed ==> rb.keyDeleted))
                && pinned == (if rb.failureRecorded == Some(true) then None else Some(log[|log| - 1].attempt))
      // When every call was definitely rejected, a key created here is deleted exactly when no
      // attempt is left pinned, and one is left pinned exactly when recording its rejection failed.
      ensures (forall i :: IsRun(log, i) ==> Definite(log[i].outcome)) ==>
                && !r.Running? && !terminalRejection && rb.failureRecorded == None
                && rb.keyDeletes == (if binding.created && pinned == None then 1 else 0)
                && (pinned.Some? <==> exists i :: Stuck(log, i))
                && (pinned.Some? ==> exists i :: Stuck(log, i) && log[i].attempt == pinned.value)
      ensures TriedInOrder(tried, candidates, useSpot, onDemandFallback)
      ensures r.Exhausted? ==> |tried| >= |candidates|
    {
      r, rb := Stopped, Rollback(0, false, None);
      if setup.None? {
        r := TryMarkets(candidates, useSpot, onDemandFallback);
      }
      OnlyLastOpen(log, pinned, failedBefore, failed);
      EndsAsItsLastCall(log, pinned, failedBefore, failed);
      if !r.Running? {
        LeftPinned(log, pinned, failedBefore, failed);
        rb := RollBack(binding);
      }
    }
  }

  function Plan(types: seq<string>, spot: bool): (p: seq<(string, bool)>)
    ensures |p| == |types|
  {
    seq(|types|, i requires 0 <= i < |types| => (types[i], spot))
  }

  /** Candidates in order, in the first market; in the other only some of them, after all of them. */
  ghost predicate TriedInOrder(tried: seq<(string, bool)>, candidates: seq<string>, useSpot: bool,
                               onDemandFallback: bool)
  {
    if |tried| <= |candidates| then tried == Plan(candidates, useSpot)[..|tried|]
    else
      && useSpot && onDemandFallback && tried[..|candidates|] == Plan(candidates, useSpot)
      && forall k :: |candidates| <= k < |tried| ==> tried[k].0 in candidates && !tried[k].1
  }

  lemma SecondMarket(first: seq<(string, bool)>, fallback: seq<string>, tried: seq<(string, bool)>,
                     candidates: seq<string>)
    requires |first| <= |tried| <= |first| + |fallback|
    requires tried == first + Plan(fallback, false)[..|tried| - |first|]
    requires forall t :: t in fallback ==> t in candidates
    ensures tried[..|first|] == first
    ensures forall k :: |first| <= k < |tried| ==> tried[k].0 in candidates && !tried[k].1
  {
  }

  lemma OnlyLastOpen(log: seq<Event>, pinned: Option<Attempt>, failedBefore: set<Attempt>, failed: set<Attempt>)
    requires Protocol(log, pinned, failedBefore, failed)
    ensures forall i, j :: IsRun(log, i) && IsRun(log, j) && i < j ==> Closed(log, i)
    ensures forall i :: IsRun(log, i) && !Definite(log[i].outcome) ==> i == |log| - 1
  {
  }

  /** Launched, terminal and unknown outcomes can only be those of the last event. */
  lemma EndsAsItsLastCall(log: seq<Event>, pinned: Option<Attempt>, failedBefore: set<Attempt>, failed: set<Attempt>)
    requires Protocol(log, pinned, failedBefore, failed)
    ensures (exists i :: IsRun(log, i) && log[i].outcome.Launched?) <==> EndsIn(log, Launched)
    ensures (exists i :: IsRun(log, i) && log[i].outcome.Terminal?) <==> EndsIn(log, Terminal)
    ensures forall i :: IsRun(log, i) && Unknown(log[i].outcome) ==> i == |log| - 1 && pinned == Some(log[i].attempt)
  {
    if EndsIn(log, Launched) || EndsIn(log, Terminal) {
      assert IsRun(log, |log| - 1);
    }
  }

  /** What is pinned after the loops is the one call that was not closed. */
  lemma LeftPinned(log: seq<Event>, pinned: Option<Attempt>, failedBefore: set<Attempt>, failed: set<Attempt>)
    requires Protocol(log, pinned, failedBefore, failed)
    ensures log != [] && log[|log| - 1].RunInstances? ==> pinned == Some(log[|log| - 1].attempt)
    ensures !(log != [] && log[|log| - 1].RunInstances?) ==>
              && (pinned.Some? <==> exists i :: Stuck(log, i))
              && (pinned.Some? ==> exists i :: Stuck(log, i) && log[i].attempt == pinned.value)
  {
    if log != [] && log[|log| - 1].RunInstances? {
      assert IsRun(log, |log| - 1);
    } else {
      if pinned.Some? {
        var i :| IsRun(log, i) && log[i].attempt == pinned.value && !Closed(log, i);
        assert Stuck(log, i);
      }
      if i :| Stuck(log, i) {
        assert !Closed(log, i);
      }
    }
  }
}
