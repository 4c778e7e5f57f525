/** Resumable deletion of a direct AWS image checkpoint: the image's snapshot ids are made durable
    before the image, which alone knows them, is deregistered (internal/cli/aws.go). */
module AwsCheckpoint {
  import opened Text

  /** Any remote call may fail with or without having taken effect.  A crash is a fatal failure:
      nothing further happens. */
  datatype Outcome = Success | Retryable(effect: bool) | Fatal(effect: bool)

  /** The behaviour of every remote call, by its position in the run. */
  datatype Env = Env(
    identity: nat -> bool,
    describe: nat -> bool,
    persist: nat -> Outcome,
    deregister: nat -> Outcome,
    deleteSnapshot: nat -> Outcome,
    canceled: nat -> bool)

  ghost predicate Flawless(env: Env)
  {
    forall n :: env.identity(n) && env.describe(n) && env.persist(n).Success? && env.deregister(n).Success?
                && env.deleteSnapshot(n).Success?
  }

  /** Six waits between at most seven tries. */
  const BACKOFFS := 6

  // ---------- uniqueStrings ----------

  /** Trimmed, without blanks and repetitions, in first-occurrence order. */
  function UniqueStrings(values: seq<string>): seq<string>
  {
    if values == [] then []
    else
      var r := UniqueStrings(values[..|values| - 1]);
      var v := TrimSpace(values[|values| - 1]);
      if v == "" || v in r then r else r + [v]
  }

  lemma {:induction false} UniqueStringsFacts(values: seq<string>)
    ensures Distinct(UniqueStrings(values))
    ensures forall y :: y in UniqueStrings(values) <==>
              y != "" && exists i :: 0 <= i < |values| && TrimSpace(values[i]) == y
  {
    if values != [] {
      var n := |values| - 1;
      var front := values[..n];
      UniqueStringsFacts(front);
      assert forall i :: 0 <= i < n ==> front[i] == values[i];
      forall y ensures y in UniqueStrings(values) <==>
          y != "" && exists i :: 0 <= i < |values| && TrimSpace(values[i]) == y {
        if y in UniqueStrings(front) {
          var i :| 0 <= i < |front| && TrimSpace(front[i]) == y;
          assert TrimSpace(values[i]) == y;
        }
        if i :| y != "" && 0 <= i < |values| && TrimSpace(values[i]) == y {
          assert i == n || TrimSpace(front[i]) == y;
        }
      }
    }
  }

  method UniqueStringsOf(values: seq<string>) returns (out: seq<string>)
    ensures out == UniqueStrings(values)
  {
    var seen: set<string> := {};
    out := [];
    for i := 0 to |values|
      invariant forall y :: y in seen <==> y in out
      invariant out == UniqueStrings(values[..i])
    {
      assert values[..i + 1][..i] == values[..i];
      var value := TrimSpace(values[i]);
      if value != "" && value !in seen {
        seen := seen + {value};
        out := out + [value];
      }
    }
    assert values[..|values|] == values;
  }

  /** Identifiers as AWS issues them survive trimming. */
  ghost predicate Clean(ids: set<string>)
  {
    forall id :: id in ids ==> id != "" && TrimSpace(id) == id
  }

  lemma UnionKept(fallback: seq<string>, listed: seq<string>, ids: set<string>)
    requires Clean(ids)
    ensures (forall id :: id in ids ==> id in fallback || id in listed)
            ==> forall id :: id in ids ==> id in UniqueStrings(fallback + listed)
  {
    var all := fallback + listed;
    UniqueStringsFacts(all);
    if forall id :: id in ids ==> id in fallback || id in listed {
      forall id | id in ids ensures id in UniqueStrings(all) {
        assert id in all;
        var i :| 0 <= i < |all| && all[i] == id;
        assert TrimSpace(all[i]) == id;
      }
    }
  }

  // ---------- the account that owns the checkpoint ----------

  class Cloud {
    const env: Env
    const owner: string
    const caller: string
    ghost const backing: set<string>
    var registered: bool
    var mapping: seq<string>
    var snapshots: set<string>
    var persisted: seq<string>
    var calls: nat

    constructor (env: Env, owner: string, caller: string, registered: bool, mapping: seq<string>,
                 ghost backing: set<string>, snapshots: set<string>, persisted: seq<string>)
      requires Clean(backing) && (registered ==> backing <= set id | id in mapping)
      ensures this.env == env && this.owner == owner && this.caller == caller && this.backing == backing
      ensures this.registered == registered && this.mapping == mapping && this.snapshots == snapshots
      ensures this.persisted == persisted && Valid()
    {
      this.env, this.owner, this.caller, this.backing := env, owner, caller, backing;
      this.registered, this.mapping, this.snapshots, this.persisted, this.calls :=
          registered, mapping, snapshots, persisted, 0;
    }

    /** `backing` is every snapshot behind the image; the image lists them while registered. */
    ghost predicate Valid()
      reads this
    {
      Clean(backing) && (registered ==> forall id :: id in backing ==> id in mapping)
    }

    /** The image still knows its snapshots, or the durable record does. */
    ghost predicate Recoverable()
      reads this
    {
      registered || forall id :: id in backing ==> id in persisted
    }

    /** A blank expectation is not checked. */
    method GuardAccount(expected: string) returns (ok: bool)
      modifies this`calls
      ensures ok ==> TrimSpace(expected) == "" || TrimSpace(expected) == caller
      ensures Flawless(env) ==> (ok <==> TrimSpace(expected) == "" || TrimSpace(expected) == caller)
    {
      var trimmed := TrimSpace(expected);
      if trimmed == "" {
        return true;
      }
      calls := calls + 1;
      ok := env.identity(calls) && caller == trimmed;
    }

    /** Deletes, retrying a bounded number of times. A snapshot that this account does not have, gone or
        another's, answers "not found", which counts as success, or with any other error. */
    method DeleteSnapshotWithRetry(id: string) returns (ok: bool)
      modifies this`calls, this`snapshots
      ensures snapshots == old(snapshots) || snapshots == old(snapshots) - {id}
      ensures caller != owner ==> snapshots == old(snapshots)
      ensures ok && caller == owner ==> id !in snapshots
      ensures Flawless(env) ==> ok
    {
      for attempt := 0 to BACKOFFS + 1
        invariant snapshots == old(snapshots) || snapshots == old(snapshots) - {id}
        invariant caller != owner ==> snapshots == old(snapshots)
        invariant Flawless(env) ==> attempt == 0
      {
        calls := calls + 1;
        var outcome := env.deleteSnapshot(calls);
        if caller == owner && (outcome.Success? || outcome.effect) {
          snapshots := snapshots - {id};
        }
        if outcome.Success? {
          return true;
        }
        if outcome.Fatal? || env.canceled(calls) {
          return false;
        }
      }
      ok := false;
    }

    /** An image that is not there answers "not found", which is not an error here. */
    method Deregister() returns (ok: bool)
      modifies this`calls, this`registered
      ensures registered ==> old(registered)
      ensures caller != owner ==> registered == old(registered)
      ensures ok && caller == owner ==> !registered
      ensures Flawless(env) ==> ok
    {
      calls := calls + 1;
      var outcome := env.deregister(calls);
      if caller == owner && (outcome.Success? || outcome.effect) {
        registered := false;
      }
      ok := outcome.Success?;
    }

    method DeleteSnapshots(ids: seq<string>) returns (ok: bool)
      modifies this`calls, this`snapshots
      ensures snapshots <= old(snapshots)
      ensures caller != owner ==> snapshots == old(snapshots)
      ensures ok && caller == owner ==> forall i :: 0 <= i < |ids| ==> ids[i] !in snapshots
      ensures Flawless(env) ==> ok
    {
      ok := true;
      for i := 0 to |ids|
        invariant ok && snapshots <= old(snapshots)
        invariant caller != owner ==> snapshots == old(snapshots)
        invariant caller == owner ==> forall j :: 0 <= j < i ==> ids[j] !in snapshots
      {
        ok := DeleteSnapshotWithRetry(ids[i]);
        if !ok {
          return;
        }
      }
    }

    /** The recorded ids joined with those the image lists; nothing without an owner to ask. */
    method CollectSnapshotIDs(fallback: seq<string>, expected: string) returns (ids: seq<string>)
      requires Valid() && (registered || forall id :: id in backing ==> id in fallback)
      modifies this`calls
      ensures ids != [] ==> caller == owner || !registered ==> forall id :: id in backing ==> id in ids
      ensures ids != [] && !(caller == owner && registered) ==> expected != ""
      ensures Flawless(env) ==>
                (ids != [] <==>
                  && ((caller == owner && registered) || expected != "")
                  && UniqueStrings(fallback + (if caller == owner && registered then mapping else [])) != [])
    {
      calls := calls + 1;
      if !env.describe(calls) {
        return [];
      }
      var found := caller == owner && registered;
      if !found && expected == "" {
        return [];
      }
      var listed := if found then mapping else [];
      UnionKept(fallback, listed, backing);
      ids := UniqueStringsOf(fallback + listed);
    }

    /** `fallback` is the list recorded with the checkpoint. */
    method DeleteImageCheckpoint(fallback: seq<string>, expected: string) returns (ok: bool)
      requires Valid()
      requires Recoverable() && persisted == fallback
      modifies this
      // However it ends, with whatever having happened on the way, the snapshots stay recoverable.
      ensures Valid() && Recoverable()
      ensures (registered ==> old(registered)) && snapshots <= old(snapshots)
      // Success in the owner's account leaves none of them.
      ensures ok && caller == owner ==> !registered && forall id :: id in backing ==> id !in snapshots
      // Success elsewhere deletes nothing, and needs an expectation that names that other
      // account or is blank without being empty.
      ensures caller != owner ==> snapshots == old(snapshots) && registered == old(registered)
      ensures ok && caller != owner ==> TrimSpace(expected) == caller || (TrimSpace(expected) == "" && expected != "")
      // When no call fails, these are the only refusals.
      ensures Flawless(env) ==>
                (ok <==>
                  && (TrimSpace(expected) == "" || TrimSpace(expected) == caller)
                  && ((caller == owner && old(registered)) || expected != "")
                  && UniqueStrings(fallback + (if caller == owner && old(registered) then old(mapping) else [])) != [])
    {
      var guarded := GuardAccount(expected);
      if !guarded {
        return false;
      }
      var ids := CollectSnapshotIDs(fallback, expected);
      if ids == [] {
        return false;
      }
      calls := calls + 1;
      var saved := env.persist(calls);
      if saved.Success? || saved.effect {
        persisted := ids;
      }
      if !saved.Success? {
        return false;
      }
      ok := Deregister();
      if ok {
        ok := DeleteSnapshots(ids);
      }
    }
  }

  // ---------- what a blank account id costs ----------

  function AlwaysSucceeds(): Env
  {
    Env(_ => true, _ => true, _ => Success, _ => Success, _ => Success, _ => false)
  }

  /** The promise that a successful run leaves no snapshot holds for every expectation that is
      empty or, trimmed, names the owner (see above); every other blank one breaks it.  Here the
      deletion reports success from another account while the owner's snapshot is still there. */
  method BlankAccountReportsSuccess(expected: string) returns (ok: bool, cloud: Cloud)
    requires TrimSpace(expected) == "" && expected != ""
    ensures ok && cloud.caller != cloud.owner && "snap-1" in cloud.backing && "snap-1" in cloud.snapshots
  {
    cloud := new Cloud(AlwaysSucceeds(), "owner", "other", false, [], {"snap-1"}, {"snap-1"}, ["snap-1"]);
    assert TrimSpace("snap-1") == "snap-1";
    UniqueStringsFacts(["snap-1"]);
    assert "snap-1" in UniqueStrings(["snap-1"] + []) by {
      assert ["snap-1"] + [] == ["snap-1"];
      assert TrimSpace(["snap-1"][0]) == "snap-1";
    }
    ok := cloud.DeleteImageCheckpoint(["snap-1"], expected);
  }
}
