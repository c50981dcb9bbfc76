/**
 * `ActionsScheduler`: the key-value store it works on, the retry timer it keeps
 * in `intervalId`, and the connectivity handlers it registers.
 */
module Scheduler {
  import opened Actions
  import opened Reconcile

  /** What a pass can be observed to do: the store, the calls to the remote, the calls to the cache. */
  datatype Observed = Observed(store: Store, invocations: seq<Invocation>, cacheCalls: seq<seq<Params>>)

  /**
   * `o'` is what one call of `checkPendingActions` makes of `o`. Offline it changes
   * nothing. Online it runs the tasks of the action keys in the order `keys`
   * enumerates them, logs their remote calls, and hands the `deleted` list to
   * `cache.removeFromArrays` once, unless some task rejected.
   */
  ghost predicate PassStep(online: bool, keys: seq<string>, resolves: set<string>, instanceKeyOf: Params -> string,
                           o: Observed, o': Observed)
  {
    if !online then keys == [] && o' == o
    else
      && IsEnumeration(keys, ActionKeysOf(o.store))
      && var r := Run(o.store, keys, resolves, instanceKeyOf);
         o' == Observed(r.store, o.invocations + r.invoked,
                        if r.rejected then o.cacheCalls else o.cacheCalls + [r.completed])
  }

  /**
   * What `PassStep` means, given independent tasks: the store loses exactly the
   * settled keys, the remote is called for exactly the records that get that far,
   * and the cache is told about exactly the completed `cacheParams`, once, or, if
   * some task rejected, not at all.
   */
  lemma PassStepMeaning(keys: seq<string>, resolves: set<string>, instanceKeyOf: Params -> string, o: Observed, o': Observed)
    requires PassStep(true, keys, resolves, instanceKeyOf, o, o')
    requires Independent(o.store, keys, instanceKeyOf)
    ensures o'.store == o.store - Settled(o.store, keys, resolves, instanceKeyOf)
    ensures o'.invocations == o.invocations + Invocations(o.store, keys, resolves, instanceKeyOf)
    ensures !AnyRejected(o.store, keys, resolves, instanceKeyOf)
            ==> o'.cacheCalls == o.cacheCalls + [DoneParams(o.store, keys, resolves, instanceKeyOf)]
    ensures AnyRejected(o.store, keys, resolves, instanceKeyOf) ==> o'.cacheCalls == o.cacheCalls
  {
    RunIdeal(o.store, keys, resolves, instanceKeyOf);
  }

  class ActionsScheduler {
    /** The key-value store (`storage`). */
    var store: Store
    /** `config.networkState.isOnline`. */
    var online: bool
    /** The handle of the last interval started, if any. */
    var intervalId: Option<nat>
    /** The intervals the host has running (those not yet cleared). */
    var timers: set<nat>
    /** The handle the host gives the next interval. */
    var nextHandle: nat
    /** `getActionKey` and `getInstanceKey` with the configuration applied. */
    const actionKeyOf: Params -> string
    const instanceKeyOf: Params -> string
    /** Every call to the remote invoker, in order. */
    ghost var invocations: seq<Invocation>
    /** The argument of every call to `cache.removeFromArrays`, in order. */
    ghost var cacheCalls: seq<seq<Params>>

    /** Handles the host gives out are never reused. */
    ghost predicate Valid()
      reads this
    {
      && (forall h :: h in timers ==> h < nextHandle)
      && (intervalId.Some? ==> intervalId.value < nextHandle)
    }

    ghost function Observation(): Observed
      reads this
    {
      Observed(store, invocations, cacheCalls)
    }

    /**
     * Online at construction: start the timer, then run a pass. The online and
     * offline handlers are the methods `OnOnline` and `OnOffline`.
     */
    constructor (storage: Store, isOnline: bool, actionKeyOf: Params -> string, instanceKeyOf: Params -> string,
                 resolves: set<string>)
      ensures Valid()
      ensures this.actionKeyOf == actionKeyOf && this.instanceKeyOf == instanceKeyOf && online == isOnline
      ensures !isOnline ==> && Observation() == Observed(storage, [], [])
                            && intervalId == None && timers == {} && nextHandle == 0
      ensures isOnline ==> && intervalId == Some(0) && timers == {0} && nextHandle == 1
                           && exists keys :: PassStep(true, keys, resolves, instanceKeyOf, Observed(storage, [], []), Observation())
    {
      this.store := storage;
      this.online := isOnline;
      this.intervalId := None;
      this.timers := {};
      this.nextHandle := 0;
      this.actionKeyOf := actionKeyOf;
      this.instanceKeyOf := instanceKeyOf;
      this.invocations := [];
      this.cacheCalls := [];
      new;
      if isOnline {
        EnableAttempts();
        ghost var keys := CheckPendingActions(resolves);
      }
    }

    /** `storage.keys()`: every stored key once, in an order the store chooses. */
    method StorageKeys() returns (keys: seq<string>)
      ensures IsEnumeration(keys, store.Keys)
    {
      keys := [];
      var rest := store.Keys;
      while rest != {}
        invariant rest <= store.Keys
        invariant forall k :: k in keys <==> k in store && k !in rest
        invariant Distinct(keys)
        decreases |rest|
      {
        var k :| k in rest;
        keys := keys + [k];
        rest := rest - {k};
      }
    }

    /**
     * `checkPendingActions`. Offline it returns at once. Online it selects the
     * action keys and runs, for each, `AttemptAction`; `keys` is the
     * order they were taken in and `resolves` the keys whose HTTP phase resolves.
     */
    method CheckPendingActions(resolves: set<string>) returns (ghost keys: seq<string>)
      modifies this`store, this`invocations, this`cacheCalls
      ensures PassStep(online, keys, resolves, instanceKeyOf, old(Observation()), Observation())
      ensures !online ==> Observation() == old(Observation())
    {
      if !online {
        keys := [];
        return;
      }
      var all := StorageKeys();
      var selected := SelectActionKeys(all);
      SelectEnumeratesActionKeys(all, store);
      keys := selected;
      ghost var s0, calls0 := store, invocations;
      var deleted: seq<Params> := [];
      var rejected := false;
      for i := 0 to |selected|
        invariant var r := Run(s0, selected[..i], resolves, instanceKeyOf);
          && store == r.store && deleted == r.completed && rejected == r.rejected
          && invocations == calls0 + r.invoked
        invariant cacheCalls == old(cacheCalls)
      {
        RunStep(s0, selected, i, resolves, instanceKeyOf);
        deleted, rejected := AttemptAction(selected[i], resolves, calls0, Run(s0, selected[..i], resolves, instanceKeyOf),
                                           deleted, rejected);
      }
      assert selected[..|selected|] == selected;
      if !rejected {
        cacheCalls := cacheCalls + [deleted];
      }
    }

    /**
     * The task `checkPendingActions` starts for one action key: read the record,
     * read its snapshot, drop a stale record, otherwise call the remote and, when
     * the HTTP phase resolves, delete record and snapshot and report `cacheParams`.
     * `p` is what the earlier tasks built up; the result is `Reconcile.Task` of it.
     */
    method AttemptAction(actionKey: string, resolves: set<string>, ghost calls0: seq<Invocation>, ghost p: Pass,
                         deleted: seq<Params>, rejected: bool) returns (deleted': seq<Params>, rejected': bool)
      requires store == p.store && deleted == p.completed && rejected == p.rejected && invocations == calls0 + p.invoked
      modifies this`store, this`invocations
      ensures var r := Task(p, actionKey, resolves, instanceKeyOf);
        && store == r.store && deleted' == r.completed && rejected' == r.rejected
        && invocations == calls0 + r.invoked
    {
      deleted', rejected' := deleted, rejected;
      ghost var outcome := OutcomeOf(store, actionKey, resolves, instanceKeyOf);
      var item := GetItem(store, actionKey);
      if !item.Record? {
        // `action.cacheParams` throws for `null`, and other non-record values are
        // treated the same: this task's promise rejects
        assert outcome == Unreadable;
        rejected' := true;
        return;
      }
      var action := item.pending;
      var instanceKey := instanceKeyOf(action.cacheParams);
      var instance := GetItem(store, instanceKey);
      if !Truthy(instance) {
        assert outcome == Stale;
        store := store - {actionKey};
        return;
      }
      var call := Invocation(actionKey, action.action, action.httpParams, instance);
      assert calls0 + (p.invoked + [call]) == invocations + [call];
      invocations := invocations + [call];
      if actionKey in resolves {
        assert outcome == Done;
        store := store - {actionKey};
        store := store - {instanceKey};
        deleted' := deleted + [action.cacheParams];
      } else {
        // `await resource.$httpPromise` throws
        assert outcome == Rejected;
        rejected' := true;
      }
    }

    /** `addAction`: the record is stored under its action key, replacing any earlier one. */
    method AddAction(cacheParams: Params, action: PendingAction)
      modifies this`store
      ensures store == old(store)[actionKeyOf(cacheParams) := Record(action)]
    {
      store := store[actionKeyOf(cacheParams) := Record(action)];
    }

    /** `removeAction`: the action key is gone; nothing happens when it was absent. */
    method RemoveAction(cacheParams: Params)
      modifies this`store
      ensures store == old(store) - {actionKeyOf(cacheParams)}
      ensures actionKeyOf(cacheParams) !in old(store) ==> store == old(store)
    {
      store := store - {actionKeyOf(cacheParams)};
    }

    /**
     * `clear`: the source filters the key list by the action prefix but discards
     * the result, and then deletes every key it listed.
     */
    method Clear()
      modifies this`store
      ensures store == map[]
    {
      var keys := StorageKeys();
      for i := 0 to |keys|
        invariant forall k :: k in store <==> k in old(store) && k !in keys[..i]
      {
        store := store - {keys[i]};
      }
      assert store.Keys == {};
    }

    /** `enableAttempts`: a new interval is started; the one `intervalId` held before keeps running. */
    method EnableAttempts()
      requires Valid()
      modifies this`intervalId, this`timers, this`nextHandle
      ensures Valid()
      ensures intervalId == Some(old(nextHandle)) && nextHandle == old(nextHandle) + 1
      ensures timers == old(timers) + {old(nextHandle)} && |timers| == |old(timers)| + 1
    {
      intervalId := Some(nextHandle);
      timers := timers + {nextHandle};
      nextHandle := nextHandle + 1;
    }

    /** `disableAttempts`: only the interval in `intervalId` is cleared; clearing it twice is harmless. */
    method DisableAttempts()
      requires Valid()
      modifies this`timers
      ensures Valid()
      ensures timers == if intervalId.Some? then old(timers) - {intervalId.value} else old(timers)
    {
      if intervalId.Some? {
        timers := timers - {intervalId.value};
      }
    }

    /** The online handler: the network flag turns on, a pass runs, then a new interval starts. */
    method OnOnline(resolves: set<string>) returns (ghost keys: seq<string>)
      requires Valid()
      modifies this`online, this`store, this`invocations, this`cacheCalls, this`intervalId, this`timers, this`nextHandle
      ensures Valid() && online
      ensures PassStep(true, keys, resolves, instanceKeyOf, old(Observation()), Observation())
      ensures intervalId == Some(old(nextHandle)) && nextHandle == old(nextHandle) + 1
      ensures timers == old(timers) + {old(nextHandle)} && |timers| == |old(timers)| + 1
    {
      online := true;
      keys := CheckPendingActions(resolves);
      EnableAttempts();
    }

    /** The offline handler: the network flag turns off and the current interval is cleared. */
    method OnOffline()
      requires Valid()
      modifies this`online, this`timers
      ensures Valid() && !online
      ensures timers == if intervalId.Some? then old(timers) - {intervalId.value} else old(timers)
    {
      online := false;
      DisableAttempts();
    }

    /** A running interval fires: it runs a pass, which is a no-op while offline. */
    method Tick(handle: nat, resolves: set<string>) returns (ghost keys: seq<string>)
      requires handle in timers
      modifies this`store, this`invocations, this`cacheCalls
      ensures PassStep(online, keys, resolves, instanceKeyOf, old(Observation()), Observation())
    {
      keys := CheckPendingActions(resolves);
    }
  }

  /** `addAction` followed by `removeAction` for the same target leaves no record for it. */
  method AddThenRemove(scheduler: ActionsScheduler, cacheParams: Params, action: PendingAction)
    modifies scheduler`store
    ensures scheduler.actionKeyOf(cacheParams) !in scheduler.store
    ensures scheduler.store == old(scheduler.store) - {scheduler.actionKeyOf(cacheParams)}
  {
    scheduler.AddAction(cacheParams, action);
    scheduler.RemoveAction(cacheParams);
  }

  /**
   * Two online events with no offline event between them leave two intervals
   * running, and the offline event that follows clears only one of them.
   */
  method RepeatedOnline(storage: Store, resolves: set<string>)
  {
    var scheduler := new ActionsScheduler(storage, false, p => "action", p => "instance", resolves);
    ghost var first := scheduler.OnOnline(resolves);
    assert scheduler.timers == {0} && scheduler.nextHandle == 1;
    ghost var second := scheduler.OnOnline(resolves);
    assert scheduler.timers == {0, 1} && scheduler.intervalId == Some(1);
    scheduler.OnOffline();
    assert scheduler.timers == {0};
  }

  /** Online, offline, online leaves exactly one interval running. */
  method ToggledOnline(storage: Store, resolves: set<string>)
  {
    var scheduler := new ActionsScheduler(storage, false, p => "action", p => "instance", resolves);
    ghost var first := scheduler.OnOnline(resolves);
    assert scheduler.timers == {0} && scheduler.intervalId == Some(0) && scheduler.nextHandle == 1;
    scheduler.OnOffline();
    assert scheduler.timers == {};
    ghost var second := scheduler.OnOnline(resolves);
    assert scheduler.timers == {1};
  }

  /**
   * Queued while offline, replayed on reconnect: the record waits in the store
   * with no remote call; the online event calls the remote for it at once,
   * without waiting for the interval, and starts the interval.
   */
  method ReplayOnReconnect()
  {
    var target: Params := map["id" := "1"];
    var storage: Store := map["instance:1" := Snapshot("{id: 1}")];
    var scheduler := new ActionsScheduler(storage, false, p => "action:1", p => "instance:1", {});
    scheduler.AddAction(target, PendingAction("sync", map[], target));
    assert ActionKeysOf(scheduler.store) == {"action:1"} by {
      assert "instance:1"[0] == 'i' && ActionPrefix[0] == 'a';
      assert IsActionKey("action:1") && !IsActionKey("instance:1");
    }
    assert |scheduler.invocations| == 0;
    ghost var before := scheduler.store;
    ghost var keys := scheduler.OnOnline({"action:1"});
    SingletonEnumeration(keys, "action:1");
    assert keys[..0] == [];
    assert before.Keys == {"action:1", "instance:1"};
    assert OutcomeOf(before, "action:1", {"action:1"}, scheduler.instanceKeyOf) == Done;
    assert Run(before, keys[..0], {"action:1"}, scheduler.instanceKeyOf) == Pass(before, [], false, []);
    ghost var r := Run(before, keys, {"action:1"}, scheduler.instanceKeyOf);
    assert r == Task(Pass(before, [], false, []), "action:1", {"action:1"}, scheduler.instanceKeyOf);
    assert r.store == before - {"action:1"} - {"instance:1"};
    assert r.completed == [target] && !r.rejected;
    assert |scheduler.invocations| == 1 && scheduler.timers == {0};
    assert scheduler.store == map[] && scheduler.cacheCalls == [[target]];
  }
}
