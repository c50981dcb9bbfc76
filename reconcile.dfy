/**
 * One reconciliation pass (`checkPendingActions` after its online check) as a
 * function of the store, the selected keys, the per-key outcome of the remote
 * call and the instance-key derivation.
 *
 * The source runs one asynchronous task per selected key and joins them with
 * `Promise.all`. Here the tasks run one after the other in the order the keys
 * were enumerated; `RunIdeal` and `PassOrderIrrelevant` show that, as long as
 * the tasks touch disjoint keys, neither the order nor the sequencing matters.
 */
module Reconcile {
  import opened Actions

  /** One call of the remote invoker; `key` names the record it was made for. */
  datatype Invocation = Invocation(key: string, action: string, httpParams: Params, instance: Value)

  /**
   * The state a pass builds up: the store, the `deleted` list, whether some task
   * rejected (so that `Promise.all` rejects), and the calls made to the remote.
   */
  datatype Pass = Pass(store: Store, completed: seq<Params>, rejected: bool, invoked: seq<Invocation>)

  /** How the task for one selected key ends. */
  datatype Outcome =
    | Unreadable  // the stored value has no `cacheParams`: the task throws before any effect
    | Stale       // the instance snapshot is falsy: the record is dropped, the remote is not called
    | Rejected    // the HTTP phase rejects: nothing is deleted
    | Done        // the HTTP phase resolves: record and snapshot are deleted

  predicate HoldsRecord(s: Store, key: string) {
    GetItem(s, key).Record?
  }

  function PendingAt(s: Store, key: string): PendingAction
    requires HoldsRecord(s, key)
  {
    GetItem(s, key).pending
  }

  /** `getInstanceKey(config, action.cacheParams)` for the record stored under `key`. */
  function InstanceKeyAt(s: Store, key: string, instanceKeyOf: Params -> string): string
    requires HoldsRecord(s, key)
  {
    instanceKeyOf(PendingAt(s, key).cacheParams)
  }

  /** `resolves` is the oracle for the remote: the keys whose HTTP phase resolves in this pass. */
  function OutcomeOf(s: Store, key: string, resolves: set<string>, instanceKeyOf: Params -> string): Outcome {
    if !HoldsRecord(s, key) then Unreadable
    else if !Truthy(GetItem(s, InstanceKeyAt(s, key, instanceKeyOf))) then Stale
    else if key in resolves then Done
    else Rejected
  }

  function InvocationAt(s: Store, key: string, instanceKeyOf: Params -> string): Invocation
    requires HoldsRecord(s, key)
  {
    var a := PendingAt(s, key);
    Invocation(key, a.action, a.httpParams, GetItem(s, InstanceKeyAt(s, key, instanceKeyOf)))
  }

  /**
   * The task of one selected key, run against the state left by the earlier ones.
   * It only deletes, leaving every key it keeps with its value; it
   * calls the remote at most once and reports a completion only after a call; it
   * makes the pass reject exactly when the record is unreadable or the call rejects.
   */
  function Task(p: Pass, key: string, resolves: set<string>, instanceKeyOf: Params -> string): (r: Pass)
    ensures forall x :: x in r.store ==> x in p.store && r.store[x] == p.store[x]
    ensures OutcomeOf(p.store, key, resolves, instanceKeyOf) in {Stale, Done} ==> key !in r.store
    ensures r.rejected <==> p.rejected || OutcomeOf(p.store, key, resolves, instanceKeyOf) in {Unreadable, Rejected}
    ensures p.completed <= r.completed && p.invoked <= r.invoked
    ensures |r.completed| - |p.completed| <= |r.invoked| - |p.invoked| <= 1
  {
    var s := p.store;
    match OutcomeOf(s, key, resolves, instanceKeyOf)
    case Unreadable => p.(rejected := true)
    case Stale => p.(store := s - {key})
    case Rejected =>
      p.(rejected := true, invoked := p.invoked + [InvocationAt(s, key, instanceKeyOf)])
    case Done =>
      p.(store := s - {key} - {InstanceKeyAt(s, key, instanceKeyOf)},
         completed := p.completed + [PendingAt(s, key).cacheParams],
         invoked := p.invoked + [InvocationAt(s, key, instanceKeyOf)])
  }

  /**
   * The tasks of `keys`, in order, starting from store `s` and an empty `deleted`
   * list. The remote is called only for selected keys, at most once per key when
   * they do not repeat, and there are no more completions than remote calls.
   */
  function Run(s: Store, keys: seq<string>, resolves: set<string>, instanceKeyOf: Params -> string): (r: Pass)
    ensures |r.completed| <= |r.invoked| <= |keys|
    ensures forall c :: c in r.invoked ==> c.key in keys
    ensures Distinct(keys) ==> forall i, j :: 0 <= i < j < |r.invoked| ==> r.invoked[i].key != r.invoked[j].key
    ensures r.rejected ==> keys != []
    decreases |keys|
  {
    if keys == [] then Pass(s, [], false, [])
    else
      PrefixDistinct(keys);
      Task(Run(s, keys[..|keys| - 1], resolves, instanceKeyOf), keys[|keys| - 1], resolves, instanceKeyOf)
  }

  /** One more key is one more task. */
  lemma RunStep(s: Store, keys: seq<string>, i: nat, resolves: set<string>, instanceKeyOf: Params -> string)
    requires i < |keys|
    ensures Run(s, keys[..i + 1], resolves, instanceKeyOf)
      == Task(Run(s, keys[..i], resolves, instanceKeyOf), keys[i], resolves, instanceKeyOf)
  {
    assert keys[..i + 1][..i] == keys[..i];
  }

  // ---------------------------------------------------------------------------
  // The pass judged key by key against the store it started from

  /** Keys a pass deletes when every task sees the store as it was at the start. */
  function Settled(s: Store, keys: seq<string>, resolves: set<string>, instanceKeyOf: Params -> string): set<string> {
    (set k | k in keys && OutcomeOf(s, k, resolves, instanceKeyOf) in {Stale, Done})
    + (set k | k in keys && OutcomeOf(s, k, resolves, instanceKeyOf) == Done :: InstanceKeyAt(s, k, instanceKeyOf))
  }

  /** The `cacheParams` of the records that complete, in the order of `keys`. */
  function DoneParams(s: Store, keys: seq<string>, resolves: set<string>, instanceKeyOf: Params -> string): seq<Params>
    decreases |keys|
  {
    if keys == [] then []
    else
      var k := keys[|keys| - 1];
      DoneParams(s, keys[..|keys| - 1], resolves, instanceKeyOf)
      + (if OutcomeOf(s, k, resolves, instanceKeyOf) == Done then [PendingAt(s, k).cacheParams] else [])
  }

  /** The remote calls made for `keys`, in order. */
  function Invocations(s: Store, keys: seq<string>, resolves: set<string>, instanceKeyOf: Params -> string): seq<Invocation>
    decreases |keys|
  {
    if keys == [] then []
    else
      var k := keys[|keys| - 1];
      Invocations(s, keys[..|keys| - 1], resolves, instanceKeyOf)
      + (if OutcomeOf(s, k, resolves, instanceKeyOf) in {Rejected, Done} then [InvocationAt(s, k, instanceKeyOf)] else [])
  }

  predicate AnyRejected(s: Store, keys: seq<string>, resolves: set<string>, instanceKeyOf: Params -> string) {
    exists k :: k in keys && OutcomeOf(s, k, resolves, instanceKeyOf) in {Unreadable, Rejected}
  }

  /** `x` is stored in `t` exactly when it is stored in `s`, and with the same value. */
  predicate Untouched(s: Store, t: Store, x: string) {
    (x in t <==> x in s) && (x in s ==> t[x] == s[x])
  }

  /**
   * The tasks of `keys` touch disjoint keys: no key is selected twice, no record's
   * instance key is itself a selected key, and no two records share an instance key.
   */
  ghost predicate Independent(s: Store, keys: seq<string>, instanceKeyOf: Params -> string) {
    && Distinct(keys)
    && (forall k, x :: k in keys && x in keys && HoldsRecord(s, k) ==> InstanceKeyAt(s, k, instanceKeyOf) != x)
    && (forall k, k' :: k in keys && k' in keys && k != k' && HoldsRecord(s, k) && HoldsRecord(s, k')
          ==> InstanceKeyAt(s, k, instanceKeyOf) != InstanceKeyAt(s, k', instanceKeyOf))
  }

  // ---------------------------------------------------------------------------
  // Lemmas

  /**
   * A pass only deletes. What it deletes is a selected key or the instance key of
   * a `cacheParams` it reports as completed; every other key keeps its value.
   */
  lemma {:induction false} RunOnlyRemoves(s: Store, keys: seq<string>, resolves: set<string>, instanceKeyOf: Params -> string)
    ensures var r := Run(s, keys, resolves, instanceKeyOf);
      forall x :: x in r.store ==> x in s && r.store[x] == s[x]
    ensures var r := Run(s, keys, resolves, instanceKeyOf);
      forall x :: x in s && x !in r.store ==> x in keys || exists q :: q in r.completed && instanceKeyOf(q) == x
    decreases |keys|
  {
    if keys != [] {
      var init, k := keys[..|keys| - 1], keys[|keys| - 1];
      RunOnlyRemoves(s, init, resolves, instanceKeyOf);
      var p := Run(s, init, resolves, instanceKeyOf);
      var r := Run(s, keys, resolves, instanceKeyOf);
      assert r == Task(p, k, resolves, instanceKeyOf);
      assert forall x :: x in init ==> x in keys;
      forall x | x in s && x !in r.store
        ensures x in keys || exists q :: q in r.completed && instanceKeyOf(q) == x
      {
        if x in p.store {
          if x != k {
            assert OutcomeOf(p.store, k, resolves, instanceKeyOf) == Done;
            assert x == instanceKeyOf(PendingAt(p.store, k).cacheParams);
            assert PendingAt(p.store, k).cacheParams in r.completed;
          }
        } else if x !in init {
          var q :| q in p.completed && instanceKeyOf(q) == x;
          assert q in r.completed;
        }
      }
    }
  }

  /**
   * When the tasks are independent, running them one after the other gives what
   * judging every key against the initial store gives: the store loses exactly the
   * settled keys, `deleted` lists the completed records' `cacheParams`, and the
   * pass rejects exactly when some task does.
   */
  lemma {:induction false} RunIdeal(s: Store, keys: seq<string>, resolves: set<string>, instanceKeyOf: Params -> string)
    requires Independent(s, keys, instanceKeyOf)
    ensures Run(s, keys, resolves, instanceKeyOf).store == s - Settled(s, keys, resolves, instanceKeyOf)
    ensures Run(s, keys, resolves, instanceKeyOf).completed == DoneParams(s, keys, resolves, instanceKeyOf)
    ensures Run(s, keys, resolves, instanceKeyOf).invoked == Invocations(s, keys, resolves, instanceKeyOf)
    ensures Run(s, keys, resolves, instanceKeyOf).rejected == AnyRejected(s, keys, resolves, instanceKeyOf)
  {
    RunIdealStore(s, keys, resolves, instanceKeyOf);
    RunIdealLog(s, keys, resolves, instanceKeyOf);
  }

  /** The store part of `RunIdeal`. */
  lemma {:induction false} RunIdealStore(s: Store, keys: seq<string>, resolves: set<string>, instanceKeyOf: Params -> string)
    requires Independent(s, keys, instanceKeyOf)
    ensures Run(s, keys, resolves, instanceKeyOf).store == s - Settled(s, keys, resolves, instanceKeyOf)
    decreases |keys|
  {
    if keys == [] {
      assert Settled(s, keys, resolves, instanceKeyOf) == {};
    } else {
      var init, k := keys[..|keys| - 1], keys[|keys| - 1];
      PrefixIndependent(s, keys, instanceKeyOf);
      RunIdealStore(s, init, resolves, instanceKeyOf);
      var p := Run(s, init, resolves, instanceKeyOf);
      TaskSeesStart(s, keys, p.store, resolves, instanceKeyOf);
      SettledStep(s, keys, resolves, instanceKeyOf);
      var before := Settled(s, init, resolves, instanceKeyOf);
      match OutcomeOf(s, k, resolves, instanceKeyOf)
      case Unreadable =>
      case Stale =>
        assert s - before - {k} == s - (before + {k});
      case Rejected =>
      case Done =>
        var ik := InstanceKeyAt(s, k, instanceKeyOf);
        assert s - before - {k} - {ik} == s - (before + {k, ik});
    }
  }

  /** The `deleted` list, the remote calls and the rejection part of `RunIdeal`. */
  lemma {:induction false} RunIdealLog(s: Store, keys: seq<string>, resolves: set<string>, instanceKeyOf: Params -> string)
    requires Independent(s, keys, instanceKeyOf)
    ensures Run(s, keys, resolves, instanceKeyOf).completed == DoneParams(s, keys, resolves, instanceKeyOf)
    ensures Run(s, keys, resolves, instanceKeyOf).invoked == Invocations(s, keys, resolves, instanceKeyOf)
    ensures Run(s, keys, resolves, instanceKeyOf).rejected == AnyRejected(s, keys, resolves, instanceKeyOf)
    decreases |keys|
  {
    if keys != [] {
      var init := keys[..|keys| - 1];
      PrefixIndependent(s, keys, instanceKeyOf);
      RunIdealLog(s, init, resolves, instanceKeyOf);
      RunIdealStore(s, init, resolves, instanceKeyOf);
      TaskSeesStart(s, keys, Run(s, init, resolves, instanceKeyOf).store, resolves, instanceKeyOf);
      AnyRejectedStep(s, keys, resolves, instanceKeyOf);
    }
  }

  /** Dropping the last key keeps the tasks independent and never lists the last key again. */
  lemma PrefixIndependent(s: Store, keys: seq<string>, instanceKeyOf: Params -> string)
    requires Independent(s, keys, instanceKeyOf) && keys != []
    ensures Independent(s, keys[..|keys| - 1], instanceKeyOf)
    ensures keys[|keys| - 1] !in keys[..|keys| - 1]
    ensures forall x :: x in keys <==> x in keys[..|keys| - 1] || x == keys[|keys| - 1]
  {
    PrefixDistinct(keys);
    var init := keys[..|keys| - 1];
    forall k, x | k in init && x in init && HoldsRecord(s, k)
      ensures InstanceKeyAt(s, k, instanceKeyOf) != x
    {
      assert k in keys && x in keys;
    }
    forall k, k' | k in init && k' in init && k != k' && HoldsRecord(s, k) && HoldsRecord(s, k')
      ensures InstanceKeyAt(s, k, instanceKeyOf) != InstanceKeyAt(s, k', instanceKeyOf)
    {
      assert k in keys && k' in keys;
    }
  }

  /** The last element of a list is not among the others when the list has no repetitions. */
  lemma PrefixDistinct(keys: seq<string>)
    requires keys != []
    ensures forall x :: x in keys <==> x in keys[..|keys| - 1] || x == keys[|keys| - 1]
    ensures Distinct(keys) ==> Distinct(keys[..|keys| - 1]) && keys[|keys| - 1] !in keys[..|keys| - 1]
  {
    var init, k := keys[..|keys| - 1], keys[|keys| - 1];
    assert keys == init + [k];
    if Distinct(keys) {
      assert Distinct(init) by {
        forall i, j | 0 <= i < j < |init| ensures init[i] != init[j] {
          assert init[i] == keys[i] && init[j] == keys[j];
        }
      }
      assert k !in init by {
        forall j | 0 <= j < |init| ensures init[j] != k {
          assert init[j] == keys[j];
        }
      }
    }
  }

  /** Taking one element out of a list without repetitions. */
  lemma RemoveAt(keys: seq<string>, j: nat)
    requires Distinct(keys) && j < |keys|
    ensures var rest := keys[..j] + keys[j + 1..];
      && Distinct(rest)
      && keys[j] !in rest
      && (forall x :: x in keys <==> x in rest || x == keys[j])
      && keys == keys[..j] + [keys[j]] + keys[j + 1..]
  {
    var rest := keys[..j] + keys[j + 1..];
    assert keys == keys[..j] + [keys[j]] + keys[j + 1..];
    forall a, b | 0 <= a < b < |rest| ensures rest[a] != rest[b] {
      var a' := if a < j then a else a + 1;
      var b' := if b < j then b else b + 1;
      assert rest[a] == keys[a'] && rest[b] == keys[b'];
    }
    forall i | 0 <= i < |rest| ensures rest[i] != keys[j] {
      var i' := if i < j then i else i + 1;
      assert rest[i] == keys[i'];
    }
  }

  /** The settled keys grow, key by key, by what the last key's task deletes. */
  lemma SettledStep(s: Store, keys: seq<string>, resolves: set<string>, instanceKeyOf: Params -> string)
    requires keys != []
    ensures var k := keys[|keys| - 1];
      Settled(s, keys, resolves, instanceKeyOf)
      == Settled(s, keys[..|keys| - 1], resolves, instanceKeyOf)
         + match OutcomeOf(s, k, resolves, instanceKeyOf)
           case Stale => {k}
           case Done => {k, InstanceKeyAt(s, k, instanceKeyOf)}
           case _ => {}
  {
    var init, k := keys[..|keys| - 1], keys[|keys| - 1];
    assert keys == init + [k];
    assert forall x :: x in keys <==> x in init || x == k;
  }

  lemma AnyRejectedStep(s: Store, keys: seq<string>, resolves: set<string>, instanceKeyOf: Params -> string)
    requires keys != []
    ensures AnyRejected(s, keys, resolves, instanceKeyOf)
      == (AnyRejected(s, keys[..|keys| - 1], resolves, instanceKeyOf)
          || OutcomeOf(s, keys[|keys| - 1], resolves, instanceKeyOf) in {Unreadable, Rejected})
  {
    var init, k := keys[..|keys| - 1], keys[|keys| - 1];
    assert keys == init + [k];
    assert forall x :: x in keys <==> x in init || x == k;
  }

  /**
   * With independent tasks, the last key's task finds its record and its snapshot
   * as they were before the pass began.
   */
  lemma TaskSeesStart(s: Store, keys: seq<string>, t: Store, resolves: set<string>, instanceKeyOf: Params -> string)
    requires Independent(s, keys, instanceKeyOf) && keys != []
    requires t == s - Settled(s, keys[..|keys| - 1], resolves, instanceKeyOf)
    ensures var k := keys[|keys| - 1];
      && OutcomeOf(t, k, resolves, instanceKeyOf) == OutcomeOf(s, k, resolves, instanceKeyOf)
      && (HoldsRecord(s, k) ==>
            && PendingAt(t, k) == PendingAt(s, k)
            && InstanceKeyAt(t, k, instanceKeyOf) == InstanceKeyAt(s, k, instanceKeyOf)
            && InvocationAt(t, k, instanceKeyOf) == InvocationAt(s, k, instanceKeyOf))
  {
    var init, k := keys[..|keys| - 1], keys[|keys| - 1];
    PrefixIndependent(s, keys, instanceKeyOf);
    var before := Settled(s, init, resolves, instanceKeyOf);
    forall k' | k' in init && OutcomeOf(s, k', resolves, instanceKeyOf) == Done
      ensures InstanceKeyAt(s, k', instanceKeyOf) != k
    {
      assert k' in keys && k in keys;
    }
    assert k !in before;
    assert GetItem(t, k) == GetItem(s, k);
    if HoldsRecord(s, k) {
      var ik := InstanceKeyAt(s, k, instanceKeyOf);
      forall x | x in init ensures x != ik {
        assert x in keys;
      }
      forall k' | k' in init && OutcomeOf(s, k', resolves, instanceKeyOf) == Done
        ensures InstanceKeyAt(s, k', instanceKeyOf) != ik
      {
        assert k' in keys && k' != k;
      }
      assert ik !in before;
      assert GetItem(t, ik) == GetItem(s, ik);
    }
  }

  /**
   * A stale action loses its record; its snapshot key is left as it was, the
   * remote is not called for it and its `cacheParams` is not reported as completed.
   */
  lemma StaleActionDiscarded(s: Store, keys: seq<string>, resolves: set<string>, instanceKeyOf: Params -> string, k: string)
    requires Independent(s, keys, instanceKeyOf) && k in keys
    requires OutcomeOf(s, k, resolves, instanceKeyOf) == Stale
    ensures var r := Run(s, keys, resolves, instanceKeyOf);
      && k !in r.store
      && Untouched(s, r.store, InstanceKeyAt(s, k, instanceKeyOf))
      && PendingAt(s, k).cacheParams !in r.completed
      && forall c :: c in r.invoked ==> c.key != k
  {
    RunIdeal(s, keys, resolves, instanceKeyOf);
    DoneParamsMembers(s, keys, resolves, instanceKeyOf);
    InvocationsMembers(s, keys, resolves, instanceKeyOf);
    var ik := InstanceKeyAt(s, k, instanceKeyOf);
    assert ik !in Settled(s, keys, resolves, instanceKeyOf) by {
      assert ik !in keys;
      forall k' | k' in keys && OutcomeOf(s, k', resolves, instanceKeyOf) == Done
        ensures InstanceKeyAt(s, k', instanceKeyOf) != ik
      {
      }
    }
  }

  /**
   * An action whose HTTP phase resolves loses both its record and its snapshot,
   * the remote is called for it once with its own data, and its `cacheParams`
   * is reported as completed exactly once.
   */
  lemma CompletedActionCleared(s: Store, keys: seq<string>, resolves: set<string>, instanceKeyOf: Params -> string, k: string)
    requires Independent(s, keys, instanceKeyOf) && k in keys
    requires OutcomeOf(s, k, resolves, instanceKeyOf) == Done
    ensures var r := Run(s, keys, resolves, instanceKeyOf);
      && k !in r.store
      && InstanceKeyAt(s, k, instanceKeyOf) !in r.store
      && multiset(r.completed)[PendingAt(s, k).cacheParams] == 1
      && InvocationAt(s, k, instanceKeyOf) in r.invoked
  {
    RunIdeal(s, keys, resolves, instanceKeyOf);
    InvocationsMembers(s, keys, resolves, instanceKeyOf);
    DoneParamsCount(s, keys, resolves, instanceKeyOf, k);
  }

  /**
   * An action whose HTTP phase rejects keeps its record and its snapshot, and the
   * pass as a whole rejects (so the cache is not told anything).
   */
  lemma RejectedActionKept(s: Store, keys: seq<string>, resolves: set<string>, instanceKeyOf: Params -> string, k: string)
    requires Independent(s, keys, instanceKeyOf) && k in keys
    requires OutcomeOf(s, k, resolves, instanceKeyOf) == Rejected
    ensures var r := Run(s, keys, resolves, instanceKeyOf);
      && Untouched(s, r.store, k)
      && Untouched(s, r.store, InstanceKeyAt(s, k, instanceKeyOf))
      && InvocationAt(s, k, instanceKeyOf) in r.invoked
      && r.rejected
  {
    RunIdeal(s, keys, resolves, instanceKeyOf);
    InvocationsMembers(s, keys, resolves, instanceKeyOf);
    var ik := InstanceKeyAt(s, k, instanceKeyOf);
    assert ik !in Settled(s, keys, resolves, instanceKeyOf) by {
      assert ik !in keys;
      forall k' | k' in keys && OutcomeOf(s, k', resolves, instanceKeyOf) == Done
        ensures InstanceKeyAt(s, k', instanceKeyOf) != ik
      {
      }
    }
  }

  /**
   * An action whose HTTP phase rejected is still pending after the pass, and the
   * next pass, over any enumeration of the action keys then stored, calls the
   * remote for it again with the same action, parameters and snapshot, whatever
   * the remote does then.
   */
  lemma RejectedActionRetried(s: Store, keys: seq<string>, resolves: set<string>, instanceKeyOf: Params -> string,
                              k: string, keys2: seq<string>, nextResolves: set<string>)
    requires IsEnumeration(keys, ActionKeysOf(s)) && Independent(s, keys, instanceKeyOf) && k in keys
    requires OutcomeOf(s, k, resolves, instanceKeyOf) == Rejected
    requires IsEnumeration(keys2, ActionKeysOf(Run(s, keys, resolves, instanceKeyOf).store))
    ensures var r := Run(s, keys, resolves, instanceKeyOf);
      && k in keys2
      && InvocationAt(s, k, instanceKeyOf) in Run(r.store, keys2, nextResolves, instanceKeyOf).invoked
  {
    RejectedActionKept(s, keys, resolves, instanceKeyOf, k);
    RunOnlyRemoves(s, keys, resolves, instanceKeyOf);
    var r := Run(s, keys, resolves, instanceKeyOf);
    var t := r.store;
    assert k in keys2;
    assert forall x :: x in keys2 ==> x in keys && x in t && t[x] == s[x];
    assert Independent(t, keys2, instanceKeyOf) by {
      forall x, y | x in keys2 && y in keys2 && HoldsRecord(t, x)
        ensures InstanceKeyAt(t, x, instanceKeyOf) != y
      {
        assert InstanceKeyAt(t, x, instanceKeyOf) == InstanceKeyAt(s, x, instanceKeyOf);
      }
      forall x, y | x in keys2 && y in keys2 && x != y && HoldsRecord(t, x) && HoldsRecord(t, y)
        ensures InstanceKeyAt(t, x, instanceKeyOf) != InstanceKeyAt(t, y, instanceKeyOf)
      {
        assert InstanceKeyAt(t, x, instanceKeyOf) == InstanceKeyAt(s, x, instanceKeyOf);
        assert InstanceKeyAt(t, y, instanceKeyOf) == InstanceKeyAt(s, y, instanceKeyOf);
      }
    }
    var ik := InstanceKeyAt(s, k, instanceKeyOf);
    assert InstanceKeyAt(t, k, instanceKeyOf) == ik;
    assert InvocationAt(t, k, instanceKeyOf) == InvocationAt(s, k, instanceKeyOf);
    assert OutcomeOf(t, k, nextResolves, instanceKeyOf) in {Rejected, Done};
    RunIdeal(t, keys2, nextResolves, instanceKeyOf);
    InvocationsMembers(t, keys2, nextResolves, instanceKeyOf);
  }

  /** A record that cannot be read leaves everything of its own in place and makes the pass reject. */
  lemma UnreadableRecordKept(s: Store, keys: seq<string>, resolves: set<string>, instanceKeyOf: Params -> string, k: string)
    requires Independent(s, keys, instanceKeyOf) && k in keys
    requires OutcomeOf(s, k, resolves, instanceKeyOf) == Unreadable
    ensures var r := Run(s, keys, resolves, instanceKeyOf);
      Untouched(s, r.store, k) && r.rejected && forall c :: c in r.invoked ==> c.key != k
  {
    RunIdeal(s, keys, resolves, instanceKeyOf);
    InvocationsMembers(s, keys, resolves, instanceKeyOf);
  }

  /**
   * Given the same set of independent keys in any two orders, a pass leaves the
   * same store, reports the same completed `cacheParams` up to order, and rejects
   * or not alike: completion order is all that the enumeration order decides.
   */
  lemma PassOrderIrrelevant(s: Store, keys: seq<string>, keys': seq<string>, resolves: set<string>, instanceKeyOf: Params -> string)
    requires Independent(s, keys, instanceKeyOf)
    requires Distinct(keys') && forall k :: k in keys <==> k in keys'
    ensures Run(s, keys, resolves, instanceKeyOf).store == Run(s, keys', resolves, instanceKeyOf).store
    ensures multiset(Run(s, keys, resolves, instanceKeyOf).completed) == multiset(Run(s, keys', resolves, instanceKeyOf).completed)
    ensures Run(s, keys, resolves, instanceKeyOf).rejected == Run(s, keys', resolves, instanceKeyOf).rejected
  {
    SameKeys(s, keys, keys', resolves, instanceKeyOf);
    RunIdeal(s, keys, resolves, instanceKeyOf);
    RunIdeal(s, keys', resolves, instanceKeyOf);
    DoneParamsPermutation(s, keys, keys', resolves, instanceKeyOf);
  }

  /** What is judged key by key against the initial store depends on the selected set only. */
  lemma SameKeys(s: Store, keys: seq<string>, keys': seq<string>, resolves: set<string>, instanceKeyOf: Params -> string)
    requires Independent(s, keys, instanceKeyOf)
    requires Distinct(keys') && forall k :: k in keys <==> k in keys'
    ensures Independent(s, keys', instanceKeyOf)
    ensures Settled(s, keys, resolves, instanceKeyOf) == Settled(s, keys', resolves, instanceKeyOf)
    ensures AnyRejected(s, keys, resolves, instanceKeyOf) == AnyRejected(s, keys', resolves, instanceKeyOf)
  {
  }

  // ---------------------------------------------------------------------------
  // Facts about the key-by-key lists

  lemma {:induction false} DoneParamsMembers(s: Store, keys: seq<string>, resolves: set<string>, instanceKeyOf: Params -> string)
    ensures forall k :: k in keys && OutcomeOf(s, k, resolves, instanceKeyOf) == Done
                        ==> PendingAt(s, k).cacheParams in DoneParams(s, keys, resolves, instanceKeyOf)
    ensures forall q :: q in DoneParams(s, keys, resolves, instanceKeyOf)
                        ==> exists k :: k in keys && OutcomeOf(s, k, resolves, instanceKeyOf) == Done && PendingAt(s, k).cacheParams == q
    decreases |keys|
  {
    if keys != [] {
      var init := keys[..|keys| - 1];
      DoneParamsMembers(s, init, resolves, instanceKeyOf);
      assert forall x :: x in init ==> x in keys;
      assert forall x :: x in keys ==> x in init || x == keys[|keys| - 1];
    }
  }

  lemma {:induction false} InvocationsMembers(s: Store, keys: seq<string>, resolves: set<string>, instanceKeyOf: Params -> string)
    ensures forall k :: k in keys && OutcomeOf(s, k, resolves, instanceKeyOf) in {Rejected, Done}
                        ==> InvocationAt(s, k, instanceKeyOf) in Invocations(s, keys, resolves, instanceKeyOf)
    ensures forall c :: c in Invocations(s, keys, resolves, instanceKeyOf)
                        ==> && c.key in keys
                            && OutcomeOf(s, c.key, resolves, instanceKeyOf) in {Rejected, Done}
                            && c == InvocationAt(s, c.key, instanceKeyOf)
    decreases |keys|
  {
    if keys != [] {
      var init := keys[..|keys| - 1];
      InvocationsMembers(s, init, resolves, instanceKeyOf);
      assert forall x :: x in init ==> x in keys;
      assert forall x :: x in keys ==> x in init || x == keys[|keys| - 1];
    }
  }

  /** Under independence two completed records never share `cacheParams`, so each is reported once. */
  lemma {:induction false} DoneParamsCount(s: Store, keys: seq<string>, resolves: set<string>, instanceKeyOf: Params -> string, k: string)
    requires Independent(s, keys, instanceKeyOf) && k in keys
    requires OutcomeOf(s, k, resolves, instanceKeyOf) == Done
    ensures multiset(DoneParams(s, keys, resolves, instanceKeyOf))[PendingAt(s, k).cacheParams] == 1
    decreases |keys|
  {
    var init, last := keys[..|keys| - 1], keys[|keys| - 1];
    var q := PendingAt(s, k).cacheParams;
    assert forall x :: x in init ==> x in keys;
    assert Independent(s, init, instanceKeyOf) by {
      forall i, j | 0 <= i < j < |init| ensures init[i] != init[j] {
        assert init[i] == keys[i] && init[j] == keys[j];
      }
    }
    assert last !in init by {
      forall j | 0 <= j < |init| ensures init[j] != last {
        assert init[j] == keys[j];
      }
    }
    if last == k {
      DoneParamsMembers(s, init, resolves, instanceKeyOf);
      assert q !in DoneParams(s, init, resolves, instanceKeyOf);
    } else {
      assert k in init;
      DoneParamsCount(s, init, resolves, instanceKeyOf, k);
      if OutcomeOf(s, last, resolves, instanceKeyOf) == Done {
        assert InstanceKeyAt(s, last, instanceKeyOf) != InstanceKeyAt(s, k, instanceKeyOf);
        assert PendingAt(s, last).cacheParams != q;
      }
    }
  }

  lemma {:induction false} DoneParamsAppend(s: Store, a: seq<string>, b: seq<string>, resolves: set<string>, instanceKeyOf: Params -> string)
    ensures DoneParams(s, a + b, resolves, instanceKeyOf)
      == DoneParams(s, a, resolves, instanceKeyOf) + DoneParams(s, b, resolves, instanceKeyOf)
    decreases |b|
  {
    if b == [] {
      assert a + b == a;
    } else {
      var b' := b[..|b| - 1];
      assert (a + b)[..|a + b| - 1] == a + b';
      assert (a + b)[|a + b| - 1] == b[|b| - 1];
      DoneParamsAppend(s, a, b', resolves, instanceKeyOf);
    }
  }

  /**
   * The key-by-key list `DoneParams` of two enumerations of the same keys is the
   * same multiset. It is the pass's `deleted` list only for independent tasks (`RunIdeal`).
   */
  lemma {:induction false} DoneParamsPermutation(s: Store, keys: seq<string>, keys': seq<string>, resolves: set<string>, instanceKeyOf: Params -> string)
    requires Distinct(keys) && Distinct(keys') && forall k :: k in keys <==> k in keys'
    ensures multiset(DoneParams(s, keys, resolves, instanceKeyOf)) == multiset(DoneParams(s, keys', resolves, instanceKeyOf))
    decreases |keys|
  {
    if keys == [] {
      assert forall i :: 0 <= i < |keys'| ==> keys'[i] in keys';
    } else {
      var init, x := keys[..|keys| - 1], keys[|keys| - 1];
      PrefixDistinct(keys);
      assert x in keys';
      var j :| 0 <= j < |keys'| && keys'[j] == x;
      RemoveAt(keys', j);
      DoneParamsPermutation(s, init, keys'[..j] + keys'[j + 1..], resolves, instanceKeyOf);
      DoneParamsSplit(s, keys, |keys| - 1, resolves, instanceKeyOf);
      DoneParamsSplit(s, keys', j, resolves, instanceKeyOf);
      assert keys[..|keys| - 1] + keys[|keys| - 1 + 1..] == init;
    }
  }

  /** Taking one key out of a list takes its contribution out of the completed multiset. */
  lemma DoneParamsSplit(s: Store, keys: seq<string>, j: nat, resolves: set<string>, instanceKeyOf: Params -> string)
    requires j < |keys|
    ensures multiset(DoneParams(s, keys, resolves, instanceKeyOf))
      == multiset(DoneParams(s, keys[..j] + keys[j + 1..], resolves, instanceKeyOf))
         + multiset(DoneParams(s, [keys[j]], resolves, instanceKeyOf))
  {
    var left, x, right := keys[..j], keys[j], keys[j + 1..];
    assert keys == left + [x] + right;
    DoneParamsAppend(s, left, right, resolves, instanceKeyOf);
    DoneParamsAppend(s, left, [x], resolves, instanceKeyOf);
    DoneParamsAppend(s, left + [x], right, resolves, instanceKeyOf);
  }
}
