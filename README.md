# ActionsScheduler: a Dafny model

This project models `ActionsScheduler` from `lib/scheduler.ts`. The scheduler is a durable retry queue. A client that cannot reach the remote service stores a pending action under its action key (`addAction`). Each reconciliation pass (`checkPendingActions`) replays every stored action that still has a cached instance snapshot. An action whose HTTP phase resolves is deleted together with its snapshot, and the pass reports the completed `cacheParams` to the result cache. The pass runs when the scheduler is built online, on every *online* event, and on every tick of the retry interval. An *offline* event clears the interval.

The model has three modules:

- `Actions` (`actions.dfy`): the stored values, the `/^action/` key filter, and key enumerations.
- `Reconcile` (`reconcile.dfy`): one pass as a pure function `Run`. It is a left fold of `Task` over the selected keys. The lemmas about it are here too.
- `Scheduler` (`scheduler.dfy`): the class `ActionsScheduler`. It has the store as a `map` field, the network flag, the `intervalId` field and the host's set of running intervals. Every call to the remote invoker and to `cache.removeFromArrays` goes into a ghost log. Each method states its new state. `CheckPendingActions` is a loop over the selected keys, proved equal to `Run` through its invariant.

Connections to the outside are modelled as follows:

- `getActionKey` and `getInstanceKey` are function values passed to the constructor and left uninterpreted.
- The remote's outcome is a parameter `resolves`: the set of action keys whose HTTP phase resolves in that pass.
- The host's interval handles are the naturals `0, 1, 2, …`, handed out in order.

Two behaviours of the code are modelled exactly as written:

- `enableAttempts` (`lib/scheduler.ts:82-84`) assigns a new interval to `intervalId` without calling `clearInterval` on the one it held. So two online events in a row leave two intervals running, and the offline event that follows clears only the second (`RepeatedOnline`).
- `clear` (`lib/scheduler.ts:75-80`) computes `keys.filter(...)` at line 77 and discards the result. Line 79 then deletes every listed key, whatever its prefix (`Clear`).

## Model

| member | source | states |
|---|---|---|
| `Actions.GetItem` | lib/scheduler.ts:44-46 | a missing key reads as `null` (falsy); a truthy read means the key is stored with that value |
| `Actions.SelectActionKeys` | lib/scheduler.ts:40 | a key is kept exactly when it is in the input and starts with `action`; a list without repeats stays without repeats |
| `Scheduler.ActionsScheduler.StorageKeys` | lib/scheduler.ts:40 | `storage.keys()` lists every stored key exactly once |
| `Scheduler.ActionsScheduler.CheckPendingActions` | lib/scheduler.ts:35-65 | offline: nothing changes (store, remote calls, cache calls). Online: the keys taken are an enumeration of the stored `action…` keys, and the new store, the remote calls and the single cache call (made only when no task rejected) are those of `Run` over that enumeration |
| `Scheduler.ActionsScheduler.AttemptAction` | lib/scheduler.ts:43-60 | the task for one action key changes the store, the remote log, `deleted` and the rejection exactly as the step `Reconcile.Task` does from the state the earlier tasks left |
| `Reconcile.Task` | lib/scheduler.ts:43-60 | one task adds no key and leaves every key it keeps with its value; it deletes its record when the snapshot is falsy or the HTTP phase resolves; it makes the pass reject exactly when the record is unreadable or the HTTP phase rejects; it only appends to the remote log and to `deleted`, at most one entry each, and never reports a completion without a remote call |
| `Reconcile.Run` | lib/scheduler.ts:41-62 | every remote call is made for a selected key, and for selected keys without repeats no key is called twice; there are no more completions than remote calls; a pass over no keys does not reject |
| `Reconcile.RunOnlyRemoves` | lib/scheduler.ts:40-60 | a pass never adds or rewrites a key. A key it deletes is either a selected key or the instance key of a `cacheParams` it reports completed; every other key keeps its value |
| `Reconcile.RunIdeal` | lib/scheduler.ts:43-62 | for tasks on disjoint keys, the sequential pass equals judging every key against the initial store. The store loses exactly the stale and completed records and the completed records' snapshots. `deleted` lists exactly the completed `cacheParams`. The pass rejects exactly when some task rejects, and the remote is called exactly for the records with a truthy snapshot |
| `Reconcile.StaleActionDiscarded` | lib/scheduler.ts:46-50 | a record with a falsy snapshot is deleted, its snapshot key stays exactly as it was (absent, or present with the same value), the remote is never called for it, and its `cacheParams` is not reported |
| `Reconcile.CompletedActionCleared` | lib/scheduler.ts:52-59 | when the HTTP phase resolves, the record and the snapshot under `getInstanceKey(cacheParams)` are both gone, the remote was called with the record's own action, parameters and snapshot, and its `cacheParams` is in `deleted` exactly once |
| `Reconcile.RejectedActionKept` | lib/scheduler.ts:52-62 | when the HTTP phase rejects, the record and the snapshot stay stored with the same values, the remote was called, and the whole pass rejects (no cache call) |
| `Reconcile.RejectedActionRetried` | lib/scheduler.ts:40-55 | after a rejected attempt the key is in every enumeration of the action keys the next pass can take, and that pass calls the remote for it again with the same action, parameters and snapshot, whatever the remote does then |
| `Reconcile.UnreadableRecordKept` | lib/scheduler.ts:44-45 | for independent tasks, a value under an action key that is not a record (a stored `null` included): that key stays stored with the same value, the remote is not called for it, and the pass rejects |
| `Reconcile.PassOrderIrrelevant` | lib/scheduler.ts:41-62 | two enumerations of the same independent keys give the same store, the same rejection, and and the same multiset of completed `cacheParams` |
| `Reconcile.DoneParamsPermutation` | lib/scheduler.ts:59 | the key-by-key list `DoneParams` (the completed `cacheParams`, each record judged against the starting store) of two enumerations of the same keys is the same multiset; the pass's `deleted` equals it for independent tasks (`RunIdeal`) |
| `Scheduler.PassStepMeaning` | lib/scheduler.ts:36-64 | for an online pass over independent tasks: the store after is the store before minus the settled keys. `removeFromArrays` is called once with exactly the completed `cacheParams` when no task rejects, and is not called otherwise |
| `Scheduler.ActionsScheduler.AddAction` | lib/scheduler.ts:67-69 | the record is stored under `getActionKey(cacheParams)`, replacing any earlier value; no other key changes |
| `Scheduler.ActionsScheduler.RemoveAction` | lib/scheduler.ts:71-73 | only `getActionKey(cacheParams)` is deleted; when it is absent the store is unchanged |
| `Scheduler.AddThenRemove` | lib/scheduler.ts:67-73 | `addAction` then `removeAction` for the same target leaves no record under its key and every other key as it was |
| `Scheduler.ActionsScheduler.Clear` | lib/scheduler.ts:75-80 | the store is empty afterwards, whatever the key prefixes |
| `Scheduler.ActionsScheduler.EnableAttempts` | lib/scheduler.ts:82-84 | a fresh interval is started and stored in `intervalId`; the intervals already running, including the one `intervalId` held before, keep running |
| `Scheduler.ActionsScheduler.DisableAttempts` | lib/scheduler.ts:86-88 | only the interval in `intervalId` is cleared; `intervalId` is left holding it |
| `Scheduler.ActionsScheduler.constructor` | lib/scheduler.ts:14-33 | offline: store as given, no timer, no calls. Online: interval 0 is running and in `intervalId`, and one pass has run on the given store |
| `Scheduler.ActionsScheduler.OnOnline` | lib/scheduler.ts:25-28 | the flag is on, one pass runs on the store as it was, then one more interval is running and `intervalId` holds it |
| `Scheduler.ActionsScheduler.OnOffline` | lib/scheduler.ts:30-32 | the flag is off and only the interval in `intervalId` is cleared |
| `Scheduler.ActionsScheduler.Tick` | lib/scheduler.ts:83 | a running interval firing runs exactly one pass, which does nothing while offline |

The scenario methods `RepeatedOnline`, `ToggledOnline` and `ReplayOnReconnect` in `scheduler.dfy` are clients with assertions. After two online events, two intervals run, and an offline event leaves one of them. Online, offline, online leaves one interval. An action queued offline is sent once, at once, on reconnect, and the interval is then running.

## Left out

- Persistence, serialisation and storage failures behind `LocalForage`: the store is a `map`, and every storage call succeeds.
- `ResourceService.invoke` and its network call: the outcome of the HTTP phase is the oracle `resolves`. The `$storagePromise` phase is discarded by the source and has no effect here.
- `Cache.removeFromArrays`: only its calls and arguments are recorded, in the ghost log `cacheCalls`.
- `getActionKey` and `getInstanceKey` (from `./utils`): not part of this model, and uninterpreted. Whether `getActionKey(p)` starts with `action` is left open; the scenario `ReplayOnReconnect` picks key functions for which it does.
- Concurrency: the per-key tasks of one pass run in sequence, in the order `storage.keys()` listed them. Interleavings, overlapping passes started by a timer and an event, and the unhandled rejection of the pass are not modelled.
- `Reconcile.RunIdeal`: stated only for independent tasks: no key twice, no record's snapshot key among the selected keys, and no two records with the same snapshot key. When tasks share keys, the sequential order decides what a later task sees. For example, take two records with the same snapshot key whose HTTP phases both resolve. The model sends the first, deletes the snapshot, and then drops the second as stale without sending it. In the source, each task reads its snapshot (line 46) as soon as its record read returns, and deletions come only after an HTTP phase resolves (lines 55-57), so ordinarily both would be sent. `RunOnlyRemoves` still holds when tasks share keys.
- `Reconcile.StaleActionDiscarded`: stated only for independent tasks, for the reason given under `Reconcile.RunIdeal`.
- `Reconcile.CompletedActionCleared`: stated only for independent tasks, for the reason given under `Reconcile.RunIdeal`.
- `Reconcile.RejectedActionKept`: stated only for independent tasks, for the reason given under `Reconcile.RunIdeal`.
- `Reconcile.RejectedActionRetried`: stated only for independent tasks in the first pass, as under `Reconcile.RunIdeal`. Independence of the second pass follows, since it selects a subset of the same records.
- `Reconcile.UnreadableRecordKept`: stated only for independent tasks, as under `Reconcile.RunIdeal`: without independence, another record's completed task can have this key as its snapshot key and delete it (lines 56-57). Also, the source throws for a `null` record. For any other non-record value, it would call `getInstanceKey` with `undefined`, which cannot be seen. The model treats every non-record as a throwing task.
- `Reconcile.PassOrderIrrelevant`: stated only for independent tasks, for the reason given under `Reconcile.RunIdeal`. It says nothing about the order or the multiset of the remote calls.
- `Reconcile.DoneParamsPermutation`: proved of the key-by-key list `DoneParams`, not of the pass's `deleted`. Without independence, `deleted` can depend on the order. Take two records with the same snapshot key whose HTTP phases both resolve: each order reports only its first record's `cacheParams`.
- Timing: `reattemptInterval` and the real timing of `setInterval`/`clearInterval` are not modelled. One firing is the method `Tick`. Repeated firing is any sequence of `Tick` calls.
- The network-state observer: the flag is set to the new state as the first step of `OnOnline` and `OnOffline`. Registering handlers in a single slot is not modelled; the handlers simply are those two methods.
- lodash: its only use, a key filter, is the pure function `SelectActionKeys`.
