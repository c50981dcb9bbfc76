/**
 * The data the scheduler keeps in its key-value store: pending action records,
 * instance snapshots and anything else the application stores there, and the
 * `/^action/` key filter.
 */
module Actions {

  datatype Option<T> = None | Some(value: T)

  /** A plain object of request or identifying parameters (`cacheParams`, `httpParams`). */
  type Params = map<string, string>

  /** A persisted deferred remote operation. */
  datatype PendingAction = PendingAction(action: string, httpParams: Params, cacheParams: Params)

  /**
   * What `getItem` can hand back: a pending action record, some other truthy
   * value (an instance snapshot, say), or a falsy one (`null`, `false`, `0`, `""`).
   * The `body` of a `Snapshot` is only a label for that truthy value: an empty
   * stored string is `Falsy`, not `Snapshot("")`.
   */
  datatype Value = Record(pending: PendingAction) | Snapshot(body: string) | Falsy

  type Store = map<string, Value>

  /** `!value` in the source is false exactly for the non-falsy values. */
  predicate Truthy(v: Value) {
    !v.Falsy?
  }

  /**
   * `storage.getItem(key)`: a missing key reads as `null`, so a truthy read means
   * the key is stored, with that value.
   */
  function GetItem(s: Store, key: string): (v: Value)
    ensures key !in s ==> v == Falsy
    ensures Truthy(v) ==> key in s && s[key] == v
  {
    if key in s then s[key] else Falsy
  }

  const ActionPrefix: string := "action"

  /** The regular expression `/^action/`. */
  predicate IsActionKey(key: string) {
    |ActionPrefix| <= |key| && key[..|ActionPrefix|] == ActionPrefix
  }

  predicate Distinct(keys: seq<string>) {
    forall i, j :: 0 <= i < j < |keys| ==> keys[i] != keys[j]
  }

  /** `keys` lists every element of `s` exactly once, in some order. */
  ghost predicate IsEnumeration(keys: seq<string>, s: set<string>) {
    Distinct(keys) && forall k :: k in keys <==> k in s
  }

  /** The stored keys a reconciliation pass selects. */
  function ActionKeysOf(s: Store): set<string> {
    set k | k in s && IsActionKey(k)
  }

  /** The filter `key => /^action/.test(key)`, keeping the order of `keys`. */
  function SelectActionKeys(keys: seq<string>): (r: seq<string>)
    ensures forall k :: k in r <==> k in keys && IsActionKey(k)
    ensures Distinct(keys) ==> Distinct(r)
    ensures |r| <= |keys|
  {
    if keys == [] then []
    else if IsActionKey(keys[0]) then [keys[0]] + SelectActionKeys(keys[1..])
    else SelectActionKeys(keys[1..])
  }

  /** Filtering an enumeration of a store's keys enumerates its action keys. */
  lemma SelectEnumeratesActionKeys(all: seq<string>, s: Store)
    requires IsEnumeration(all, s.Keys)
    ensures IsEnumeration(SelectActionKeys(all), ActionKeysOf(s))
  {
  }

  /** A list without repetitions has as many elements as it has members. */
  lemma {:induction false} DistinctCardinality(keys: seq<string>)
    requires Distinct(keys)
    ensures |set k | k in keys| == |keys|
  {
    if keys != [] {
      var rest := keys[1..];
      assert Distinct(rest) by {
        forall i, j | 0 <= i < j < |rest| ensures rest[i] != rest[j] {
          assert rest[i] == keys[i + 1] && rest[j] == keys[j + 1];
        }
      }
      DistinctCardinality(rest);
      assert keys[0] !in rest by {
        forall j | 0 <= j < |rest| ensures rest[j] != keys[0] {
          assert rest[j] == keys[j + 1];
        }
      }
      assert (set k | k in keys) == {keys[0]} + (set k | k in rest);
    }
  }

  /** An enumeration of a one-element set is that element alone. */
  lemma SingletonEnumeration(keys: seq<string>, x: string)
    requires IsEnumeration(keys, {x})
    ensures keys == [x]
  {
    DistinctCardinality(keys);
    assert (set k | k in keys) == {x};
    assert keys[0] in keys;
  }
}
