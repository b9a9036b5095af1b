/**
 * The object literals of cube-solver.js (`MOVES` and the `inverses` of
 * isInverse) read as dictionaries: each is its list of (key, value)
 * entries in source order, and `obj[key]` is the value stored under that
 * key, or `undefined` when the object has no such key.
 */
module Objects {
  import opened Wrappers

  /** No key is listed twice. */
  predicate DistinctKeys<V>(entries: seq<(string, V)>)
  {
    forall i, j :: 0 <= i < j < |entries| ==> entries[i].0 != entries[j].0
  }

  /** Entries whose keys, in order, are a list of distinct strings. */
  lemma DistinctKeysBy<V>(entries: seq<(string, V)>, keys: seq<string>)
    requires |keys| == |entries| && forall i :: 0 <= i < |entries| ==> entries[i].0 == keys[i]
    requires forall i, j :: 0 <= i < j < |keys| ==> keys[i] != keys[j]
    ensures DistinctKeys(entries)
  {
    forall i, j | 0 <= i < j < |entries|
      ensures entries[i].0 != entries[j].0
    {
      assert keys[i] != keys[j];
    }
  }

  /** `obj[key]`: the value of the first entry with that key; None when no
      entry has it. A JavaScript object literal with a repeated key keeps the
      last value, so this reading agrees with `obj[key]` only for entry lists
      whose keys are distinct, which DistinctKeys states and the two tables
      of the solver are proved to meet. */
  function Lookup<V>(entries: seq<(string, V)>, key: string): Option<V>
  {
    LookupFrom(entries, key, 0)
  }

  /** The first entry at or after `from` whose key is `key`. */
  function LookupFrom<V>(entries: seq<(string, V)>, key: string, from: nat): Option<V>
    decreases |entries| - from
  {
    if from >= |entries| then None
    else if entries[from].0 == key then Some(entries[from].1)
    else LookupFrom(entries, key, from + 1)
  }

  lemma {:induction false} LookupFromListed<V>(entries: seq<(string, V)>, key: string, from: nat)
    requires LookupFrom(entries, key, from).Some?
    ensures (key, LookupFrom(entries, key, from).value) in entries
    decreases |entries| - from
  {
    if entries[from].0 != key {
      LookupFromListed(entries, key, from + 1);
    }
  }

  lemma {:induction false} LookupFromMissing<V>(entries: seq<(string, V)>, key: string, from: nat)
    requires LookupFrom(entries, key, from).None?
    ensures forall i :: from <= i < |entries| ==> entries[i].0 != key
    decreases |entries| - from
  {
    if from < |entries| {
      LookupFromMissing(entries, key, from + 1);
    }
  }

  lemma {:induction false} LookupFromAt<V>(entries: seq<(string, V)>, from: nat, i: int)
    requires DistinctKeys(entries) && from <= i < |entries|
    ensures LookupFrom(entries, entries[i].0, from) == Some(entries[i].1)
    decreases i - from
  {
    if from < i {
      assert entries[from].0 != entries[i].0;
      LookupFromAt(entries, from + 1, i);
    }
  }

  /** A value read is the value of an entry listed under the key. */
  lemma LookupListed<V>(entries: seq<(string, V)>, key: string)
    requires Lookup(entries, key).Some?
    ensures (key, Lookup(entries, key).value) in entries
  {
    LookupFromListed(entries, key, 0);
  }

  /** A key that reads nothing is listed under no entry. */
  lemma LookupMissing<V>(entries: seq<(string, V)>, key: string)
    requires Lookup(entries, key).None?
    ensures forall i :: 0 <= i < |entries| ==> entries[i].0 != key
  {
    LookupFromMissing(entries, key, 0);
  }

  /** With distinct keys, reading an entry's key gives that entry's value. */
  lemma LookupAt<V>(entries: seq<(string, V)>, i: int)
    requires DistinctKeys(entries) && 0 <= i < |entries|
    ensures Lookup(entries, entries[i].0) == Some(entries[i].1)
  {
    LookupFromAt(entries, 0, i);
  }
}
