/**
 * Python dictionaries whose iteration order matters: a sequence of entries in
 * insertion order. Assigning to a key that is present keeps its position;
 * a new key goes last; `pop` removes the key.
 */
module Dicts {
  import opened Wrappers

  datatype Entry<V> = Entry(key: string, value: V)

  type Dict<V> = seq<Entry<V>>

  function Keys<V>(d: Dict<V>): set<string> {
    set i | 0 <= i < |d| :: d[i].key
  }

  lemma KeysCons<V>(e: Entry<V>, d: Dict<V>)
    ensures Keys([e] + d) == {e.key} + Keys(d)
  {
    var c := [e] + d;
    forall k | k in Keys(d) ensures k in Keys(c) {
      var i :| 0 <= i < |d| && d[i].key == k;
      assert c[i + 1] == d[i];
    }
    assert c[0] == e;
    forall k | k in Keys(c) ensures k == e.key || k in Keys(d) {
      var i :| 0 <= i < |c| && c[i].key == k;
      if i > 0 { assert c[i] == d[i - 1]; }
    }
  }

  predicate DistinctKeys<V>(d: Dict<V>) {
    forall i, j :: 0 <= i < j < |d| ==> d[i].key != d[j].key
  }

  /** Putting an entry in front of a dictionary keeps keys distinct when its key is new. */
  lemma DistinctCons<V>(e: Entry<V>, d: Dict<V>)
    requires DistinctKeys(d) && e.key !in Keys(d)
    ensures DistinctKeys([e] + d)
  {
    var c := [e] + d;
    forall i, j | 0 <= i < j < |c| ensures c[i].key != c[j].key {
      assert c[j] == d[j - 1];
      if i > 0 { assert c[i] == d[i - 1]; }
    }
  }

  /** `d.get(k)`. */
  function Lookup<V>(d: Dict<V>, k: string): (r: Option<V>)
    ensures r.Some? <==> k in Keys(d)
  {
    if d == [] then None
    else if d[0].key == k then Some(d[0].value)
    else
      KeysCons(d[0], d[1..]);
      assert [d[0]] + d[1..] == d;
      Lookup(d[1..], k)
  }

  /** A lookup finds the first entry with the key. */
  lemma {:induction false} LookupFirst<V>(d: Dict<V>, i: nat, k: string)
    requires i < |d| && d[i].key == k
    requires forall j :: 0 <= j < i ==> d[j].key != k
    ensures Lookup(d, k) == Some(d[i].value)
  {
    if i > 0 {
      assert d[1..][i - 1] == d[i];
      LookupFirst(d[1..], i - 1, k);
    }
  }

  /** The entry at a given position is what a lookup of its key finds, when keys are distinct. */
  lemma {:induction false} LookupAt<V>(d: Dict<V>, i: nat)
    requires DistinctKeys(d) && i < |d|
    ensures Lookup(d, d[i].key) == Some(d[i].value)
  {
    if i > 0 {
      assert d[1..][i - 1] == d[i];
      LookupAt(d[1..], i - 1);
    }
  }

  /** `d[k] = v`. */
  function Assign<V>(d: Dict<V>, k: string, v: V): (r: Dict<V>)
    ensures Lookup(r, k) == Some(v)
    ensures forall k' :: k' != k ==> Lookup(r, k') == Lookup(d, k')
    ensures k !in Keys(d) ==> r == d + [Entry(k, v)]
    ensures k in Keys(d) ==> |r| == |d|
  {
    if d == [] then [Entry(k, v)]
    else
      KeysCons(d[0], d[1..]);
      assert [d[0]] + d[1..] == d;
      if d[0].key == k then
        KeysCons(Entry(k, v), d[1..]);
        [Entry(k, v)] + d[1..]
      else
        var rest := Assign(d[1..], k, v);
        KeysCons(d[0], rest);
        [d[0]] + rest
  }

  /** Assignment adds its key to the keys. */
  lemma AssignKeys<V>(d: Dict<V>, k: string, v: V)
    ensures Keys(Assign(d, k, v)) == Keys(d) + {k}
  {
    var r := Assign(d, k, v);
    forall k' ensures k' in Keys(r) <==> k' in Keys(d) + {k} {
      assert k' in Keys(r) <==> Lookup(r, k').Some?;
      assert k' in Keys(d) <==> Lookup(d, k').Some?;
    }
  }

  /** Assignment keeps the keys of a dictionary distinct. */
  lemma {:induction false} AssignDistinct<V>(d: Dict<V>, k: string, v: V)
    requires DistinctKeys(d)
    ensures DistinctKeys(Assign(d, k, v))
  {
    if d != [] {
      KeysCons(d[0], d[1..]);
      assert [d[0]] + d[1..] == d;
      var tail := d[1..];
      assert DistinctKeys(tail) by {
        forall i, j | 0 <= i < j < |tail| ensures tail[i].key != tail[j].key {
          assert tail[i] == d[i + 1] && tail[j] == d[j + 1];
        }
      }
      assert d[0].key !in Keys(tail) by {
        forall i | 0 <= i < |tail| ensures tail[i].key != d[0].key {
          assert tail[i] == d[i + 1];
        }
      }
      if d[0].key == k {
        DistinctCons(Entry(k, v), tail);
      } else {
        AssignDistinct(tail, k, v);
        AssignKeys(tail, k, v);
        DistinctCons(d[0], Assign(tail, k, v));
      }
    }
  }

  /** Removing a key after assigning it removes what was there before too. */
  lemma {:induction false} PopAssign<V>(d: Dict<V>, k: string, v: V)
    ensures Pop(Assign(d, k, v), k) == Pop(d, k)
  {
    if d == [] {
      assert [Entry(k, v)][1..] == [];
    } else if d[0].key == k {
      assert ([Entry(k, v)] + d[1..])[1..] == d[1..];
    } else {
      var rest := Assign(d[1..], k, v);
      assert ([d[0]] + rest)[1..] == rest;
      PopAssign(d[1..], k, v);
    }
  }

  /** `dict(entries)`: each entry assigned in turn, so that a later key overwrites an earlier one in place. */
  function FromEntries<V>(entries: seq<Entry<V>>): Dict<V> {
    AssignedUpTo(entries, |entries|)
  }

  /** The dictionary after the first `n` entries have been assigned. */
  function AssignedUpTo<V>(entries: seq<Entry<V>>, n: nat): Dict<V>
    requires n <= |entries|
  {
    if n == 0 then [] else Assign(AssignedUpTo(entries, n - 1), entries[n - 1].key, entries[n - 1].value)
  }

  /** The last entry split off a sequence of entries. */
  lemma KeysSnoc<V>(entries: seq<Entry<V>>)
    requires entries != []
    ensures Keys(entries) == Keys(entries[..|entries| - 1]) + {entries[|entries| - 1].key}
  {
    var n := |entries| - 1;
    var before := entries[..n];
    forall k | k in Keys(entries) ensures k in Keys(before) + {entries[n].key} {
      var i :| 0 <= i < |entries| && entries[i].key == k;
      if i < n { assert before[i] == entries[i]; }
    }
    forall k | k in Keys(before) ensures k in Keys(entries) {
      var i :| 0 <= i < |before| && before[i].key == k;
      assert entries[i] == before[i];
    }
  }

  /** The keys of the dictionary built from entries are the entries' keys. */
  lemma {:induction false} AssignedUpToKeys<V>(entries: seq<Entry<V>>, n: nat)
    requires n <= |entries|
    ensures Keys(AssignedUpTo(entries, n)) == Keys(entries[..n])
  {
    if n > 0 {
      AssignedUpToKeys(entries, n - 1);
      AssignKeys(AssignedUpTo(entries, n - 1), entries[n - 1].key, entries[n - 1].value);
      KeysSnoc(entries[..n]);
      assert entries[..n][..n - 1] == entries[..n - 1];
    }
  }

  lemma AssignKeepsDistinct<V>(d: Dict<V>, e: Entry<V>)
    requires DistinctKeys(d)
    ensures DistinctKeys(Assign(d, e.key, e.value))
  {
    AssignDistinct(d, e.key, e.value);
  }

  /** The dictionary built from entries has distinct keys. */
  lemma {:induction false} AssignedUpToDistinct<V>(entries: seq<Entry<V>>, n: nat)
    requires n <= |entries|
    ensures DistinctKeys(AssignedUpTo(entries, n))
  {
    if n > 0 {
      var d := AssignedUpTo(entries, n - 1);
      assert DistinctKeys(d) by {
        AssignedUpToDistinct(entries, n - 1);
      }
      AssignKeepsDistinct(d, entries[n - 1]);
    }
  }

  /** A key holds the value of the last entry with that key. */
  lemma {:induction false} AssignedUpToLast<V>(entries: seq<Entry<V>>, n: nat, j: nat)
    requires j < n <= |entries|
    requires forall m :: j < m < n ==> entries[m].key != entries[j].key
    ensures Lookup(AssignedUpTo(entries, n), entries[j].key) == Some(entries[j].value)
  {
    if j < n - 1 {
      AssignedUpToLast(entries, n - 1, j);
    }
  }

  /** Each entry after an assignment was there before, or is the one assigned. */
  lemma {:induction false} AssignEntries<V>(d: Dict<V>, k: string, v: V)
    ensures forall e :: e in Assign(d, k, v) ==> e in d || e == Entry(k, v)
  {
    if d != [] && d[0].key != k {
      AssignEntries(d[1..], k, v);
      assert forall e :: e in d[1..] ==> e in d;
    }
  }

  /** An assignment of one of the entries to a dictionary made of them stays made of them. */
  lemma AssignWithin<V>(d: Dict<V>, k: string, v: V, entries: seq<Entry<V>>)
    requires forall e :: e in d ==> e in entries
    requires Entry(k, v) in entries
    ensures forall e :: e in Assign(d, k, v) ==> e in entries
  {
    AssignEntries(d, k, v);
  }

  /** Each entry of the dictionary built from entries is one of them. */
  lemma {:induction false} AssignedUpToFrom<V>(entries: seq<Entry<V>>, n: nat)
    requires n <= |entries|
    ensures forall e :: e in AssignedUpTo(entries, n) ==> e in entries
  {
    if n > 0 {
      AssignedUpToFrom(entries, n - 1);
      AssignWithin(AssignedUpTo(entries, n - 1), entries[n - 1].key, entries[n - 1].value, entries);
    }
  }

  /** Entries whose keys are already distinct are assigned one after another, in order. */
  lemma {:induction false} AssignedUpToDistinctUnchanged<V>(entries: seq<Entry<V>>, n: nat)
    requires DistinctKeys(entries) && n <= |entries|
    ensures AssignedUpTo(entries, n) == entries[..n]
  {
    if n > 0 {
      AssignedUpToDistinctUnchanged(entries, n - 1);
      var before := entries[..n - 1];
      assert entries[n - 1].key !in Keys(before) by {
        forall i | 0 <= i < |before| ensures before[i].key != entries[n - 1].key {
          assert before[i] == entries[i];
        }
      }
      assert entries[..n] == before + [entries[n - 1]];
    }
  }

  /**
   * `dict(entries)` has distinct keys, the entries' keys; each of its entries is one of them,
   * and each key holds the value of the last entry with it.
   */
  lemma FromEntriesKeys<V>(entries: seq<Entry<V>>)
    ensures Keys(FromEntries(entries)) == Keys(entries)
    ensures DistinctKeys(FromEntries(entries))
    ensures forall e :: e in FromEntries(entries) ==> e in entries
    ensures forall j :: 0 <= j < |entries| && (forall m :: j < m < |entries| ==> entries[m].key != entries[j].key) ==>
              Lookup(FromEntries(entries), entries[j].key) == Some(entries[j].value)
  {
    AssignedUpToKeys(entries, |entries|);
    assert entries[..|entries|] == entries;
    AssignedUpToDistinct(entries, |entries|);
    AssignedUpToFrom(entries, |entries|);
    forall j | 0 <= j < |entries| && (forall m :: j < m < |entries| ==> entries[m].key != entries[j].key)
      ensures Lookup(FromEntries(entries), entries[j].key) == Some(entries[j].value)
    {
      AssignedUpToLast(entries, |entries|, j);
    }
  }

  /** Entries whose keys are already distinct make exactly that dictionary. */
  lemma FromEntriesDistinctUnchanged<V>(entries: seq<Entry<V>>)
    requires DistinctKeys(entries)
    ensures FromEntries(entries) == entries
  {
    AssignedUpToDistinctUnchanged(entries, |entries|);
  }

  /** `d.pop(k, None)`, the result left aside. */
  function Pop<V>(d: Dict<V>, k: string): (r: Dict<V>)
    ensures Lookup(r, k) == None
    ensures forall k' :: k' != k ==> Lookup(r, k') == Lookup(d, k')
    ensures Keys(r) == Keys(d) - {k}
    ensures DistinctKeys(d) ==> DistinctKeys(r)
    ensures k !in Keys(d) ==> r == d
  {
    if d == [] then []
    else
      KeysCons(d[0], d[1..]);
      assert [d[0]] + d[1..] == d;
      if d[0].key == k then Pop(d[1..], k)
      else
        var rest := Pop(d[1..], k);
        KeysCons(d[0], rest);
        assert DistinctKeys(d) ==> d[0].key !in Keys(d[1..]);
        [d[0]] + rest
  }
}
