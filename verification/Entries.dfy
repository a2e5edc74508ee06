/**
 Key entries, each a key with all its values in one source, and what they hold together: the
 values of one key, and the multiset of (key, value) pairs.
 */
module Entries {
  import opened Keys

  datatype Entry<V> = Entry(key: Key, vals: seq<V>)

  function KeysOf<V>(es: seq<Entry<V>>): seq<Key> {
    seq(|es|, i requires 0 <= i < |es| => es[i].key)
  }

  /** The values of `k`: those of its entry, if it has one. */
  ghost function ValuesAt<V>(es: seq<Entry<V>>, k: Key): seq<V> {
    if es == [] then []
    else if es[0].key == k then es[0].vals
    else ValuesAt(es[1..], k)
  }

  /** The key paired with each of its values. */
  ghost function Pairs<V>(e: Entry<V>): multiset<(Key, V)>
    decreases |e.vals|
  {
    if e.vals == [] then multiset{}
    else multiset{(e.key, e.vals[0])} + Pairs(Entry(e.key, e.vals[1..]))
  }

  /** Every (key, value) pair of the entries. */
  ghost function Bag<V>(es: seq<Entry<V>>): multiset<(Key, V)> {
    if es == [] then multiset{} else Pairs(es[0]) + Bag(es[1..])
  }

  ghost predicate DistinctKeys<V>(es: seq<Entry<V>>) {
    forall i, j :: 0 <= i < j < |es| ==> es[i].key != es[j].key
  }

  ghost predicate Sorted<V>(es: seq<Entry<V>>) {
    forall i, j :: 0 <= i < j < |es| ==> Below(es[i].key, es[j].key)
  }

  /** Every entry has a value. */
  ghost predicate Inhabited<V>(es: seq<Entry<V>>) {
    forall i :: 0 <= i < |es| ==> es[i].vals != []
  }

  lemma SortedDistinct<V>(es: seq<Entry<V>>)
    requires Sorted(es)
    ensures DistinctKeys(es) && Ascending(KeysOf(es))
  {
    forall i, j | 0 <= i < j < |es|
      ensures es[i].key != es[j].key
    {
      BelowTotal(es[i].key, es[j].key);
    }
  }

  lemma {:induction false} BagConcat<V>(a: seq<Entry<V>>, b: seq<Entry<V>>)
    ensures Bag(a + b) == Bag(a) + Bag(b)
  {
    if a == [] {
      assert a + b == b;
    } else {
      assert (a + b)[1..] == a[1..] + b;
      BagConcat(a[1..], b);
    }
  }

  lemma BagSingle<V>(e: Entry<V>)
    ensures Bag([e]) == Pairs(e)
  {
    assert [e][1..] == [];
  }

  lemma {:induction false} PairsCount<V>(e: Entry<V>, k: Key, v: V)
    ensures Pairs(e)[(k, v)] == if e.key == k then multiset(e.vals)[v] else 0
    decreases |e.vals|
  {
    if e.vals != [] {
      PairsCount(Entry(e.key, e.vals[1..]), k, v);
      assert e.vals == [e.vals[0]] + e.vals[1..];
    }
  }

  /** An entry at index `i` holds its key's values. */
  lemma {:induction false} ValuesAtIndex<V>(es: seq<Entry<V>>, i: nat)
    requires DistinctKeys(es) && i < |es|
    ensures ValuesAt(es, es[i].key) == es[i].vals
  {
    if i > 0 {
      ValuesAtIndex(es[1..], i - 1);
    }
  }

  lemma {:induction false} ValuesAtAbsent<V>(es: seq<Entry<V>>, k: Key)
    requires forall i :: 0 <= i < |es| ==> es[i].key != k
    ensures ValuesAt(es, k) == []
  {
    if es != [] {
      ValuesAtAbsent(es[1..], k);
    }
  }

  /** With one entry per key, the pairs of a key are its values. */
  lemma {:induction false} BagCount<V>(es: seq<Entry<V>>, k: Key, v: V)
    requires DistinctKeys(es)
    ensures Bag(es)[(k, v)] == multiset(ValuesAt(es, k))[v]
  {
    if es != [] {
      PairsCount(es[0], k, v);
      BagCount(es[1..], k, v);
      if es[0].key == k {
        ValuesAtAbsent(es[1..], k);
      }
    }
  }

  /** A key has a value exactly when some entry has it. */
  lemma ValuesAtPresent<V>(es: seq<Entry<V>>, k: Key)
    requires DistinctKeys(es) && Inhabited(es)
    ensures ValuesAt(es, k) != [] <==> k in KeysOf(es)
  {
    if k in KeysOf(es) {
      var i :| 0 <= i < |es| && KeysOf(es)[i] == k;
      ValuesAtIndex(es, i);
    } else {
      assert forall i :: 0 <= i < |es| ==> es[i].key == KeysOf(es)[i];
      ValuesAtAbsent(es, k);
    }
  }

  /** The order of entries with distinct keys does not matter to what a key's values are. */
  lemma SameEntriesSameValues<V>(a: seq<Entry<V>>, b: seq<Entry<V>>, k: Key)
    requires DistinctKeys(a) && DistinctKeys(b) && multiset(a) == multiset(b)
    ensures ValuesAt(a, k) == ValuesAt(b, k)
  {
    hide ValuesAt;
    if i :| 0 <= i < |a| && a[i].key == k {
      assert a[i] in multiset(b);
      var j :| 0 <= j < |b| && b[j] == a[i];
      ValuesAtIndex(a, i);
      ValuesAtIndex(b, j);
    } else {
      forall j | 0 <= j < |b|
        ensures b[j].key != k
      {
        assert b[j] in multiset(a);
      }
      ValuesAtAbsent(a, k);
      ValuesAtAbsent(b, k);
    }
  }

  // ------------------------------------------------------------------------
  // Several sources
  // ------------------------------------------------------------------------

  /** The values of `k` in every source, in source order. */
  ghost function Gather<V>(sources: seq<seq<Entry<V>>>, k: Key): seq<V> {
    if sources == [] then [] else ValuesAt(sources[0], k) + Gather(sources[1..], k)
  }

  ghost function BagAll<V>(sources: seq<seq<Entry<V>>>): multiset<(Key, V)> {
    if sources == [] then multiset{} else Bag(sources[0]) + BagAll(sources[1..])
  }

  lemma {:induction false} BagAllCount<V>(sources: seq<seq<Entry<V>>>, k: Key, v: V)
    requires forall r :: 0 <= r < |sources| ==> DistinctKeys(sources[r])
    ensures BagAll(sources)[(k, v)] == multiset(Gather(sources, k))[v]
  {
    if sources != [] {
      BagCount(sources[0], k, v);
      BagAllCount(sources[1..], k, v);
    }
  }

  lemma {:induction false} BagAllConcat<V>(a: seq<seq<Entry<V>>>, b: seq<seq<Entry<V>>>)
    ensures BagAll(a + b) == BagAll(a) + BagAll(b)
  {
    if a == [] {
      assert a + b == b;
    } else {
      assert (a + b)[1..] == a[1..] + b;
      BagAllConcat(a[1..], b);
    }
  }

  /** Entries that hold, key by key, what the sources hold together have the same pairs. */
  lemma SameValuesSameBag<V>(es: seq<Entry<V>>, sources: seq<seq<Entry<V>>>)
    requires DistinctKeys(es)
    requires forall r :: 0 <= r < |sources| ==> DistinctKeys(sources[r])
    requires forall k: Key :: ValuesAt(es, k) == Gather(sources, k)
    ensures Bag(es) == BagAll(sources)
  {
    hide Bag, BagAll, ValuesAt, Gather, DistinctKeys;
    forall pair: (Key, V)
      ensures Bag(es)[pair] == BagAll(sources)[pair]
    {
      var (k, v) := pair;
      BagCount(es, k, v);
      BagAllCount(sources, k, v);
    }
    SameCounts(Bag(es), BagAll(sources));
  }

  lemma SameCounts<T>(a: multiset<T>, b: multiset<T>)
    requires forall x: T :: a[x] == b[x]
    ensures a == b
  {
  }
}
