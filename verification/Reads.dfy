/** What reads answer from: the values of a key and the keys of a prefix, across buffer and runs. */
module Reads {
  import opened Keys
  import opened Entries
  import opened Runs
  import opened Compaction
  import opened Levels
  import opened Memtables
  import opened KeyIterators

  // ------------------------------------------------------------------------
  // Flattened levels
  // ------------------------------------------------------------------------

  lemma {:induction false} RunsBagConcat<V>(a: seq<Run<V>>, b: seq<Run<V>>)
    ensures RunsBag(a + b) == RunsBag(a) + RunsBag(b)
  {
    hide RunBag;
    if a == [] {
      assert a + b == b;
    } else {
      assert (a + b)[1..] == a[1..] + b;
      RunsBagConcat(a[1..], b);
    }
  }

  lemma {:induction false} FlatLevels<V>(ps: Params, levels: seq<seq<Run<V>>>, fanout: nat)
    requires LevelsOk(ps, levels, fanout)
    ensures ValidRuns(ps, Flatten(levels)) && RunsBag(Flatten(levels)) == LevelsBag(levels)
  {
    hide ValidRun, RunsBag;
    if levels == [] {
      EmptyRuns<V>();
    } else {
      FlatLevels(ps, levels[1..], fanout);
      RunsBagConcat(levels[0], Flatten(levels[1..]));
      assert ValidRuns(ps, levels[0]);
    }
  }

  // ------------------------------------------------------------------------
  // Values of a key
  // ------------------------------------------------------------------------

  /** Some pair of the bag has the key. */
  ghost predicate HasKeyIn<V>(bag: multiset<(Key, V)>, k: Key) {
    exists p :: p in bag && p.0 == k
  }

  /** The values are exactly the ones the bag pairs with the key. */
  ghost predicate AreValues<V>(bag: multiset<(Key, V)>, k: Key, vals: seq<V>) {
    && (forall p :: p in bag && p.0 == k ==> p.1 in vals)
    && (forall v :: v in vals ==> multiset(vals)[v] == bag[(k, v)])
  }

  /** Buffer first, then every run in order: the values of a key, each as often as it is paired. */
  lemma ValuesAcross<V>(ps: Params, es: seq<Entry<V>>, runs: seq<Run<V>>, k: Key, v: V)
    requires DistinctKeys(es) && ValidRuns(ps, runs)
    ensures (Bag(es) + RunsBag(runs))[(k, v)] == multiset(ValuesAt(es, k) + Gather(Sources(ps, runs), k))[v]
  {
    hide Bag, BagAll, RunsBag, ValuesAt, Gather, DistinctKeys;
    RunsBagIsBagAll(ps, runs);
    BagCount(es, k, v);
    SourcesDistinct(ps, runs);
    BagAllCount(Sources(ps, runs), k, v);
  }

  lemma SourcesDistinct<V>(ps: Params, runs: seq<Run<V>>)
    requires ValidRuns(ps, runs)
    ensures forall r :: 0 <= r < |runs| ==> DistinctKeys(Sources(ps, runs)[r])
  {
    hide ValidRun, DistinctKeys;
    forall r | 0 <= r < |runs|
      ensures DistinctKeys(Sources(ps, runs)[r])
    {
      RunEntries(ps, runs[r]);
    }
  }

  lemma AcrossAreValues<V>(ps: Params, es: seq<Entry<V>>, runs: seq<Run<V>>, k: Key)
    requires DistinctKeys(es) && ValidRuns(ps, runs)
    ensures var vals := ValuesAt(es, k) + Gather(Sources(ps, runs), k);
      && AreValues(Bag(es) + RunsBag(runs), k, vals)
      && (vals != [] <==> HasKeyIn(Bag(es) + RunsBag(runs), k))
  {
    hide Bag, RunsBag, ValuesAt, Gather, DistinctKeys;
    var bag, vals := Bag(es) + RunsBag(runs), ValuesAt(es, k) + Gather(Sources(ps, runs), k);
    forall p | p in bag && p.0 == k
      ensures p.1 in vals
    {
      ValuesAcross(ps, es, runs, k, p.1);
      assert p == (k, p.1);
    }
    forall v | v in vals
      ensures multiset(vals)[v] == bag[(k, v)]
    {
      ValuesAcross(ps, es, runs, k, v);
    }
    if vals != [] {
      ValuesAcross(ps, es, runs, k, vals[0]);
      assert vals[0] in multiset(vals);
      assert (k, vals[0]) in bag;
    }
  }

  // ------------------------------------------------------------------------
  // Keys of a prefix
  // ------------------------------------------------------------------------

  /** Each run's keys that match the prefix, run by run. */
  ghost function RunMatches<V>(runs: seq<Run<V>>, prefix: Key): seq<Key> {
    if runs == [] then [] else MatchingKeys(runs[0].keys, prefix) + RunMatches(runs[1..], prefix)
  }

  lemma {:induction false} RunMatchesSnoc<V>(runs: seq<Run<V>>, run: Run<V>, prefix: Key)
    ensures RunMatches(runs + [run], prefix) == RunMatches(runs, prefix) + MatchingKeys(run.keys, prefix)
  {
    hide MatchingKeys;
    if runs == [] {
      assert runs + [run] == [run] && [run][1..] == [];
    } else {
      assert (runs + [run])[1..] == runs[1..] + [run];
      RunMatchesSnoc(runs[1..], run, prefix);
    }
  }

  ghost predicate LongEnough(keys: seq<Key>, n: nat) {
    forall i :: 0 <= i < |keys| ==> n <= |keys[i]|
  }

  lemma {:induction false} DescendingInRange(keys: seq<Key>, prefix: Key, n: nat)
    requires n <= |keys|
    ensures forall i :: 0 <= i < |Descending(keys, prefix, n)| ==> Descending(keys, prefix, n)[i] < n
  {
    if n > 0 {
      DescendingInRange(keys, prefix, n - 1);
    }
  }

  ghost function ChainKeys(keys: seq<Key>, prefix: Key, n: nat): seq<Key>
    requires n <= |keys|
  {
    DescendingInRange(keys, prefix, n);
    KeysAt(keys, Descending(keys, prefix, n))
  }

  lemma ChainKeysStep(keys: seq<Key>, prefix: Key, n: nat)
    requires 0 < n <= |keys|
    ensures ChainKeys(keys, prefix, n) ==
      (if prefix <= keys[n - 1] then [keys[n - 1]] else []) + ChainKeys(keys, prefix, n - 1)
  {
  }

  lemma MatchingStep(keys: seq<Key>, prefix: Key, n: nat)
    requires 0 < n <= |keys| && |prefix| <= |keys[n - 1]|
    ensures MatchingKeys(keys[..n], prefix) ==
      MatchingKeys(keys[..n - 1], prefix) + (if prefix <= keys[n - 1] then [keys[n - 1]] else [])
  {
    hide MatchingKeys, Matches;
    assert keys[..n] == keys[..n - 1] + [keys[n - 1]];
    MatchingConcat(keys[..n - 1], [keys[n - 1]], prefix);
    MatchesIsStartsWith(keys[n - 1], prefix);
    MatchingOne(keys[n - 1], prefix);
  }

  /** A chain yields its prefix's keys, each once. */
  lemma {:induction false} ChainKeysMatch(keys: seq<Key>, prefix: Key, n: nat)
    requires n <= |keys| && LongEnough(keys, |prefix|)
    ensures multiset(ChainKeys(keys, prefix, n)) == multiset(MatchingKeys(keys[..n], prefix))
  {
    if n == 0 {
      assert keys[..0] == [];
      assert ChainKeys(keys, prefix, 0) == [];
    } else {
      hide ChainKeys, MatchingKeys;
      ChainKeysMatch(keys, prefix, n - 1);
      ChainKeysStep(keys, prefix, n);
      MatchingStep(keys, prefix, n);
    }
  }

  lemma MatchingOne(key: Key, prefix: Key)
    ensures MatchingKeys([key], prefix) == if Matches(key, prefix) then [key] else []
  {
    assert [key][1..] == [];
  }
}
