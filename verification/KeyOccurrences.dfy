/**
 Which keys a map's sources hold, together: with at most one (empty) value per key, as in a set of
 tuples, every key occurs in exactly one source.
 */
module KeyOccurrences {
  import opened Keys
  import opened Entries
  import opened Runs
  import opened Compaction
  import opened Levels
  import opened Memtables
  import opened KeyIterators
  import opened Reads
  import opened LsmMaps
  import opened Representation

  /** Every key occurrence, the buffer's and then each run's. */
  ghost function AllKeys<V(!new)>(m: LsmMap<V>): seq<Key>
    reads m, m.memtable
  {
    KeysOf(m.memtable.Entries()) + Flatten(RunKeys(Flatten(m.levels)))
  }

  /** No value but the empty one, and that at most once for a key. */
  ghost predicate SetLike(bag: multiset<(Key, Blob)>) {
    forall p :: p in bag ==> p.1 == [] && bag[p] <= 1
  }

  lemma {:induction false} OneForEach(es: seq<Entry<Blob>>, k: Key)
    requires Inhabited(es) && SetLike(Bag(es))
    ensures multiset(KeysOf(es))[k] == Bag(es)[(k, [])]
  {
    if es != [] {
      hide Pairs, SetLike, KeysOf, Inhabited;
      var e, rest := es[0], es[1..];
      assert Bag(es) == Pairs(e) + Bag(rest);
      hide Bag;
      SetLikeParts(Pairs(e), Bag(rest));
      FirstOf(es);
      OneForEach(rest, k);
      SingleValue(e);
      PairsCount(e, k, []);
      assert multiset([e.key])[k] == if e.key == k then 1 else 0;
    }
  }

  lemma FirstOf(es: seq<Entry<Blob>>)
    requires Inhabited(es) && es != []
    ensures es[0].vals != [] && Inhabited(es[1..])
    ensures KeysOf(es) == [es[0].key] + KeysOf(es[1..])
  {
  }

  lemma SetLikeParts(a: multiset<(Key, Blob)>, b: multiset<(Key, Blob)>)
    requires SetLike(a + b)
    ensures SetLike(a) && SetLike(b)
  {
  }

  lemma SingleValue(e: Entry<Blob>)
    requires e.vals != [] && SetLike(Pairs(e))
    ensures e.vals == [[]]
  {
  }

  lemma {:induction false} AllEmpty(vals: seq<Blob>)
    requires forall i :: 0 <= i < |vals| ==> vals[i] == []
    ensures multiset(vals)[[]] == |vals|
  {
    if vals != [] {
      AllEmpty(vals[1..]);
      assert vals == [vals[0]] + vals[1..];
    }
  }

  // ------------------------------------------------------------------------
  // Across the sources
  // ------------------------------------------------------------------------

  lemma {:induction false} FlatSources<V>(ps: Params, runs: seq<Run<V>>)
    requires ValidRuns(ps, runs)
    ensures KeysOf(Flatten(Sources(ps, runs))) == Flatten(RunKeys(runs))
    ensures Bag(Flatten(Sources(ps, runs))) == RunsBag(runs)
    ensures Inhabited(Flatten(Sources(ps, runs)))
  {
    hide ValidRun, RunBag, Inhabited, KeysOf, Pairs;
    if runs == [] {
      NothingInhabited<V>();
    } else {
      var first, rest := runs[0], runs[1..];
      FlatSources(ps, rest);
      RunOf(ps, runs, 0);
      RunHolds(ps, first);
      hide Bag;
      FlatFirst(Sources(ps, runs), RunKeys(runs));
      assert Sources(ps, runs)[1..] == Sources(ps, rest) && RunKeys(runs)[1..] == RunKeys(rest);
      var flat := Flatten(Sources(ps, rest));
      BagConcat(EntriesOf(first), flat);
      KeysConcat(EntriesOf(first), flat);
      BothInhabited(EntriesOf(first), flat);
    }
  }

  lemma FlatFirst<S, T>(a: seq<seq<S>>, b: seq<seq<T>>)
    requires a != [] && b != []
    ensures Flatten(a) == a[0] + Flatten(a[1..]) && Flatten(b) == b[0] + Flatten(b[1..])
  {
  }

  lemma NothingInhabited<V>()
    ensures Inhabited<V>([]) && KeysOf<V>([]) == []
  {
  }

  lemma RunHolds<V>(ps: Params, run: Run<V>)
    requires ValidRun(ps, run)
    ensures Inhabited(EntriesOf(run)) && KeysOf(EntriesOf(run)) == run.keys && RunBag(run) == Bag(EntriesOf(run))
  {
  }

  lemma KeysConcat<V>(a: seq<Entry<V>>, b: seq<Entry<V>>)
    ensures KeysOf(a + b) == KeysOf(a) + KeysOf(b)
  {
  }

  /** In a set of keys, each key occurs once over all sources, and only the set's keys do. */
  lemma KeysOnce(m: LsmMap<Blob>, k: Key)
    requires m.Valid() && SetLike(m.Contents())
    ensures multiset(AllKeys(m))[k] == m.Contents()[(k, [])]
  {
    hide SetLike, LevelsOk, Bag, LevelsBag, RunsBag, Flatten, ValidRuns, LsmMap.ShareOk, Memtable.Entries;
    hide KeysOf, EntriesOk, Inhabited;
    var es, runs := m.memtable.Entries(), Flatten(m.levels);
    m.BufferDistinct();
    EntriesReady(m.ps, es);
    FlatLevels(m.ps, m.levels, m.levelFanout);
    FlatSources(m.ps, runs);
    var flat := Flatten(Sources(m.ps, runs));
    BagConcat(es, flat);
    KeysConcat(es, flat);
    BothInhabited(es, flat);
    OneForEach(es + flat, k);
  }

  lemma BothInhabited<V>(a: seq<Entry<V>>, b: seq<Entry<V>>)
    requires Inhabited(a) && Inhabited(b)
    ensures Inhabited(a + b)
  {
  }

  /** A prefix read finds the matching ones among all occurrences. */
  lemma {:induction false} MatchesAcross<V>(keys: seq<Key>, runs: seq<Run<V>>, prefix: Key)
    ensures MatchingKeys(keys + Flatten(RunKeys(runs)), prefix) == MatchingKeys(keys, prefix) + RunMatches(runs, prefix)
    decreases |runs|
  {
    hide MatchingKeys;
    MatchingConcat(keys, Flatten(RunKeys(runs)), prefix);
    if runs == [] {
      NoMatches(prefix);
    } else {
      assert RunKeys(runs)[1..] == RunKeys(runs[1..]);
      MatchesAcross(runs[0].keys, runs[1..], prefix);
    }
  }

  lemma {:induction false} CountMatching(keys: seq<Key>, prefix: Key, k: Key)
    ensures multiset(MatchingKeys(keys, prefix))[k] == if Matches(k, prefix) then multiset(keys)[k] else 0
  {
    if keys != [] {
      hide Matches;
      CountMatching(keys[1..], prefix, k);
      assert keys == [keys[0]] + keys[1..];
    }
  }

  /** All the keys an iterator has left. */
  method Drain<V>(it: KeysIter<V>) returns (keys: seq<Key>)
    requires it.Valid()
    modifies it
    ensures keys == old(it.Remaining())
  {
    hide KeysIter.Valid, KeysIter.Remaining;
    keys := [];
    var r := it.Next();
    while r.Some?
      invariant it.Valid()
      invariant old(it.Remaining()) == keys + (if r.Some? then [r.value] + it.Remaining() else [])
      decreases r.Some?, |it.Remaining()|
    {
      keys := keys + [r.value];
      r := it.Next();
    }
  }
}
