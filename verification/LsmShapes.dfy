/**
 The shape of an LSM map: what its buffer and each of its runs hold. Every write of the map is one
 of the steps here, down to which run goes where and what its filters have.
 */
module LsmShapes {
  import opened Keys
  import opened Entries
  import opened Runs
  import opened Merge
  import opened RunWriting
  import opened Compaction
  import opened Levels
  import opened Memtables
  import opened MemoryPools
  import Bloom

  /** The buffer's entries, how many values they have, and the levels of runs. */
  datatype Shape<V> = Shape(entries: seq<Entry<V>>, values: nat, levels: seq<seq<Run<V>>>)

  /** The run has these filters, sized for so many keys. */
  ghost predicate FilteredFor<V>(ps: Params, lens: seq<nat>, keys: nat, run: Run<V>) {
    ExactFilters(ps, Bloom.BlocksFor(keys), lens, run.keys, run.filter, run.prefixFilters)
  }

  /** The run is these entries by ascending key. */
  ghost predicate IsRunOf<V>(ps: Params, lens: seq<nat>, entries: seq<Entry<V>>, run: Run<V>) {
    && ValidRun(ps, run) && multiset(EntriesOf(run)) == multiset(entries)
    && FilteredFor(ps, lens, |entries|, run)
  }

  lemma WrittenIsRun<V>(ps: Params, lens: seq<nat>, entries: seq<Entry<V>>, es: seq<Entry<V>>, run: Run<V>)
    requires ValidRun(ps, run) && EntriesOf(run) == es && multiset(es) == multiset(entries)
    requires FilteredFor(ps, lens, |es|, run)
    ensures IsRunOf(ps, lens, entries, run)
  {
    hide ValidRun, EntriesOf, FilteredFor;
    assert |es| == |multiset(es)| && |entries| == |multiset(entries)|;
  }

  /** The run is the merge of these, in this order. */
  ghost predicate IsMergeOf<V>(ps: Params, lens: seq<nat>, runs: seq<Run<V>>, merged: Run<V>) {
    && ValidRuns(ps, runs) && ValidRun(ps, merged)
    && MergedEntries(Sources(ps, runs), EntriesOf(merged))
    && FilteredFor(ps, lens, CountAll(Sources(ps, runs)), merged)
  }

  /** What a map is made with, of what decides its shape. */
  datatype Tuning<!V(!new)> = Tuning(
    ps: Params, lens: seq<nat>, memtableLimit: nat, levelFanout: nat, footprint: seq<Entry<V>> -> nat)
  {
    /** One more run on a level: a level with room takes it last, a full one is merged into one run on the next. */
    ghost predicate Pushes(before: seq<seq<Run<V>>>, level: nat, run: Run<V>, after: seq<seq<Run<V>>>)
      decreases if level < |before| then |before| - level else 0
    {
      if level >= |before| then after == before + seq(level - |before|, _ => []) + [[run]]
      else if |before[level]| < levelFanout then after == before[level := before[level] + [run]]
      else exists merged ::
        IsMergeOf(ps, lens, before[level] + [run], merged) && Pushes(before[level := []], level + 1, merged, after)
    }

    lemma PushesPast(before: seq<seq<Run<V>>>, level: nat, run: Run<V>)
      requires level >= |before|
      ensures Pushes(before, level, run, (before + seq(level + 1 - |before|, _ => []))[level := [] + [run]])
    {
      hide IsMergeOf;
      var padded := before + seq(level + 1 - |before|, _ => []);
      assert [] + [run] == [run];
      assert padded[level := [run]] == before + seq(level - |before|, _ => []) + [[run]];
    }

    lemma PushesLast(before: seq<seq<Run<V>>>, level: nat, run: Run<V>)
      requires level < |before| && |before[level]| < levelFanout
      ensures Pushes(before, level, run, before[level := before[level] + [run]])
    {
      hide IsMergeOf;
    }

    lemma PushesMerged(
      before: seq<seq<Run<V>>>, level: nat, run: Run<V>, merged: Run<V>, after: seq<seq<Run<V>>>)
      requires level < |before| && |before[level]| >= levelFanout
      requires IsMergeOf(ps, lens, before[level] + [run], merged)
      requires Pushes(before[level := []], level + 1, merged, after)
      ensures Pushes(before, level, run, after)
    {
      hide IsMergeOf;
    }

    /** The buffer became a run of the first level; an empty one stays. */
    ghost predicate WritesOut(s: Shape<V>, t: Shape<V>) {
      if s.values == 0 then t == s
      else
        && t.entries == [] && t.values == 0
        && exists run :: IsRunOf(ps, lens, s.entries, run) && Pushes(s.levels, 0, run, t.levels)
    }

    /** The buffer is written out if it is worth a run and has more than the bytes the other maps leave. */
    ghost predicate KeepsTo(room: int, s: Shape<V>, t: Shape<V>) {
      var bytes := footprint(s.entries);
      if bytes >= MIN_BUDGET_FLUSH_BYTES && bytes > room then WritesOut(s, t) else t == s
    }

    /** One pair enters the buffer, which is written out once it reaches its limit. */
    ghost predicate Inserts(room: int, s: Shape<V>, key: Key, value: V, t: Shape<V>) {
      var u := Shape(Added(s.entries, key, value), s.values + 1, s.levels);
      if u.values >= memtableLimit then WritesOut(u, t) else KeepsTo(room, u, t)
    }

    ghost predicate InsertsValues(room: int, s: Shape<V>, key: Key, vals: seq<V>, t: Shape<V>) {
      if vals == [] then t == s
      else var n := |vals| - 1;
        exists u :: InsertsValues(room, s, key, vals[..n], u) && Inserts(room, u, key, vals[n], t)
    }

    lemma NoValues(room: int, s: Shape<V>, key: Key)
      ensures InsertsValues(room, s, key, [], s)
    {
    }

    lemma OneMoreValue(room: int, s: Shape<V>, key: Key, vals: seq<V>, u: Shape<V>, v: V, t: Shape<V>)
      requires InsertsValues(room, s, key, vals, u) && Inserts(room, u, key, v, t)
      ensures InsertsValues(room, s, key, vals + [v], t)
    {
      hide Inserts;
      assert (vals + [v])[..|vals|] == vals;
    }

    /** The values of the entries enter one by one. */
    ghost predicate InsertsAll(room: int, s: Shape<V>, es: seq<Entry<V>>, t: Shape<V>) {
      if es == [] then t == s
      else var n := |es| - 1;
        exists u :: InsertsAll(room, s, es[..n], u) && InsertsValues(room, u, es[n].key, es[n].vals, t)
    }

    lemma NoEntries(room: int, s: Shape<V>)
      ensures InsertsAll(room, s, [], s)
    {
    }

    lemma OneMoreEntry(room: int, s: Shape<V>, es: seq<Entry<V>>, u: Shape<V>, e: Entry<V>, t: Shape<V>)
      requires InsertsAll(room, s, es, u) && InsertsValues(room, u, e.key, e.vals, t)
      ensures InsertsAll(room, s, es + [e], t)
    {
      hide InsertsValues;
      assert (es + [e])[..|es|] == es;
    }

    ghost predicate PushesRuns(before: seq<seq<Run<V>>>, level: nat, runs: seq<Run<V>>, after: seq<seq<Run<V>>>) {
      if runs == [] then after == before
      else var n := |runs| - 1;
        exists mid :: PushesRuns(before, level, runs[..n], mid) && Pushes(mid, level, runs[n], after)
    }

    lemma NoRuns(before: seq<seq<Run<V>>>, level: nat)
      ensures PushesRuns(before, level, [], before)
    {
    }

    lemma OneMoreRun(
      before: seq<seq<Run<V>>>, level: nat, runs: seq<Run<V>>, mid: seq<seq<Run<V>>>, run: Run<V>,
      after: seq<seq<Run<V>>>)
      requires PushesRuns(before, level, runs, mid) && Pushes(mid, level, run, after)
      ensures PushesRuns(before, level, runs + [run], after)
    {
      hide Pushes;
      assert (runs + [run])[..|runs|] == runs;
    }

    /** The runs of other levels join the same levels, one by one. */
    ghost predicate PushesLevels(before: seq<seq<Run<V>>>, more: seq<seq<Run<V>>>, after: seq<seq<Run<V>>>) {
      if more == [] then after == before
      else var n := |more| - 1;
        exists mid :: PushesLevels(before, more[..n], mid) && PushesRuns(mid, n, more[n], after)
    }

    lemma NoLevel(before: seq<seq<Run<V>>>)
      ensures PushesLevels(before, [], before)
    {
    }

    lemma OneMoreLevel(
      before: seq<seq<Run<V>>>, more: seq<seq<Run<V>>>, mid: seq<seq<Run<V>>>, runs: seq<Run<V>>,
      after: seq<seq<Run<V>>>)
      requires PushesLevels(before, more, mid) && PushesRuns(mid, |more|, runs, after)
      ensures PushesLevels(before, more + [runs], after)
    {
      hide PushesRuns;
      assert (more + [runs])[..|more|] == more;
    }

    /** A map that is absorbed writes out a buffer of so many values first, and then gives what it has. */
    ghost predicate Gives(threshold: nat, s: Shape<V>, given: Shape<V>) {
      if s.values >= threshold then WritesOut(s, given) else given == s
    }

    /** All that another map gives enters: its buffer's values, then its runs, and then the budget is kept to. */
    ghost predicate TakesIn(room: int, s: Shape<V>, given: Shape<V>, t: Shape<V>) {
      exists u, levels ::
        && InsertsAll(room, s, given.entries, u) && PushesLevels(u.levels, given.levels, levels)
        && KeepsTo(room, u.(levels := levels), t)
    }

    lemma TookIn(room: int, s: Shape<V>, given: Shape<V>, u: Shape<V>, levels: seq<seq<Run<V>>>, t: Shape<V>)
      requires InsertsAll(room, s, given.entries, u) && PushesLevels(u.levels, given.levels, levels)
      requires KeepsTo(room, u.(levels := levels), t)
      ensures TakesIn(room, s, given, t)
    {
      hide InsertsAll, PushesLevels, KeepsTo;
    }
  }

}
