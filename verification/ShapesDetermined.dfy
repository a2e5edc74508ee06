/**
 The steps of a map's shape leave no choice: whatever runs a map writes, merges and takes over, its
 buffer and its runs are what its history makes them.
 */
module ShapesDetermined {
  import opened Keys
  import opened Entries
  import opened Runs
  import opened Merge
  import opened RunWriting
  import opened Compaction
  import opened Memtables
  import opened LsmShapes

  // ------------------------------------------------------------------------
  // A run is determined by its entries
  // ------------------------------------------------------------------------

  lemma FirstIsLeast(a: seq<Key>, k: Key)
    requires Ascending(a) && k in a
    ensures AtMost(a[0], k)
  {
    hide Below;
    var i :| 0 <= i < |a| && a[i] == k;
  }

  /** Ascending sequences of the same keys are equal. */
  lemma {:induction false} SameKeys(a: seq<Key>, b: seq<Key>)
    requires Ascending(a) && Ascending(b) && forall k :: k in a <==> k in b
    ensures a == b
  {
    hide Below;
    BothOrNeither(a, b);
    if a != [] {
      assert a[0] in b && b[0] in a;
      FirstIsLeast(a, b[0]);
      FirstIsLeast(b, a[0]);
      BelowTotal(a[0], b[0]);
      RestKeys(a);
      RestKeys(b);
      SameKeys(a[1..], b[1..]);
    }
  }

  lemma BothOrNeither(a: seq<Key>, b: seq<Key>)
    requires forall k :: k in a <==> k in b
    ensures a == [] <==> b == []
  {
    if a != [] {
      assert a[0] in b;
    }
    if b != [] {
      assert b[0] in a;
    }
  }

  lemma RestKeys(a: seq<Key>)
    requires Ascending(a) && a != []
    ensures Ascending(a[1..]) && forall k :: k in a[1..] <==> k in a && k != a[0]
  {
    hide Below;
    forall k | k in a[1..]
      ensures k in a && k != a[0]
    {
      var i :| 0 <= i < |a| - 1 && a[1..][i] == k;
      BelowTotal(a[0], a[i + 1]);
    }
    forall k | k in a && k != a[0]
      ensures k in a[1..]
    {
      var i :| 0 <= i < |a| && a[i] == k;
      assert a[1..][i - 1] == k;
    }
  }

  /** Sorted entries are determined by what they hold for each key. */
  lemma SameSorted<V>(a: seq<Entry<V>>, b: seq<Entry<V>>)
    requires Sorted(a) && Sorted(b) && Inhabited(a) && Inhabited(b)
    requires forall k: Key :: ValuesAt(a, k) == ValuesAt(b, k)
    ensures a == b
  {
    hide Below, ValuesAt;
    SortedDistinct(a);
    SortedDistinct(b);
    forall k: Key
      ensures k in KeysOf(a) <==> k in KeysOf(b)
    {
      ValuesAtPresent(a, k);
      ValuesAtPresent(b, k);
    }
    SameKeys(KeysOf(a), KeysOf(b));
    assert |a| == |KeysOf(a)| == |b|;
    forall i | 0 <= i < |a|
      ensures a[i] == b[i]
    {
      assert KeysOf(a)[i] == KeysOf(b)[i];
      ValuesAtIndex(a, i);
      ValuesAtIndex(b, i);
    }
  }

  lemma {:induction false} SameColumns<V>(a: Run<V>, b: Run<V>, n: nat)
    requires OffsetsClimb(a) && OffsetsClimb(b) && EntriesOf(a) == EntriesOf(b) && |a.keys| == |b.keys| && n <= |a.keys|
    ensures a.offsets[..n + 1] == b.offsets[..n + 1]
    ensures a.offsets[n] <= |a.values| && b.offsets[n] <= |b.values|
    ensures a.values[..a.offsets[n]] == b.values[..b.offsets[n]]
  {
    if n > 0 {
      SameColumns(a, b, n - 1);
      OneSlice(a, n - 1);
      OneSlice(b, n - 1);
      hide OffsetsClimb, EntriesOf;
      assert a.offsets[n - 1] == a.offsets[..n][n - 1] && b.offsets[n - 1] == b.offsets[..n][n - 1];
      assert a.offsets[..n + 1] == a.offsets[..n] + [a.offsets[n]];
      assert b.offsets[..n + 1] == b.offsets[..n] + [b.offsets[n]];
    }
  }

  /** The values up to the end of an entry are those before it, and its own. */
  lemma OneSlice<V>(run: Run<V>, i: nat)
    requires OffsetsClimb(run) && i < |run.keys|
    ensures |run.offsets| == |run.keys| + 1 && run.offsets[i] <= run.offsets[i + 1] <= |run.values|
    ensures run.values[..run.offsets[i + 1]] == run.values[..run.offsets[i]] + EntriesOf(run)[i].vals
    ensures |EntriesOf(run)[i].vals| == run.offsets[i + 1] - run.offsets[i]
  {
  }

  lemma RunDetermined<V>(ps: Params, lens: seq<nat>, keys: nat, a: Run<V>, b: Run<V>)
    requires ValidRun(ps, a) && ValidRun(ps, b) && EntriesOf(a) == EntriesOf(b)
    requires FilteredFor(ps, lens, keys, a) && FilteredFor(ps, lens, keys, b)
    ensures a == b
  {
    RunEntries(ps, a);
    RunEntries(ps, b);
    hide Ascending, FiltersCover, Filled, EntriesOf;
    var n := |a.keys|;
    SameColumns(a, b, n);
    assert a.offsets[..n + 1] == a.offsets && b.offsets[..n + 1] == b.offsets;
    assert a.values[..|a.values|] == a.values && b.values[..|b.values|] == b.values;
    assert a.prefixFilters == b.prefixFilters;
  }

  lemma WrittenOnce<V>(ps: Params, lens: seq<nat>, entries: seq<Entry<V>>, a: Run<V>, b: Run<V>)
    requires IsRunOf(ps, lens, entries, a) && IsRunOf(ps, lens, entries, b)
    ensures a == b
  {
    RunEntries(ps, a);
    RunEntries(ps, b);
    hide ValidRun, FilteredFor, ValuesAt, EntriesOf, Sorted, Inhabited, DistinctKeys;
    var es, fs := EntriesOf(a), EntriesOf(b);
    forall k: Key
      ensures ValuesAt(es, k) == ValuesAt(fs, k)
    {
      SameEntriesSameValues(es, fs, k);
    }
    SameSorted(es, fs);
    RunDetermined(ps, lens, |entries|, a, b);
  }

  lemma MergedOnce<V>(ps: Params, lens: seq<nat>, runs: seq<Run<V>>, a: Run<V>, b: Run<V>)
    requires IsMergeOf(ps, lens, runs, a) && IsMergeOf(ps, lens, runs, b)
    ensures a == b
  {
    hide Ascending, FiltersCover, ValidRuns, FilteredFor, ValuesAt, EntriesOf, Sorted, Inhabited, Gather;
    SameSorted(EntriesOf(a), EntriesOf(b));
    RunDetermined(ps, lens, CountAll(Sources(ps, runs)), a, b);
  }

  // ------------------------------------------------------------------------
  // Each step has one result
  // ------------------------------------------------------------------------

  lemma {:induction false} PushedOnce<V(!new)>(
    t: Tuning<V>, before: seq<seq<Run<V>>>, level: nat, run: Run<V>, a: seq<seq<Run<V>>>, b: seq<seq<Run<V>>>)
    requires t.Pushes(before, level, run, a) && t.Pushes(before, level, run, b)
    ensures a == b
    decreases if level < |before| then |before| - level else 0
  {
    hide IsMergeOf;
    if level < |before| && |before[level]| >= t.levelFanout {
      var runs, rest := before[level] + [run], before[level := []];
      var x :| IsMergeOf(t.ps, t.lens, runs, x) && t.Pushes(rest, level + 1, x, a);
      var y :| IsMergeOf(t.ps, t.lens, runs, y) && t.Pushes(rest, level + 1, y, b);
      MergedOnce(t.ps, t.lens, runs, x, y);
      PushedOnce(t, rest, level + 1, x, a, b);
    }
  }

  lemma WritesOutOnce<V(!new)>(t: Tuning<V>, s: Shape<V>, a: Shape<V>, b: Shape<V>)
    requires t.WritesOut(s, a) && t.WritesOut(s, b)
    ensures a == b
  {
    hide IsRunOf, Tuning.Pushes;
    if s.values > 0 {
      var x :| IsRunOf(t.ps, t.lens, s.entries, x) && t.Pushes(s.levels, 0, x, a.levels);
      var y :| IsRunOf(t.ps, t.lens, s.entries, y) && t.Pushes(s.levels, 0, y, b.levels);
      WrittenOnce(t.ps, t.lens, s.entries, x, y);
      PushedOnce(t, s.levels, 0, x, a.levels, b.levels);
    }
  }

  lemma KeepsToOnce<V(!new)>(t: Tuning<V>, room: int, s: Shape<V>, a: Shape<V>, b: Shape<V>)
    requires t.KeepsTo(room, s, a) && t.KeepsTo(room, s, b)
    ensures a == b
  {
    hide Tuning.WritesOut;
    if t.WritesOut(s, a) && t.WritesOut(s, b) {
      WritesOutOnce(t, s, a, b);
    }
  }

  /** `insert` has one result. */
  lemma InsertDetermined<V(!new)>(
    t: Tuning<V>, room: int, s: Shape<V>, key: Key, value: V, a: Shape<V>, b: Shape<V>)
    requires t.Inserts(room, s, key, value, a) && t.Inserts(room, s, key, value, b)
    ensures a == b
  {
    hide Tuning.WritesOut, Tuning.KeepsTo, Added;
    var u := Shape(Added(s.entries, key, value), s.values + 1, s.levels);
    if u.values >= t.memtableLimit {
      WritesOutOnce(t, u, a, b);
    } else {
      KeepsToOnce(t, room, u, a, b);
    }
  }

  lemma {:induction false} ValuesOnce<V(!new)>(
    t: Tuning<V>, room: int, s: Shape<V>, key: Key, vals: seq<V>, a: Shape<V>, b: Shape<V>)
    requires t.InsertsValues(room, s, key, vals, a) && t.InsertsValues(room, s, key, vals, b)
    ensures a == b
  {
    hide Tuning.Inserts;
    if vals != [] {
      var n := |vals| - 1;
      var x :| t.InsertsValues(room, s, key, vals[..n], x) && t.Inserts(room, x, key, vals[n], a);
      var y :| t.InsertsValues(room, s, key, vals[..n], y) && t.Inserts(room, y, key, vals[n], b);
      ValuesOnce(t, room, s, key, vals[..n], x, y);
      InsertDetermined(t, room, x, key, vals[n], a, b);
    }
  }

  lemma {:induction false} EntriesOnce<V(!new)>(
    t: Tuning<V>, room: int, s: Shape<V>, es: seq<Entry<V>>, a: Shape<V>, b: Shape<V>)
    requires t.InsertsAll(room, s, es, a) && t.InsertsAll(room, s, es, b)
    ensures a == b
  {
    hide Tuning.InsertsValues;
    if es != [] {
      var n := |es| - 1;
      var x :| t.InsertsAll(room, s, es[..n], x) && t.InsertsValues(room, x, es[n].key, es[n].vals, a);
      var y :| t.InsertsAll(room, s, es[..n], y) && t.InsertsValues(room, y, es[n].key, es[n].vals, b);
      EntriesOnce(t, room, s, es[..n], x, y);
      ValuesOnce(t, room, x, es[n].key, es[n].vals, a, b);
    }
  }

  lemma {:induction false} RunsOnce<V(!new)>(
    t: Tuning<V>, before: seq<seq<Run<V>>>, level: nat, runs: seq<Run<V>>,
    a: seq<seq<Run<V>>>, b: seq<seq<Run<V>>>)
    requires t.PushesRuns(before, level, runs, a) && t.PushesRuns(before, level, runs, b)
    ensures a == b
    decreases |runs|
  {
    hide Tuning.Pushes;
    if runs != [] {
      var n := |runs| - 1;
      var x :| t.PushesRuns(before, level, runs[..n], x) && t.Pushes(x, level, runs[n], a);
      var y :| t.PushesRuns(before, level, runs[..n], y) && t.Pushes(y, level, runs[n], b);
      RunsOnce(t, before, level, runs[..n], x, y);
      PushedOnce(t, x, level, runs[n], a, b);
    }
  }

  lemma {:induction false} LevelsOnce<V(!new)>(
    t: Tuning<V>, before: seq<seq<Run<V>>>, more: seq<seq<Run<V>>>, a: seq<seq<Run<V>>>, b: seq<seq<Run<V>>>)
    requires t.PushesLevels(before, more, a) && t.PushesLevels(before, more, b)
    ensures a == b
    decreases |more|
  {
    hide Tuning.PushesRuns;
    if more != [] {
      var n := |more| - 1;
      var x :| t.PushesLevels(before, more[..n], x) && t.PushesRuns(x, n, more[n], a);
      var y :| t.PushesLevels(before, more[..n], y) && t.PushesRuns(y, n, more[n], b);
      LevelsOnce(t, before, more[..n], x, y);
      RunsOnce(t, x, n, more[n], a, b);
    }
  }

  lemma TakesInOnce<V(!new)>(t: Tuning<V>, room: int, s: Shape<V>, given: Shape<V>, a: Shape<V>, b: Shape<V>)
    requires t.TakesIn(room, s, given, a) && t.TakesIn(room, s, given, b)
    ensures a == b
  {
    hide Tuning.InsertsAll, Tuning.PushesLevels, Tuning.KeepsTo;
    var u, x :| t.InsertsAll(room, s, given.entries, u) && t.PushesLevels(u.levels, given.levels, x)
      && t.KeepsTo(room, u.(levels := x), a);
    var w, y :| t.InsertsAll(room, s, given.entries, w) && t.PushesLevels(w.levels, given.levels, y)
      && t.KeepsTo(room, w.(levels := y), b);
    EntriesOnce(t, room, s, given.entries, u, w);
    LevelsOnce(t, u.levels, given.levels, x, y);
    KeepsToOnce(t, room, u.(levels := x), a, b);
  }

  /** `absorb` has one result. */
  lemma AbsorbDetermined<V(!new)>(
    t: Tuning<V>, room: int, s: Shape<V>, other: Tuning<V>, o: Shape<V>,
    given: Shape<V>, a: Shape<V>, alike: Shape<V>, b: Shape<V>)
    requires other.Gives(t.memtableLimit / 4, o, given) && t.TakesIn(room, s, given, a)
    requires other.Gives(t.memtableLimit / 4, o, alike) && t.TakesIn(room, s, alike, b)
    ensures a == b
  {
    hide Tuning.WritesOut, Tuning.TakesIn;
    if o.values >= t.memtableLimit / 4 {
      WritesOutOnce(other, o, given, alike);
    }
    TakesInOnce(t, room, s, given, a, b);
  }
}
