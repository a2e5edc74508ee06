/** The levels of runs, what they hold together, and how a push changes it. */
module Levels {
  import opened Keys
  import opened Entries
  import opened Runs
  import opened Compaction

  /** A run's pairs. */
  ghost function RunBag<V>(run: Run<V>): multiset<(Key, V)> {
    if OffsetsClimb(run) then Bag(EntriesOf(run)) else multiset{}
  }

  ghost function RunsBag<V>(runs: seq<Run<V>>): multiset<(Key, V)> {
    if runs == [] then multiset{} else RunBag(runs[0]) + RunsBag(runs[1..])
  }

  ghost function LevelsBag<V>(levels: seq<seq<Run<V>>>): multiset<(Key, V)> {
    if levels == [] then multiset{} else RunsBag(levels[0]) + LevelsBag(levels[1..])
  }

  ghost function CountRuns<V>(levels: seq<seq<Run<V>>>): nat {
    if levels == [] then 0 else |levels[0]| + CountRuns(levels[1..])
  }

  /** Every run is valid, and no level holds more than the fanout. */
  ghost predicate LevelsOk<V>(ps: Params, levels: seq<seq<Run<V>>>, fanout: nat) {
    forall l :: 0 <= l < |levels| ==> ValidRuns(ps, levels[l]) && |levels[l]| <= fanout
  }

  lemma {:induction false} RunsBagSnoc<V>(runs: seq<Run<V>>, run: Run<V>)
    ensures RunsBag(runs + [run]) == RunsBag(runs) + RunBag(run)
  {
    hide RunBag;
    if runs == [] {
      assert runs + [run] == [run] && [run][1..] == [];
    } else {
      assert (runs + [run])[1..] == runs[1..] + [run];
      RunsBagSnoc(runs[1..], run);
    }
  }

  lemma {:induction false} RunsBagIsBagAll<V>(ps: Params, runs: seq<Run<V>>)
    requires ValidRuns(ps, runs)
    ensures RunsBag(runs) == BagAll(Sources(ps, runs))
  {
    hide Bag, Ascending, FiltersCover;
    if runs != [] {
      RunsBagIsBagAll(ps, runs[1..]);
      assert ValidRun(ps, runs[0]);
      assert Sources(ps, runs)[1..] == Sources(ps, runs[1..]);
    }
  }

  /** Replacing one level's runs changes the pairs and the run count by exactly those. */
  lemma {:induction false} LevelReplaced<V>(levels: seq<seq<Run<V>>>, l: nat, runs: seq<Run<V>>)
    requires l < |levels|
    ensures LevelsBag(levels[l := runs]) + RunsBag(levels[l]) == LevelsBag(levels) + RunsBag(runs)
    ensures CountRuns(levels[l := runs]) + |levels[l]| == CountRuns(levels) + |runs|
  {
    hide RunsBag;
    var after := levels[l := runs];
    if l == 0 {
      assert after[1..] == levels[1..];
    } else {
      var rest := levels[1..];
      LevelReplaced(rest, l - 1, runs);
      assert after[1..] == rest[l - 1 := runs];
      SumsAgree(RunsBag(levels[0]), LevelsBag(after[1..]), RunsBag(levels[l]), LevelsBag(rest), RunsBag(runs));
    }
  }

  lemma SumsAgree<T>(a: multiset<T>, b: multiset<T>, c: multiset<T>, d: multiset<T>, e: multiset<T>)
    requires b + c == d + e
    ensures a + b + c == a + d + e
  {
    assert a + b + c == a + (b + c) && a + d + e == a + (d + e);
  }

  lemma SumCancels<T>(a: multiset<T>, b: multiset<T>, c: multiset<T>)
    requires a + c == b + c
    ensures a == b
  {
    assert a == a + c - c && b == b + c - c;
  }

  lemma {:induction false} EmptyLevelsAdded<V>(levels: seq<seq<Run<V>>>, n: nat)
    ensures var after := levels + seq(n, _ => []);
      LevelsBag(after) == LevelsBag(levels) && CountRuns(after) == CountRuns(levels)
    decreases |levels|, n
  {
    hide RunBag;
    var empties: seq<seq<Run<V>>> := seq(n, _ => []);
    var after := levels + empties;
    if levels != [] {
      EmptyLevelsAdded(levels[1..], n);
      assert after[1..] == levels[1..] + empties;
    } else if n > 0 {
      EmptyLevelsAdded(levels, n - 1);
      assert after[1..] == levels + seq(n - 1, _ => []);
    }
  }

  lemma EmptyLevelsOk<V>(ps: Params, levels: seq<seq<Run<V>>>, fanout: nat, n: nat)
    requires LevelsOk(ps, levels, fanout)
    ensures LevelsOk(ps, levels + seq(n, _ => []), fanout)
  {
    hide ValidRun;
  }

  lemma {:induction false} LevelsBagConcat<V>(a: seq<seq<Run<V>>>, b: seq<seq<Run<V>>>)
    ensures LevelsBag(a + b) == LevelsBag(a) + LevelsBag(b)
  {
    hide RunsBag;
    if a == [] {
      assert a + b == b;
    } else {
      assert (a + b)[1..] == a[1..] + b;
      LevelsBagConcat(a[1..], b);
    }
  }

  lemma LevelsBagSnoc<V>(levels: seq<seq<Run<V>>>, runs: seq<Run<V>>)
    ensures LevelsBag(levels + [runs]) == LevelsBag(levels) + RunsBag(runs)
  {
    hide RunsBag;
    LevelsBagConcat(levels, [runs]);
    assert [runs][1..] == [];
  }

  /** A push into a level with room. */
  lemma PushFits<V>(ps: Params, levels: seq<seq<Run<V>>>, level: nat, run: Run<V>, fanout: nat)
    requires LevelsOk(ps, levels, fanout) && ValidRun(ps, run)
    requires level < |levels| && |levels[level]| + 1 <= fanout
    ensures var after := levels[level := levels[level] + [run]];
      LevelsOk(ps, after, fanout) && LevelsBag(after) == LevelsBag(levels) + RunBag(run)
  {
    hide ValidRun, RunBag, RunsBag, LevelsBag, CountRuns;
    var after := levels[level := levels[level] + [run]];
    RunsBagSnoc(levels[level], run);
    LevelReplaced(levels, level, levels[level] + [run]);
    assert ValidRuns(ps, levels[level] + [run]);
    PushedBag(LevelsBag(levels), LevelsBag(after), RunsBag(levels[level]), RunBag(run));
  }

  /** A push into a full level: its runs leave for the merge, and fewer runs remain than before. */
  lemma PushSpills<V>(ps: Params, levels: seq<seq<Run<V>>>, level: nat, run: Run<V>, fanout: nat)
    requires LevelsOk(ps, levels, fanout) && ValidRun(ps, run) && fanout > 0
    requires level < |levels| && |levels[level]| + 1 > fanout
    ensures var emptied, runs := levels[level := []], levels[level] + [run];
      && LevelsOk(ps, emptied, fanout) && ValidRuns(ps, runs)
      && CountRuns(emptied) < CountRuns(levels)
      && LevelsBag(emptied) + RunsBag(runs) == LevelsBag(levels) + RunBag(run)
  {
    hide ValidRun, RunBag, RunsBag, LevelsBag, CountRuns;
    var emptied := levels[level := []];
    RunsBagSnoc(levels[level], run);
    LevelReplaced(levels, level, []);
    EmptyRuns<V>();
    assert LevelsBag(emptied) + RunsBag(levels[level]) == LevelsBag(levels);
    assert LevelsBag(emptied) + (RunsBag(levels[level]) + RunBag(run))
        == LevelsBag(emptied) + RunsBag(levels[level]) + RunBag(run);
  }

  lemma PushedBag<T>(before: multiset<T>, after: multiset<T>, level: multiset<T>, run: multiset<T>)
    requires after + level == before + (level + run)
    ensures after == before + run
  {
    assert before + (level + run) == before + run + level;
    SumCancels(after, before + run, level);
  }

  lemma EmptyRuns<V>()
    ensures RunsBag<V>([]) == multiset{}
  {
  }

  lemma MergedBag<V>(ps: Params, runs: seq<Run<V>>, merged: Run<V>)
    requires ValidRuns(ps, runs) && ValidRun(ps, merged)
    requires Bag(EntriesOf(merged)) == BagAll(Sources(ps, runs))
    ensures RunBag(merged) == RunsBag(runs)
  {
    hide Bag, BagAll, RunsBag, Ascending, FiltersCover;
    RunsBagIsBagAll(ps, runs);
  }
}
