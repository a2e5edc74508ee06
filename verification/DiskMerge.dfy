/** The streaming merge of disk runs: one scanner for each run, one buffered entry for each scanner. */
module DiskMerge {
  import opened Wrappers
  import opened Keys
  import opened Entries
  import opened Merge
  import opened Codecs
  import opened RunWriting
  import opened DiskRuns
  import opened DiskReads
  import opened DiskSizes
  import Compaction

  datatype MergeCursor<V(!new)> = MergeCursor(scanner: RunScanner<V>, head: Option<Entry<V>>)

  ghost function Scanners<V(!new)>(cursors: seq<MergeCursor<V>>): set<RunScanner<V>> {
    set c | 0 <= c < |cursors| :: cursors[c].scanner
  }

  ghost predicate Apart<V(!new)>(cursors: seq<MergeCursor<V>>) {
    forall r, q :: 0 <= r < q < |cursors| ==> cursors[r].scanner != cursors[q].scanner
  }

  /** The cursor's head is entry `i`, and its scanner is past it; or both are at the end. */
  ghost predicate CursorAt<V(!new)>(f: Format<V>, c: MergeCursor<V>, es: seq<Entry<V>>, i: nat)
    reads c.scanner
  {
    && c.scanner.format == f && i <= |es|
    && c.head == (if i < |es| then Some(es[i]) else None)
    && c.scanner.At(es, if i < |es| then i + 1 else i)
  }

  ghost predicate CursorsAt<V(!new)>(
    f: Format<V>, cursors: seq<MergeCursor<V>>, sources: seq<seq<Entry<V>>>, at: seq<nat>)
    reads Scanners(cursors)
  {
    && |cursors| == |sources| && |at| == |sources|
    && forall r :: 0 <= r < |sources| ==> CursorAt(f, cursors[r], sources[r], at[r])
  }

  /** Reads the next entry into the cursor. */
  method Refill<V(!new)>(f: Format<V>, scanner: RunScanner<V>, ghost es: seq<Entry<V>>, ghost i: nat)
    returns (c: MergeCursor<V>)
    requires Lawful(f) && scanner.format == f && i <= |es| && scanner.At(es, i)
    modifies scanner
    ensures c.scanner == scanner && CursorAt(f, c, es, i)
  {
    hide Lawful, Writable, OffsetAfter, RunBytes;
    var next := scanner.NextEntry(es, i);
    match next
    case Failed => assert false;
    case End => c := MergeCursor(scanner, None);
    case Got(entry) => c := MergeCursor(scanner, Some(entry));
  }

  method OpenCursors<V(!new)>(f: Format<V>, runs: seq<DiskRun>, ghost sources: seq<seq<Entry<V>>>)
    returns (cursors: seq<MergeCursor<V>>)
    requires Lawful(f) && |runs| == |sources| && forall r :: 0 <= r < |runs| ==> RunOf(f, runs[r], sources[r])
    ensures Apart(cursors) && fresh(Scanners(cursors))
    ensures CursorsAt(f, cursors, sources, seq(|sources|, _ => 0))
  {
    hide Lawful, Writable, RunFor, Sorted, RunScanner.At;
    cursors := [];
    for r := 0 to |runs|
      invariant |cursors| == r && Apart(cursors)
      invariant forall q :: 0 <= q < r ==> fresh(cursors[q].scanner) && CursorAt(f, cursors[q], sources[q], 0)
    {
      assert RunOf(f, runs[r], sources[r]);
      var scanner := new RunScanner(f, runs[r], sources[r]);
      var c := Refill(f, scanner, sources[r], 0);
      cursors := cursors + [c];
    }
  }

  /** The smallest buffered key. */
  method MinKey<V(!new)>(cursors: seq<MergeCursor<V>>) returns (min: Option<Key>)
    ensures min.None? ==> forall r :: 0 <= r < |cursors| ==> cursors[r].head.None?
    ensures min.Some? ==>
      exists r :: 0 <= r < |cursors| && cursors[r].head.Some? && cursors[r].head.value.key == min.value
    ensures min.Some? ==>
      forall r :: 0 <= r < |cursors| && cursors[r].head.Some? ==> AtMost(min.value, cursors[r].head.value.key)
  {
    hide Below;
    min := None;
    for r := 0 to |cursors|
      invariant min.None? ==> forall q :: 0 <= q < r ==> cursors[q].head.None?
      invariant min.Some? ==> exists q :: 0 <= q < r && cursors[q].head.Some? && cursors[q].head.value.key == min.value
      invariant min.Some? ==>
        forall q :: 0 <= q < r && cursors[q].head.Some? ==> AtMost(min.value, cursors[q].head.value.key)
    {
      if cursors[r].head.Some? {
        var key := cursors[r].head.value.key;
        if min.None? {
          min := Some(key);
        } else {
          BelowTotal(key, min.value);
          if Below(key, min.value) {
            forall q | 0 <= q < r && cursors[q].head.Some?
              ensures AtMost(key, cursors[q].head.value.key)
            {
              BelowTransitive(key, min.value, cursors[q].head.value.key);
            }
            min := Some(key);
          }
        }
      }
    }
  }

  /** The cursor positions after every head equal to `min` was taken. */
  ghost function Taken<V>(sources: seq<seq<Entry<V>>>, at: seq<nat>, min: Key): (after: seq<nat>)
    requires |at| == |sources|
    ensures |after| == |at|
    ensures forall r :: 0 <= r < |after| ==>
      after[r] == if HeadIs(KeysOf(sources[r]), at[r], min) then at[r] + 1 else at[r]
  {
    seq(|at|, r requires 0 <= r < |at| => if HeadIs(KeysOf(sources[r]), at[r], min) then at[r] + 1 else at[r])
  }

  /** A source's values of the smallest key are those of its head, if that has the key. */
  lemma HeadValues<V>(es: seq<Entry<V>>, at: nat, min: Key)
    requires Sorted(es) && at <= |es|
    requires forall i :: 0 <= i < at ==> Below(es[i].key, min)
    requires at < |es| ==> AtMost(min, es[at].key)
    ensures ValuesAt(es, min) == if HeadIs(KeysOf(es), at, min) then es[at].vals else []
  {
    hide Below, ValuesAt;
    SortedDistinct(es);
    HeadOrAbsent(KeysOf(es), at, min);
    if HeadIs(KeysOf(es), at, min) {
      ValuesAtIndex(es, at);
    } else {
      KeyAbsent(es, min);
    }
  }

  /** Nothing before the cursors reaches `min`, nothing at them is below it. */
  ghost predicate Frontier<V>(sources: seq<seq<Entry<V>>>, at: seq<nat>, min: Key) {
    && |at| == |sources|
    && forall r :: 0 <= r < |sources| ==>
         && at[r] <= |sources[r]| && Sorted(sources[r])
         && (forall i :: 0 <= i < at[r] ==> Below(sources[r][i].key, min))
         && (at[r] < |sources[r]| ==> AtMost(min, sources[r][at[r]].key))
  }

  /** Takes the cursor's head if it is `min`, and then refills the cursor. */
  method TakeHead<V(!new)>(f: Format<V>, before: MergeCursor<V>, min: Key, ghost es: seq<Entry<V>>, ghost at: nat)
    returns (c: MergeCursor<V>, vals: seq<V>)
    requires Lawful(f) && CursorAt(f, before, es, at)
    requires ValuesAt(es, min) == if HeadIs(KeysOf(es), at, min) then es[at].vals else []
    modifies before.scanner
    ensures c.scanner == before.scanner && vals == ValuesAt(es, min)
    ensures CursorAt(f, c, es, if HeadIs(KeysOf(es), at, min) then at + 1 else at)
  {
    hide Lawful, ValuesAt, RunScanner.At;
    if before.head.Some? && before.head.value.key == min {
      vals := before.head.value.vals;
      c := Refill(f, before.scanner, es, at + 1);
    } else {
      c, vals := before, [];
    }
  }

  /** Takes every head equal to `min`, in run order, and refills those cursors. */
  method TakeHeads<V(!new)>(
    f: Format<V>, before: seq<MergeCursor<V>>, min: Key, ghost sources: seq<seq<Entry<V>>>, ghost at: seq<nat>)
    returns (cursors: seq<MergeCursor<V>>, merged: seq<V>)
    requires Lawful(f) && Apart(before) && CursorsAt(f, before, sources, at) && Frontier(sources, at, min)
    modifies Scanners(before)
    ensures Apart(cursors) && Scanners(cursors) == Scanners(before)
    ensures CursorsAt(f, cursors, sources, Taken(sources, at, min))
    ensures merged == Gather(sources, min)
  {
    hide Lawful, Frontier, Gather, ValuesAt, CursorAt, HeadIs, KeysOf, Taken;
    cursors, merged := before, [];
    NothingGathered<V>(min);
    assert sources[..0] == [];
    for r := 0 to |before|
      invariant |cursors| == |before| && forall q :: 0 <= q < |before| ==> cursors[q].scanner == before[q].scanner
      invariant forall q :: r <= q < |before| ==> cursors[q] == before[q] && CursorAt(f, cursors[q], sources[q], at[q])
      invariant forall q :: 0 <= q < r ==> CursorAt(f, cursors[q], sources[q], Taken(sources, at, min)[q])
      invariant merged == Gather(sources[..r], min)
    {
      SourceAt(sources, at, min, r);
      assert sources[..r + 1] == sources[..r] + [sources[r]];
      GatherSnoc(sources[..r], sources[r], min);
      var c, vals := TakeHead(f, cursors[r], min, sources[r], at[r]);
      cursors, merged := cursors[r := c], merged + vals;
    }
    assert sources[..|before|] == sources;
  }

  lemma NothingGathered<V>(k: Key)
    ensures Gather<V>([], k) == []
  {
  }

  // ------------------------------------------------------------------------
  // Sizes
  // ------------------------------------------------------------------------

  /** What the heads give up is at least what their one entry takes: the key is written once. */
  lemma {:induction false} TakenWeight<V>(f: Format<V>, sources: seq<seq<Entry<V>>>, at: seq<nat>, min: Key, n: nat)
    requires |at| == |sources| && Frontier(sources, at, min) && n <= |sources|
    ensures WeightLeft(f, sources, at, n) >=
      WeightLeft(f, sources, Taken(sources, at, min), n) + |ValuesBytes(f.values, Gather(sources[..n], min))|
      + (if Headed(sources, at, min, n) then KeyWeight(f, min) else 0)
  {
    hide *;
    if n == 0 {
      NothingTaken(f, sources, at, min);
      NothingTaken(f, sources, Taken(sources, at, min), min);
    } else {
      TakenWeight(f, sources, at, min, n - 1);
      SourceAt(sources, at, min, n - 1);
      HeadWeight(f, sources[n - 1], at[n - 1], min);
      HeadedStep(sources, at, min, n);
      OneMoreSource(f, sources, at, n - 1);
      var after := Taken(sources, at, min);
      assert after[n - 1] == if HeadIs(KeysOf(sources[n - 1]), at[n - 1], min) then at[n - 1] + 1 else at[n - 1];
      OneMoreSource(f, sources, after, n - 1);
      assert sources[..n] == sources[..n - 1] + [sources[n - 1]];
      GatherSnoc(sources[..n - 1], sources[n - 1], min);
      ValuesConcat(f.values, Gather(sources[..n - 1], min), ValuesAt(sources[n - 1], min));
    }
  }

  lemma NothingTaken<V>(f: Format<V>, sources: seq<seq<Entry<V>>>, at: seq<nat>, min: Key)
    requires |at| == |sources|
    ensures WeightLeft(f, sources, at, 0) == 0 && !Headed(sources, at, min, 0)
    ensures ValuesBytes(f.values, Gather(sources[..0], min)) == []
  {
    assert sources[..0] == [];
  }

  lemma SourceAt<V>(sources: seq<seq<Entry<V>>>, at: seq<nat>, min: Key, r: nat)
    requires Frontier(sources, at, min) && r < |sources|
    ensures |at| == |sources| && at[r] <= |sources[r]|
    ensures ValuesAt(sources[r], min) == if HeadIs(KeysOf(sources[r]), at[r], min) then sources[r][at[r]].vals else []
  {
    hide Below, Sorted, AtMost, ValuesAt;
    HeadValues(sources[r], at[r], min);
  }

  lemma HeadedStep<V>(sources: seq<seq<Entry<V>>>, at: seq<nat>, min: Key, n: nat)
    requires |at| == |sources| && 0 < n <= |sources|
    ensures Headed(sources, at, min, n) <==>
      Headed(sources, at, min, n - 1) || HeadIs(KeysOf(sources[n - 1]), at[n - 1], min)
  {
    hide HeadIs, KeysOf;
  }

  /** What is written and what is left together never grow. */
  lemma WeightKept<V>(f: Format<V>, sources: seq<seq<Entry<V>>>, at: seq<nat>, min: Key, es: seq<Entry<V>>, r: nat)
    requires |at| == |sources| && Frontier(sources, at, min)
    requires r < |sources| && HeadIs(KeysOf(sources[r]), at[r], min)
    ensures var n := |sources|;
      Weight(f, es + [Entry(min, Gather(sources, min))]) + WeightLeft(f, sources, Taken(sources, at, min), n)
      <= Weight(f, es) + WeightLeft(f, sources, at, n)
  {
    hide Weight, WeightLeft, ValuesBytes, Gather, KeyWeight, Frontier, HeadIs;
    TakenWeight(f, sources, at, min, |sources|);
    assert sources[..|sources|] == sources;
    WeightSnoc(f, es, Entry(min, Gather(sources, min)));
  }

  /** The merge of the sources: every key once with its values in source order, and readable if the sizes fit. */
  ghost predicate IsMerge<V>(f: Format<V>, sources: seq<seq<Entry<V>>>, run: DiskRun, es: seq<Entry<V>>) {
    && run == RunFor(f, es)
    && MergedEntries(sources, es) && Bag(es) == BagAll(sources)
    && (|run.file| < U64 && run.len < U64 ==> RunOf(f, run, es))
  }

  lemma MergeReadable<V>(f: Format<V>, runs: seq<DiskRun>, sources: seq<seq<Entry<V>>>, es: seq<Entry<V>>)
    requires |runs| == |sources| && SortedSources(sources)
    requires forall r :: 0 <= r < |runs| ==> RunOf(f, runs[r], sources[r])
    requires MergedEntries(sources, es) && Bag(es) == BagAll(sources)
    ensures IsMerge(f, sources, RunFor(f, es), es) && Total(es) == ValueCount(runs)
  {
    hide RunBytes, Total, Bag, BagAll, Sorted, ValuesAt, Gather, Writable, SortedSources;
    forall r | 0 <= r < |sources|
      ensures AllEntriesFit(f, sources[r])
    {
      assert RunOf(f, runs[r], sources[r]);
      WritableFits(f, sources[r]);
    }
    MergedFit(f, sources, es);
    if |RunBytes(f, es)| < U64 && Total(es) < U64 {
      FittingIsWritable(f, es);
    }
    Compaction.MergeTotal(sources, es);
    forall r | 0 <= r < |runs|
      ensures Unread(f, runs[r], sources[r], 0)
    {
      assert RunOf(f, runs[r], sources[r]);
    }
    AllValues(f, runs, sources, |runs|);
    assert sources[..|runs|] == sources && runs[..|runs|] == runs;
  }

  // ------------------------------------------------------------------------
  // The merge
  // ------------------------------------------------------------------------

  lemma {:induction false} HoldersOfHead(lists: seq<seq<Key>>, k: Key, r: nat, n: nat)
    requires r < n <= |lists| && k in lists[r]
    ensures Holders(lists, k, n) != []
  {
    hide IndexOf;
    if r < n - 1 {
      HoldersOfHead(lists, k, r, n - 1);
    }
  }

  /** The entries written so far are the visits so far, each with all its values. */
  ghost predicate WroteVisits<V>(sources: seq<seq<Entry<V>>>, visits: seq<Visit>, es: seq<Entry<V>>) {
    && |es| == |visits|
    && forall j :: 0 <= j < |es| ==> es[j] == Entry(visits[j].key, Gather(sources, visits[j].key))
  }

  /** What the merge knows between two entries. */
  ghost predicate Merging<V>(sources: seq<seq<Entry<V>>>, at: seq<nat>, visits: seq<Visit>, es: seq<Entry<V>>) {
    && Cut(KeyLists(sources), at, visits)
    && AscendingVisits(visits) && ExactHolders(KeyLists(sources), visits)
    && WroteVisits(sources, visits, es)
  }

  lemma StartMerging<V>(sources: seq<seq<Entry<V>>>)
    ensures Merging(sources, seq(|sources|, _ => 0), [], [])
  {
  }

  /** The smallest head is a frontier of the sources. */
  lemma MinIsFrontier<V>(sources: seq<seq<Entry<V>>>, at: seq<nat>, visits: seq<Visit>, min: Key)
    requires SortedSources(sources) && Cut(KeyLists(sources), at, visits)
    requires InBounds(KeyLists(sources), at) && IsMinHead(KeyLists(sources), at, min)
    ensures Frontier(sources, at, min)
  {
    hide Below, Sorted, Visited;
    VisitedBelow(KeyLists(sources), at, visits, min);
    forall r | 0 <= r < |sources|
      ensures at[r] <= |sources[r]| && Sorted(sources[r])
      ensures forall i :: 0 <= i < at[r] ==> Below(sources[r][i].key, min)
      ensures at[r] < |sources[r]| ==> AtMost(min, sources[r][at[r]].key)
    {
      assert KeyLists(sources)[r] == KeysOf(sources[r]);
      forall i | 0 <= i < at[r]
        ensures Below(sources[r][i].key, min)
      {
        assert KeyLists(sources)[r][i] == sources[r][i].key;
      }
      if at[r] < |sources[r]| {
        assert KeyLists(sources)[r][at[r]] == sources[r][at[r]].key;
      }
    }
  }

  /** Writing the smallest key with all its values is one more visit. */
  lemma OneMoreVisit<V>(sources: seq<seq<Entry<V>>>, at: seq<nat>, visits: seq<Visit>, es: seq<Entry<V>>, min: Key)
    returns (v: Visit)
    requires SortedSources(sources) && Merging(sources, at, visits, es)
    requires InBounds(KeyLists(sources), at) && IsMinHead(KeyLists(sources), at, min)
    ensures InBounds(KeyLists(sources), Taken(sources, at, min))
    ensures Merging(sources, Taken(sources, at, min), visits + [v], es + [Entry(min, Gather(sources, min))])
    ensures Remaining(KeyLists(sources), Taken(sources, at, min)) < Remaining(KeyLists(sources), at)
  {
    hide Below, Holders, AllAscending, Gather, SortedSources, Cut, IsMinHead, HeadIs, KeysOf, Remaining, InBounds;
    hide AscendingVisits, ExactHolders, WroteVisits;
    var lists := KeyLists(sources);
    SourcesAscend(sources);
    v := Visit(min, Holders(lists, min, |lists|));
    CursorsAdvance(sources, at, visits, v);
    MinIsHeld(sources, at, min);
    VisitAdds(lists, visits, v);
    VisitWritten(sources, visits, es, v);
  }

  lemma CursorsAdvance<V>(sources: seq<seq<Entry<V>>>, at: seq<nat>, visits: seq<Visit>, v: Visit)
    requires AllAscending(KeyLists(sources)) && Cut(KeyLists(sources), at, visits)
    requires InBounds(KeyLists(sources), at) && IsMinHead(KeyLists(sources), at, v.key)
    ensures InBounds(KeyLists(sources), Taken(sources, at, v.key))
    ensures Cut(KeyLists(sources), Taken(sources, at, v.key), visits + [v])
    ensures Remaining(KeyLists(sources), Taken(sources, at, v.key)) < Remaining(KeyLists(sources), at)
    ensures forall j :: 0 <= j < |visits| ==> Below(visits[j].key, v.key)
  {
    hide Below, AllAscending, KeysOf, Visited, Remaining;
    var lists, after := KeyLists(sources), Taken(sources, at, v.key);
    var w :| 0 <= w < |lists| && HeadIs(lists[w], at[w], v.key);
    CutAdvances(lists, at, after, visits, v);
    assert after[w] == at[w] + 1;
    RemainingDrops(lists, at, after);
  }

  lemma MinIsHeld<V>(sources: seq<seq<Entry<V>>>, at: seq<nat>, min: Key)
    requires InBounds(KeyLists(sources), at) && IsMinHead(KeyLists(sources), at, min)
    ensures Holders(KeyLists(sources), min, |sources|) != []
  {
    hide Holders, KeysOf, AtMost;
    var lists := KeyLists(sources);
    var w :| 0 <= w < |lists| && HeadIs(lists[w], at[w], min);
    HoldersOfHead(lists, min, w, |lists|);
  }

  /** The visit comes last, and has its holders. */
  lemma VisitAdds(lists: seq<seq<Key>>, visits: seq<Visit>, v: Visit)
    requires v.holders == Holders(lists, v.key, |lists|) && v.holders != []
    requires AscendingVisits(visits) && ExactHolders(lists, visits)
    requires forall j :: 0 <= j < |visits| ==> Below(visits[j].key, v.key)
    ensures AscendingVisits(visits + [v]) && ExactHolders(lists, visits + [v])
  {
    hide Below, Holders;
    var more := visits + [v];
    forall i | 0 <= i < |more|
      ensures more[i].holders == Holders(lists, more[i].key, |lists|) && more[i].holders != []
    {
      assert more[i] == if i < |visits| then visits[i] else v;
    }
  }

  lemma VisitWritten<V>(sources: seq<seq<Entry<V>>>, visits: seq<Visit>, es: seq<Entry<V>>, v: Visit)
    requires WroteVisits(sources, visits, es)
    ensures WroteVisits(sources, visits + [v], es + [Entry(v.key, Gather(sources, v.key))])
  {
    hide Gather;
  }

  lemma DoneMerging<V>(sources: seq<seq<Entry<V>>>, at: seq<nat>, visits: seq<Visit>, es: seq<Entry<V>>)
    requires SortedSources(sources) && Merging(sources, at, visits, es)
    requires forall r :: 0 <= r < |sources| ==> at[r] == |sources[r]|
    ensures MergedEntries(sources, es) && Bag(es) == BagAll(sources)
  {
    hide Below, Holders, Gather, SortedSources, Visited, MergedEntries, Bag, BagAll, Places, HeldValues;
    var lists := KeyLists(sources);
    forall r, i | 0 <= r < |lists| && 0 <= i < |lists[r]|
      ensures Visited(visits, lists[r][i])
    {
      assert lists[r] == KeysOf(sources[r]);
    }
    VisitsArePlaces(sources, visits);
    VisitsMerge(sources, visits);
    assert es == VisitEntries(sources, visits);
    MergeKeepsBag(sources, es);
  }

  lemma HeadsAreMin<V(!new)>(
    f: Format<V>, cursors: seq<MergeCursor<V>>, sources: seq<seq<Entry<V>>>, at: seq<nat>, min: Key)
    requires CursorsAt(f, cursors, sources, at)
    requires exists r :: 0 <= r < |cursors| && cursors[r].head.Some? && cursors[r].head.value.key == min
    requires forall r :: 0 <= r < |cursors| && cursors[r].head.Some? ==> AtMost(min, cursors[r].head.value.key)
    ensures InBounds(KeyLists(sources), at) && IsMinHead(KeyLists(sources), at, min)
  {
  }

  /**
   `merge_disk_runs`: writes one run with every key of the given runs once, in order, with its values in
   run order; no pair is lost or added. It has as many values as the runs and, headers and footers apart,
   no more bytes; while these are 64-bit numbers it can be read, searched and merged again.
   */
  method MergeDiskRuns<V(!new)>(f: Format<V>, runs: seq<DiskRun>, ghost sources: seq<seq<Entry<V>>>)
    returns (run: DiskRun)
    requires Lawful(f) && |runs| == |sources| && SortedSources(sources)
    requires forall r :: 0 <= r < |runs| ==> RunOf(f, runs[r], sources[r])
    ensures exists es :: IsMerge(f, sources, run, es)
    ensures |run.file| - EMPTY_RUN_LEN <= PayloadBytes(runs)
    ensures run.len == ValueCount(runs)
  {
    hide Lawful, SortedSources, CursorAt, CursorsAt, Apart, Merging, MergedEntries, Bag, BagAll, RunFor, Gather;
    hide Frontier, IsMinHead, DiskRunWriter.Valid, Left, AtMost, RunOf, Cut, Remaining, HeadIs, KeysOf;
    hide WeightLeft, Weight, IsMerge, PayloadBytes, ValueCount, Total;
    var writer := new DiskRunWriter(f);
    var cursors := OpenCursors(f, runs, sources);
    ghost var at, visits: seq<Visit> := seq(|sources|, _ => 0), [];
    ghost var all := WeightLeft(f, sources, at, |sources|);
    StartMerging(sources);
    StartWeight(f, runs, sources, at);
    while true
      invariant fresh(writer) && writer.Valid() && writer.format == f
      invariant Apart(cursors) && fresh(Scanners(cursors)) && CursorsAt(f, cursors, sources, at)
      invariant Merging(sources, at, visits, writer.entries)
      invariant |at| == |sources| && Weight(f, writer.entries) + WeightLeft(f, sources, at, |sources|) <= all
      decreases Left(sources, at)
    {
      var min := MinKey(cursors);
      if min.None? {
        AllTaken(f, cursors, sources, at);
        DoneMerging(sources, at, visits, writer.entries);
        break;
      }
      cursors, at, visits := MergeStep(f, cursors, min.value, writer, sources, at, visits);
    }
    run := writer.Finish();
    MergeReadable(f, runs, sources, writer.entries);
    RunLength(f, writer.entries);
  }

  lemma StartWeight<V>(f: Format<V>, runs: seq<DiskRun>, sources: seq<seq<Entry<V>>>, at: seq<nat>)
    requires |runs| == |sources| == |at| && forall r :: 0 <= r < |runs| ==> RunOf(f, runs[r], sources[r]) && at[r] == 0
    ensures Weight(f, []) == 0
    ensures WeightLeft(f, sources, at, |sources|) == PayloadBytes(runs)
  {
    hide WeightLeft, PayloadBytes, Writable, Sorted, RunFor;
    forall r | 0 <= r < |runs|
      ensures Unread(f, runs[r], sources[r], at[r])
    {
      assert RunOf(f, runs[r], sources[r]);
    }
    AllLeft(f, runs, sources, at, |runs|);
    assert runs[..|runs|] == runs;
  }

  /** How many entries the merge has yet to take. */
  ghost function Left<V>(sources: seq<seq<Entry<V>>>, at: seq<nat>): nat {
    if InBounds(KeyLists(sources), at) then Remaining(KeyLists(sources), at) else 0
  }

  lemma LeftDrops<V>(sources: seq<seq<Entry<V>>>, at: seq<nat>, after: seq<nat>)
    requires InBounds(KeyLists(sources), at) && InBounds(KeyLists(sources), after)
    requires Remaining(KeyLists(sources), after) < Remaining(KeyLists(sources), at)
    ensures Left(sources, after) < Left(sources, at)
  {
    hide Remaining, InBounds;
  }

  /** Writes the smallest buffered key, and moves every cursor that had it. */
  method MergeStep<V(!new)>(
    f: Format<V>, before: seq<MergeCursor<V>>, min: Key, writer: DiskRunWriter<V>,
    ghost sources: seq<seq<Entry<V>>>, ghost at: seq<nat>, ghost visits: seq<Visit>)
    returns (cursors: seq<MergeCursor<V>>, ghost after: seq<nat>, ghost more: seq<Visit>)
    requires Lawful(f) && SortedSources(sources) && writer.Valid() && writer.format == f
    requires Apart(before) && CursorsAt(f, before, sources, at) && Merging(sources, at, visits, writer.entries)
    requires exists r :: 0 <= r < |before| && before[r].head.Some? && before[r].head.value.key == min
    requires forall r :: 0 <= r < |before| && before[r].head.Some? ==> AtMost(min, before[r].head.value.key)
    modifies writer, Scanners(before)
    ensures writer.Valid() && Apart(cursors) && Scanners(cursors) == Scanners(before)
    ensures CursorsAt(f, cursors, sources, after) && Merging(sources, after, more, writer.entries)
    ensures Left(sources, after) < Left(sources, at)
    ensures |at| == |sources| == |after|
    ensures Weight(f, writer.entries) + WeightLeft(f, sources, after, |sources|)
      <= Weight(f, old(writer.entries)) + WeightLeft(f, sources, at, |sources|)
  {
    hide Lawful, SortedSources, CursorAt, CursorsAt, Apart, Merging, MergedEntries, Bag, BagAll, RunFor, Gather;
    hide Frontier, IsMinHead, DiskRunWriter.Valid, Left, AtMost, RunOf, Cut, Remaining, HeadIs, KeysOf;
    hide WeightLeft, Weight;
    HeadsAreMin(f, before, sources, at, min);
    MergingCut(sources, at, visits, writer.entries);
    MinIsFrontier(sources, at, visits, min);
    ghost var v := OneMoreVisit(sources, at, visits, writer.entries, min);
    more := visits + [v];
    MergingCut(sources, Taken(sources, at, min), more, writer.entries + [Entry(min, Gather(sources, min))]);
    LeftDrops(sources, at, Taken(sources, at, min));
    ghost var r := MinHolder(sources, at, min);
    WeightKept(f, sources, at, min, writer.entries, r);
    var merged;
    cursors, merged := TakeHeads(f, before, min, sources, at);
    after := Taken(sources, at, min);
    writer.Push(min, merged);
  }

  lemma MinHolder<V>(sources: seq<seq<Entry<V>>>, at: seq<nat>, min: Key) returns (r: nat)
    requires InBounds(KeyLists(sources), at) && IsMinHead(KeyLists(sources), at, min)
    ensures |at| == |sources| && r < |sources| && HeadIs(KeysOf(sources[r]), at[r], min)
  {
    hide HeadIs, AtMost, KeysOf;
    r :| 0 <= r < |sources| && HeadIs(KeyLists(sources)[r], at[r], min);
  }

  lemma MergingCut<V>(sources: seq<seq<Entry<V>>>, at: seq<nat>, visits: seq<Visit>, es: seq<Entry<V>>)
    requires Merging(sources, at, visits, es)
    ensures Cut(KeyLists(sources), at, visits) && InBounds(KeyLists(sources), at)
  {
    hide ExactHolders, WroteVisits, InBounds;
  }

  lemma AllTaken<V(!new)>(f: Format<V>, cursors: seq<MergeCursor<V>>, sources: seq<seq<Entry<V>>>, at: seq<nat>)
    requires CursorsAt(f, cursors, sources, at) && forall r :: 0 <= r < |cursors| ==> cursors[r].head.None?
    ensures forall r :: 0 <= r < |sources| ==> at[r] == |sources[r]|
  {
  }
}
