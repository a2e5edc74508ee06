/**
 Compaction: merging runs into one, and writing a sorted write buffer out as a run. Both go
 through the run writer and are proved never to trip its overflow and underflow assertions.
 */
module Compaction {
  import opened Keys
  import opened Entries
  import opened Runs
  import opened Merge
  import opened RunWriting
  import Bloom

  ghost predicate ValidRuns<V>(ps: Params, runs: seq<Run<V>>) {
    forall r :: 0 <= r < |runs| ==> ValidRun(ps, runs[r])
  }

  /** The runs as merge sources. */
  function Sources<V>(ps: Params, runs: seq<Run<V>>): (sources: seq<seq<Entry<V>>>)
    requires ValidRuns(ps, runs)
    ensures |sources| == |runs|
    ensures forall r :: 0 <= r < |runs| ==> sources[r] == EntriesOf(runs[r])
  {
    seq(|runs|, r requires 0 <= r < |runs| => EntriesOf(runs[r]))
  }

  lemma SourcesSorted<V>(ps: Params, runs: seq<Run<V>>)
    requires ValidRuns(ps, runs)
    ensures SortedSources(Sources(ps, runs))
  {
  }

  // ------------------------------------------------------------------------
  // Room for the merge
  // ------------------------------------------------------------------------

  ghost function TotalAll<V>(sources: seq<seq<Entry<V>>>): nat {
    if sources == [] then 0 else Total(sources[0]) + TotalAll(sources[1..])
  }

  ghost function CountAll<V>(sources: seq<seq<Entry<V>>>): nat {
    if sources == [] then 0 else |sources[0]| + CountAll(sources[1..])
  }

  lemma {:induction false} BagAllSize<V>(sources: seq<seq<Entry<V>>>)
    ensures |BagAll(sources)| == TotalAll(sources)
  {
    if sources != [] {
      BagSize(sources[0]);
      BagAllSize(sources[1..]);
    }
  }

  /** A merge has exactly the values of its sources. */
  lemma MergeTotal<V>(sources: seq<seq<Entry<V>>>, es: seq<Entry<V>>)
    requires SortedSources(sources) && MergedEntries(sources, es)
    ensures Total(es) == TotalAll(sources)
  {
    hide SortedSources, MergedEntries, Bag, BagAll;
    MergeKeepsBag(sources, es);
    BagSize(es);
    BagAllSize(sources);
  }

  ghost function KeySet<V>(es: seq<Entry<V>>): set<Key> {
    set i | 0 <= i < |es| :: es[i].key
  }

  lemma {:induction false} KeySetSize<V>(es: seq<Entry<V>>)
    ensures |KeySet(es)| <= |es|
    ensures DistinctKeys(es) ==> |KeySet(es)| == |es|
  {
    if es != [] {
      var n := |es| - 1;
      var init := es[..n];
      KeySetSize(init);
      assert KeySet(es) == KeySet(init) + {es[n].key};
    }
  }

  ghost function AllKeys<V>(sources: seq<seq<Entry<V>>>): set<Key> {
    if sources == [] then {} else KeySet(sources[0]) + AllKeys(sources[1..])
  }

  lemma {:induction false} AllKeysSize<V>(sources: seq<seq<Entry<V>>>)
    ensures |AllKeys(sources)| <= CountAll(sources)
  {
    if sources != [] {
      KeySetSize(sources[0]);
      AllKeysSize(sources[1..]);
    }
  }

  lemma {:induction false} GatherKeys<V>(sources: seq<seq<Entry<V>>>, k: Key)
    requires Gather(sources, k) != []
    ensures k in AllKeys(sources)
  {
    if sources != [] {
      if ValuesAt(sources[0], k) == [] {
        GatherKeys(sources[1..], k);
      } else if k !in KeySet(sources[0]) {
        assert forall i :: 0 <= i < |sources[0]| ==> sources[0][i].key in KeySet(sources[0]);
        ValuesAtAbsent(sources[0], k);
      }
    }
  }

  lemma SubsetSize<T>(a: set<T>, b: set<T>)
    requires a <= b
    ensures |a| <= |b|
  {
    assert b == a + (b - a);
  }

  /** A merge has at most as many entries as its sources. */
  lemma MergeCount<V>(sources: seq<seq<Entry<V>>>, es: seq<Entry<V>>)
    requires MergedEntries(sources, es)
    ensures |es| <= CountAll(sources)
  {
    hide Below, Gather, ValuesAt, AllKeys, CountAll;
    SortedDistinct(es);
    forall k | k in KeySet(es)
      ensures k in AllKeys(sources)
    {
      var i :| 0 <= i < |es| && es[i].key == k;
      ValuesAtIndex(es, i);
      GatherKeys(sources, k);
    }
    KeySetSize(es);
    AllKeysSize(sources);
    SubsetSize(KeySet(es), AllKeys(sources));
  }

  // ------------------------------------------------------------------------
  // Writing
  // ------------------------------------------------------------------------

  /** What is left to write still fits. */
  lemma RoomLeft<V>(writer: RunWriter<V>, es: seq<Entry<V>>, j: nat, vals: seq<V>)
    requires writer.Valid() && Total(es) == writer.valuesLen && j < |es| && |vals| <= |es[j].vals|
    requires |writer.Contents()| == j + 1 && writer.Contents()[..j] == es[..j]
    requires |writer.Contents()[j].vals| + |vals| <= |es[j].vals|
    ensures |writer.values| + |vals| <= writer.valuesLen
  {
    hide Written, Total, Covers, WellCut, ExactFilters;
    var c := writer.Contents();
    WroteTotal(writer);
    assert c == es[..j] + [c[j]];
    TotalConcat(es[..j], [c[j]]);
    TotalSingle(c[j]);
    TotalThrough(es, j);
  }

  lemma TotalThrough<V>(es: seq<Entry<V>>, j: nat)
    requires j < |es|
    ensures Total(es[..j]) + |es[j].vals| <= Total(es)
  {
    hide Total;
    assert es == es[..j] + [es[j]] + es[j + 1..];
    TotalConcat(es[..j] + [es[j]], es[j + 1..]);
    TotalConcat(es[..j], [es[j]]);
    TotalSingle(es[j]);
  }

  /** The value column holds exactly the entries' values. */
  lemma WroteTotal<V>(writer: RunWriter<V>)
    requires writer.Valid()
    ensures Total(writer.Contents()) == |writer.values|
  {
    hide Written, Total, Covers, ExactFilters;
    var n := |writer.keys|;
    WrittenTotal(writer.keys, writer.offsets, writer.values, n);
    assert writer.Contents()[..n] == writer.Contents();
    if n == 0 {
      assert writer.Contents() == [];
    }
  }

  method WriteEntry<V>(e: Entry<V>, writer: RunWriter<V>, ghost es: seq<Entry<V>>, ghost j: nat)
    requires writer.Valid() && |e.key| == writer.ps.width
    requires j < |es| <= writer.maxEntries && Total(es) == writer.valuesLen
    requires es[j] == e && writer.Contents() == es[..j]
    modifies writer
    ensures writer.Valid() && writer.Contents() == es[..j + 1]
  {
    hide Total, Written, Covers, WellCut, ExactFilters;
    writer.StartKey(e.key);
    assert writer.Contents()[..j] == es[..j];
    RoomLeft(writer, es, j, e.vals);
    writer.AppendValues(e.vals);
    assert e == Entry(e.key, [] + e.vals);
    assert es[..j + 1] == es[..j] + [es[j]];
  }

  /** The flush of a write buffer: its entries, sorted, become a run. */
  method WriteRun<V>(ps: Params, es: seq<Entry<V>>, valuesLen: nat, prefixLens: seq<nat>) returns (run: Run<V>)
    requires Sorted(es) && Inhabited(es) && Total(es) == valuesLen
    requires forall i :: 0 <= i < |es| ==> |es[i].key| == ps.width
    requires forall f :: 0 <= f < |prefixLens| ==> prefixLens[f] <= ps.width
    ensures ValidRun(ps, run) && EntriesOf(run) == es && |run.values| == valuesLen
    ensures ExactFilters(ps, Bloom.BlocksFor(|es|), prefixLens, run.keys, run.filter, run.prefixFilters)
  {
    hide *;
    var writer := new RunWriter<V>(ps, |es|, valuesLen, prefixLens);
    assert es[..0] == [];
    for j := 0 to |es|
      invariant fresh(writer) && writer.Valid() && writer.Contents() == es[..j]
    {
      WriteEntry(es[j], writer, es, j);
    }
    assert es[..|es|] == es;
    WroteTotal(writer);
    run := writer.Finish();
  }

  lemma {:induction false} HeldPrefix<V>(sources: seq<seq<Entry<V>>>, holders: seq<(nat, nat)>, h: nat)
    requires Places(sources, holders) && h <= |holders|
    ensures Places(sources, holders[..h])
    ensures |HeldValues(sources, holders[..h])| <= |HeldValues(sources, holders)|
    decreases |holders| - h
  {
    if h == |holders| {
      assert holders[..h] == holders;
    } else {
      HeldPrefix(sources, holders, h + 1);
      assert holders[..h + 1] == holders[..h] + [holders[h]];
      HeldSnoc(sources, holders[..h], holders[h]);
    }
  }

  /** Writes one visit: its key, then the values of every run that holds it. */
  method WriteVisit<V>(ps: Params, runs: seq<Run<V>>, visit: Visit, writer: RunWriter<V>,
                       ghost es: seq<Entry<V>>, ghost j: nat)
    requires ValidRuns(ps, runs) && Places(Sources(ps, runs), visit.holders)
    requires writer.Valid() && writer.ps == ps && |visit.key| == ps.width
    requires j < |es| <= writer.maxEntries && Total(es) == writer.valuesLen
    requires es[j] == Entry(visit.key, HeldValues(Sources(ps, runs), visit.holders))
    requires writer.Contents() == es[..j]
    modifies writer
    ensures writer.Valid() && writer.Contents() == es[..j + 1]
  {
    hide Total, ValidRun, Written, Covers, HeldValues, ValidRuns, WellCut, ExactFilters;
    ghost var sources: seq<seq<Entry<V>>> := Sources(ps, runs);
    var holders := visit.holders;
    writer.StartKey(visit.key);
    HeldPrefix(sources, holders, 0);
    HeldNone(sources, holders[..0]);
    for h := 0 to |holders|
      invariant writer.Valid()
      invariant Places(sources, holders[..h])
      invariant writer.Contents() == es[..j] + [Entry(visit.key, HeldValues(sources, holders[..h]))]
    {
      AppendHolder(ps, runs, visit, writer, es, j, h);
    }
    assert holders[..|holders|] == holders;
    assert es[..j + 1] == es[..j] + [es[j]];
  }

  /** Appends the values of one run that holds the visited key. */
  method AppendHolder<V>(ps: Params, runs: seq<Run<V>>, visit: Visit, writer: RunWriter<V>,
                         ghost es: seq<Entry<V>>, ghost j: nat, h: nat)
    requires ValidRuns(ps, runs) && Places(Sources(ps, runs), visit.holders) && h < |visit.holders|
    requires writer.Valid() && j < |es| && Total(es) == writer.valuesLen
    requires es[j] == Entry(visit.key, HeldValues(Sources(ps, runs), visit.holders))
    requires Places(Sources(ps, runs), visit.holders[..h])
    requires writer.Contents() == es[..j] + [Entry(visit.key, HeldValues(Sources(ps, runs), visit.holders[..h]))]
    modifies writer`values
    ensures writer.Valid() && Places(Sources(ps, runs), visit.holders[..h + 1])
    ensures writer.Contents() == es[..j] + [Entry(visit.key, HeldValues(Sources(ps, runs), visit.holders[..h + 1]))]
  {
    hide Total, ValidRun, Written, Covers, HeldValues, ValidRuns, WellCut, ExactFilters;
    ghost var sources: seq<seq<Entry<V>>> := Sources(ps, runs);
    var holders := visit.holders;
    var (r, i) := holders[h];
    RunOf(ps, runs, r);
    var vals := runs[r].values[runs[r].offsets[i]..runs[r].offsets[i + 1]];
    assert vals == sources[r][i].vals;
    HeldPrefix(sources, holders, h + 1);
    assert holders[..h + 1] == holders[..h] + [holders[h]];
    HeldSnoc(sources, holders[..h], holders[h]);
    assert writer.Contents()[..j] == es[..j];
    RoomLeft(writer, es, j, vals);
    writer.AppendValues(vals);
  }

  lemma HeldNone<V>(sources: seq<seq<Entry<V>>>, holders: seq<(nat, nat)>)
    requires holders == []
    ensures HeldValues(sources, holders) == []
  {
  }

  lemma RunOf<V>(ps: Params, runs: seq<Run<V>>, r: nat)
    requires ValidRuns(ps, runs) && r < |runs|
    ensures ValidRun(ps, runs[r]) && OffsetsClimb(runs[r]) && |Sources(ps, runs)[r]| == |runs[r].keys|
  {
    hide OffsetsClimb, FiltersCover, Ascending;
  }

  /** A run's values are all in its entries. */
  lemma RunTotal<V>(ps: Params, run: Run<V>)
    requires ValidRun(ps, run)
    ensures Total(EntriesOf(run)) == |run.values|
  {
    hide Below, FiltersCover, Total, Written, WellCut, EntriesOf;
    var n := |run.keys|;
    RunIsCut(ps, run);
    var es := EntriesOf(run);
    assert es[..n] == es;
    WrittenTotal(run.keys, run.offsets[..n], run.values, n);
  }

  lemma RunIsCut<V>(ps: Params, run: Run<V>)
    requires ValidRun(ps, run)
    ensures var offsets := run.offsets[..|run.keys|];
      && WellCut(run.keys, offsets, run.values)
      && EntriesOf(run) == Written(run.keys, offsets, run.values)
      && (run.keys != [] ==> EndOf(offsets, run.values, |run.keys| - 1) == |run.values|)
      && (run.keys == [] ==> run.values == [])
  {
    hide Ascending, FiltersCover, Written, WellCut, EntriesOf, OffsetsClimb;
    OffsetsCut(run);
    var es, written := EntriesOf(run), Written(run.keys, run.offsets[..|run.keys|], run.values);
    forall i | 0 <= i < |es|
      ensures es[i] == written[i]
    {
      CutEntry(run, i);
    }
  }

  lemma OffsetsCut<V>(run: Run<V>)
    requires OffsetsClimb(run)
    ensures |run.offsets| == |run.keys| + 1
    ensures var offsets := run.offsets[..|run.keys|];
      && WellCut(run.keys, offsets, run.values)
      && (run.keys != [] ==> EndOf(offsets, run.values, |run.keys| - 1) == |run.values|)
      && (run.keys == [] ==> run.values == [])
  {
    var offsets := run.offsets[..|run.keys|];
    forall i, j | 0 <= i <= j < |offsets|
      ensures offsets[i] <= offsets[j] <= |run.values|
    {
      assert run.offsets[j] < run.offsets[|run.keys|];
    }
  }

  lemma CutEntry<V>(run: Run<V>, i: nat)
    requires OffsetsClimb(run) && i < |run.keys| && WellCut(run.keys, run.offsets[..|run.keys|], run.values)
    ensures EntriesOf(run)[i] == Written(run.keys, run.offsets[..|run.keys|], run.values)[i]
  {
    hide WellCut, Written, EntriesOf;
    assert EndOf(run.offsets[..|run.keys|], run.values, i) == run.offsets[i + 1];
  }

  /** The sizes the merged run is laid out for: no two runs share a key, every value is kept. */
  method SumSizes<V>(ps: Params, runs: seq<Run<V>>) returns (entries: nat, values: nat)
    requires ValidRuns(ps, runs)
    ensures entries == CountAll(Sources(ps, runs)) && values == TotalAll(Sources(ps, runs))
  {
    hide ValidRun, Total;
    entries, values := 0, 0;
    for r := 0 to |runs|
      invariant ValidRuns(ps, runs[..r])
      invariant entries == CountAll(Sources(ps, runs[..r])) && values == TotalAll(Sources(ps, runs[..r]))
    {
      RunTotal(ps, runs[r]);
      RunOf(ps, runs, r);
      assert runs[..r + 1] == runs[..r] + [runs[r]];
      assert Sources(ps, runs[..r + 1]) == Sources(ps, runs[..r]) + [EntriesOf(runs[r])];
      SizesSnoc(Sources(ps, runs[..r]), EntriesOf(runs[r]));
      entries, values := entries + |runs[r].keys|, values + |runs[r].values|;
    }
    assert runs[..|runs|] == runs;
  }

  lemma {:induction false} SizesSnoc<V>(a: seq<seq<Entry<V>>>, b: seq<Entry<V>>)
    ensures CountAll(a + [b]) == CountAll(a) + |b|
    ensures TotalAll(a + [b]) == TotalAll(a) + Total(b)
  {
    if a == [] {
      assert (a + [b])[1..] == [];
    } else {
      assert (a + [b])[1..] == a[1..] + [b];
      SizesSnoc(a[1..], b);
    }
  }

  ghost predicate KeysHaveWidth<V>(sources: seq<seq<Entry<V>>>, width: nat) {
    forall r, i :: 0 <= r < |sources| && 0 <= i < |sources[r]| ==> |sources[r][i].key| == width
  }

  lemma {:induction false} AllKeysWidth<V>(sources: seq<seq<Entry<V>>>, width: nat, k: Key)
    requires KeysHaveWidth(sources, width) && k in AllKeys(sources)
    ensures |k| == width
  {
    if k in KeySet(sources[0]) {
      var i :| 0 <= i < |sources[0]| && sources[0][i].key == k;
    } else {
      AllKeysWidth(sources[1..], width, k);
    }
  }

  /** `merge_runs`: one run with every pair of the given ones, values in run order. */
  method MergeRuns<V>(ps: Params, runs: seq<Run<V>>, prefixLens: seq<nat>) returns (merged: Run<V>)
    requires ValidRuns(ps, runs)
    requires forall f :: 0 <= f < |prefixLens| ==> prefixLens[f] <= ps.width
    ensures ValidRun(ps, merged)
    ensures MergedEntries(Sources(ps, runs), EntriesOf(merged))
    ensures Bag(EntriesOf(merged)) == BagAll(Sources(ps, runs))
    ensures |merged.values| == TotalAll(Sources(ps, runs))
    ensures ExactFilters(
      ps, Bloom.BlocksFor(CountAll(Sources(ps, runs))), prefixLens, merged.keys, merged.filter, merged.prefixFilters)
  {
    hide *;
    ghost var sources: seq<seq<Entry<V>>> := Sources(ps, runs);
    SourcesSorted(ps, runs);
    SourcesAscend(sources);
    var maxEntries, valuesLen := SumSizes(ps, runs);
    var writer := new RunWriter<V>(ps, maxEntries, valuesLen, prefixLens);
    var lists := KeyListsOf(ps, runs);
    var visits := MergeKeys(lists);
    VisitsArePlaces(sources, visits);
    VisitsMerge(sources, visits);
    ghost var es := VisitEntries(sources, visits);
    VisitEntriesAt(sources, visits);
    MergeCount(sources, es);
    MergeTotal(sources, es);
    assert es[..0] == [];
    for j := 0 to |visits|
      invariant fresh(writer) && writer.Valid() && writer.Contents() == es[..j]
    {
      VisitWidth(ps, runs, visits[j].key);
      WriteVisit(ps, runs, visits[j], writer, es, j);
    }
    assert es[..|es|] == es;
    MergedParts(sources, es);
    WroteTotal(writer);
    merged := writer.Finish();
    MergeKeepsBag(sources, es);
  }

  lemma MergedParts<V>(sources: seq<seq<Entry<V>>>, es: seq<Entry<V>>)
    requires MergedEntries(sources, es)
    ensures Sorted(es) && Inhabited(es)
  {
    hide Sorted, Inhabited, ValuesAt, Gather;
  }

  lemma VisitEntriesAt<V>(sources: seq<seq<Entry<V>>>, visits: seq<Visit>)
    requires forall j :: 0 <= j < |visits| ==> Places(sources, visits[j].holders)
    ensures |VisitEntries(sources, visits)| == |visits|
    ensures forall j :: 0 <= j < |visits| ==>
      VisitEntries(sources, visits)[j] == Entry(visits[j].key, HeldValues(sources, visits[j].holders))
  {
    hide HeldValues, Places;
  }

  /** The runs' key sections. */
  method KeyListsOf<V>(ps: Params, runs: seq<Run<V>>) returns (lists: seq<seq<Key>>)
    requires ValidRuns(ps, runs)
    ensures lists == KeyLists(Sources(ps, runs))
  {
    hide ValidRun, KeysOf;
    lists := seq(|runs|, r requires 0 <= r < |runs| => runs[r].keys);
    forall r | 0 <= r < |runs|
      ensures KeysOf(Sources(ps, runs)[r]) == runs[r].keys
    {
      RunEntries(ps, runs[r]);
    }
  }

  lemma VisitWidth<V>(ps: Params, runs: seq<Run<V>>, k: Key)
    requires ValidRuns(ps, runs) && Gather(Sources(ps, runs), k) != []
    ensures |k| == ps.width
  {
    hide Gather, AllKeys, OffsetsClimb, FiltersCover, Ascending;
    var sources: seq<seq<Entry<V>>> := Sources(ps, runs);
    GatherKeys(sources, k);
    forall r, i | 0 <= r < |sources| && 0 <= i < |sources[r]|
      ensures |sources[r][i].key| == ps.width
    {
      RunOf(ps, runs, r);
      assert sources[r][i].key == runs[r].keys[i];
    }
    AllKeysWidth(sources, ps.width, k);
  }
}
