/** How much a merge writes: no more bytes than the runs it merges have, and nothing the codecs cannot write. */
module DiskSizes {
  import opened Keys
  import opened Entries
  import opened Merge
  import opened RunWriting
  import Compaction
  import opened Codecs
  import opened DiskRuns

  // ------------------------------------------------------------------------
  // Bytes
  // ------------------------------------------------------------------------

  /** The bytes the entries take, with their places in the index. */
  ghost function Weight<V>(f: Format<V>, es: seq<Entry<V>>): nat {
    |EntriesBytes(f, es)| + 8 * |es|
  }

  const EMPTY_RUN_LEN: nat := RUN_HEADER_LEN + RUN_FOOTER_LEN

  lemma RunLength<V>(f: Format<V>, es: seq<Entry<V>>)
    ensures |RunFor(f, es).file| == EMPTY_RUN_LEN + Weight(f, es) && RunFor(f, es).len == Total(es)
  {
    hide EntriesBytes, IndexBytes, ToLe, Total, RunBytes;
    Sections(f, es);
  }

  lemma {:induction false} ValuesConcat<V>(c: Codec<V>, a: seq<V>, b: seq<V>)
    ensures ValuesBytes(c, a + b) == ValuesBytes(c, a) + ValuesBytes(c, b)
    decreases |b|
  {
    if b == [] {
      assert a + b == a;
    } else {
      var n := |b| - 1;
      ValuesConcat(c, a, b[..n]);
      assert (a + b)[..|a + b| - 1] == a + b[..n];
    }
  }

  lemma {:induction false} EntriesConcat<V>(f: Format<V>, a: seq<Entry<V>>, b: seq<Entry<V>>)
    ensures EntriesBytes(f, a + b) == EntriesBytes(f, a) + EntriesBytes(f, b)
    decreases |b|
  {
    hide EntryBytes;
    if b == [] {
      assert a + b == a;
    } else {
      var n := |b| - 1;
      EntriesConcat(f, a, b[..n]);
      assert (a + b)[..|a + b| - 1] == a + b[..n];
    }
  }

  /** What a key takes apart from its values. */
  ghost function KeyWeight<V>(f: Format<V>, k: Key): nat {
    |f.keys.enc(k)| + 16
  }

  lemma WeightSnoc<V>(f: Format<V>, es: seq<Entry<V>>, e: Entry<V>)
    ensures Weight(f, es + [e]) == Weight(f, es) + KeyWeight(f, e.key) + |ValuesBytes(f.values, e.vals)|
  {
    hide EntriesBytes, ValuesBytes, ToLe;
    OneMoreEntry(f, es, e);
  }

  lemma WeightFirst<V>(f: Format<V>, es: seq<Entry<V>>, i: nat)
    requires i < |es|
    ensures Weight(f, es[i..]) == KeyWeight(f, es[i].key) + |ValuesBytes(f.values, es[i].vals)| + Weight(f, es[i + 1..])
  {
    hide EntriesBytes, ValuesBytes, ToLe;
    assert es[i..] == [es[i]] + es[i + 1..];
    EntriesConcat(f, [es[i]], es[i + 1..]);
    WeightSnoc(f, [], es[i]);
    assert [] + [es[i]] == [es[i]];
    NoEntries(f);
  }

  lemma NoEntries<V>(f: Format<V>)
    ensures EntriesBytes(f, []) == []
  {
  }

  // ------------------------------------------------------------------------
  // What the merge has yet to read
  // ------------------------------------------------------------------------

  /** The weight of what the first `n` sources have at or past the cursors. */
  ghost function WeightLeft<V>(f: Format<V>, sources: seq<seq<Entry<V>>>, at: seq<nat>, n: nat): nat
    requires n <= |sources| == |at|
  {
    if n == 0 then 0
    else WeightLeft(f, sources, at, n - 1) + WeightFrom(f, sources[n - 1], at[n - 1])
  }

  ghost function WeightFrom<V>(f: Format<V>, es: seq<Entry<V>>, at: nat): nat {
    if at <= |es| then Weight(f, es[at..]) else 0
  }

  /** Which sources among the first `n` have `min` at their cursor. */
  ghost predicate Headed<V>(sources: seq<seq<Entry<V>>>, at: seq<nat>, min: Key, n: nat)
    requires n <= |sources| == |at|
  {
    exists r :: 0 <= r < n && HeadIs(KeysOf(sources[r]), at[r], min)
  }

  /** One source gives up the weight of its head if that is `min`, and keeps all otherwise. */
  lemma HeadWeight<V>(f: Format<V>, es: seq<Entry<V>>, at: nat, min: Key)
    requires at <= |es|
    requires ValuesAt(es, min) == if HeadIs(KeysOf(es), at, min) then es[at].vals else []
    ensures var taken := HeadIs(KeysOf(es), at, min);
      WeightFrom(f, es, at) ==
        WeightFrom(f, es, if taken then at + 1 else at) + |ValuesBytes(f.values, ValuesAt(es, min))|
        + (if taken then KeyWeight(f, min) else 0)
  {
    hide Weight, ValuesBytes, ValuesAt, KeyWeight;
    NoValues(f.values);
    if HeadIs(KeysOf(es), at, min) {
      WeightFirst(f, es, at);
    }
  }

  // ------------------------------------------------------------------------
  // Whole runs
  // ------------------------------------------------------------------------

  /** The bytes of the files without their headers and footers. */
  ghost function PayloadBytes(runs: seq<DiskRun>): int {
    if runs == [] then 0 else PayloadBytes(runs[..|runs| - 1]) + |runs[|runs| - 1].file| - EMPTY_RUN_LEN
  }

  ghost function ValueCount(runs: seq<DiskRun>): nat {
    if runs == [] then 0 else ValueCount(runs[..|runs| - 1]) + runs[|runs| - 1].len
  }

  /** Before the merge starts, all the bytes of the files are left, but for headers and footers. */
  lemma {:induction false} AllLeft<V>(
    f: Format<V>, runs: seq<DiskRun>, sources: seq<seq<Entry<V>>>, at: seq<nat>, n: nat)
    requires n <= |runs| == |sources| == |at|
    requires forall r :: 0 <= r < n ==> Unread(f, runs[r], sources[r], at[r])
    ensures WeightLeft(f, sources, at, n) == PayloadBytes(runs[..n])
  {
    hide *;
    NothingYet(f, runs, sources, at);
    if n > 0 {
      AllLeft(f, runs, sources, at, n - 1);
      UnreadWeight(f, runs[n - 1], sources[n - 1], at[n - 1]);
      OneMoreFile(runs, n - 1);
      OneMoreSource(f, sources, at, n - 1);
    }
  }

  lemma NothingYet<V>(f: Format<V>, runs: seq<DiskRun>, sources: seq<seq<Entry<V>>>, at: seq<nat>)
    requires |at| == |sources|
    ensures WeightLeft(f, sources, at, 0) == 0
    ensures PayloadBytes(runs[..0]) == 0 && ValueCount(runs[..0]) == 0 && Compaction.TotalAll(sources[..0]) == 0
  {
    assert runs[..0] == [] && sources[..0] == [];
  }

  /** The run of these entries, with the cursor before the first. */
  ghost predicate Unread<V>(f: Format<V>, run: DiskRun, es: seq<Entry<V>>, at: nat) {
    run == RunFor(f, es) && at == 0
  }

  lemma UnreadWeight<V>(f: Format<V>, run: DiskRun, es: seq<Entry<V>>, at: nat)
    requires Unread(f, run, es, at)
    ensures WeightFrom(f, es, at) == |run.file| - EMPTY_RUN_LEN && run.len == Total(es)
  {
    hide RunFor, Weight, WeightFrom, Total;
    RunLength(f, es);
    WeightOfAll(f, es);
  }

  lemma OneMoreSource<V>(f: Format<V>, sources: seq<seq<Entry<V>>>, at: seq<nat>, n: nat)
    requires n < |sources| == |at|
    ensures WeightLeft(f, sources, at, n + 1) == WeightLeft(f, sources, at, n) + WeightFrom(f, sources[n], at[n])
  {
    hide WeightFrom;
  }

  lemma WeightOfAll<V>(f: Format<V>, es: seq<Entry<V>>)
    ensures WeightFrom(f, es, 0) == Weight(f, es)
  {
    hide Weight;
    assert es[0..] == es;
  }

  lemma OneMoreFile(runs: seq<DiskRun>, n: nat)
    requires n < |runs|
    ensures PayloadBytes(runs[..n + 1]) == PayloadBytes(runs[..n]) + |runs[n].file| - EMPTY_RUN_LEN
    ensures ValueCount(runs[..n + 1]) == ValueCount(runs[..n]) + runs[n].len
  {
    assert runs[..n + 1][..n] == runs[..n];
  }

  lemma {:induction false} AllValues<V>(f: Format<V>, runs: seq<DiskRun>, sources: seq<seq<Entry<V>>>, n: nat)
    requires n <= |runs| == |sources| && forall r :: 0 <= r < n ==> Unread(f, runs[r], sources[r], 0)
    ensures Compaction.TotalAll(sources[..n]) == ValueCount(runs[..n])
  {
    hide *;
    NothingYet(f, runs, sources, seq(|sources|, _ => 0));
    if n > 0 {
      AllValues(f, runs, sources, n - 1);
      UnreadWeight(f, runs[n - 1], sources[n - 1], 0);
      assert sources[..n] == sources[..n - 1] + [sources[n - 1]];
      Compaction.SizesSnoc(sources[..n - 1], sources[n - 1]);
      OneMoreFile(runs, n - 1);
    }
  }

  // ------------------------------------------------------------------------
  // Codecs
  // ------------------------------------------------------------------------

  ghost predicate EntryFits<V>(f: Format<V>, e: Entry<V>) {
    f.keys.fits(e.key) && forall j :: 0 <= j < |e.vals| ==> f.values.fits(e.vals[j])
  }

  ghost predicate AllEntriesFit<V>(f: Format<V>, es: seq<Entry<V>>) {
    forall i :: 0 <= i < |es| ==> EntryFits(f, es[i])
  }

  lemma {:induction false} ValuesFit<V>(f: Format<V>, es: seq<Entry<V>>, k: Key)
    requires AllEntriesFit(f, es)
    ensures forall j :: 0 <= j < |ValuesAt(es, k)| ==> f.values.fits(ValuesAt(es, k)[j])
    ensures ValuesAt(es, k) != [] ==> f.keys.fits(k)
  {
    if es != [] && es[0].key != k {
      ValuesFit(f, es[1..], k);
    }
  }

  lemma {:induction false} GatherFits<V>(f: Format<V>, sources: seq<seq<Entry<V>>>, k: Key)
    requires forall r :: 0 <= r < |sources| ==> AllEntriesFit(f, sources[r])
    ensures EntryFits(f, Entry(k, Gather(sources, k))) || Gather(sources, k) == []
  {
    hide AllEntriesFit, ValuesAt;
    if sources != [] {
      ValuesFit(f, sources[0], k);
      GatherFits(f, sources[1..], k);
    }
  }

  /** The merged entries' keys and values are the sources', so the codecs can write them. */
  lemma MergedFit<V>(f: Format<V>, sources: seq<seq<Entry<V>>>, es: seq<Entry<V>>)
    requires MergedEntries(sources, es) && forall r :: 0 <= r < |sources| ==> AllEntriesFit(f, sources[r])
    ensures AllEntriesFit(f, es)
  {
    hide Gather, ValuesAt, Below, EntryFits;
    SortedDistinct(es);
    forall i | 0 <= i < |es|
      ensures EntryFits(f, es[i])
    {
      ValuesAtIndex(es, i);
      GatherFits(f, sources, es[i].key);
      assert es[i] == Entry(es[i].key, Gather(sources, es[i].key));
    }
  }

  lemma {:induction false} ValuesBelowTotal<V>(es: seq<Entry<V>>, i: nat)
    requires i < |es|
    ensures |es[i].vals| <= Total(es)
  {
    if i > 0 {
      ValuesBelowTotal(es[1..], i - 1);
    }
  }

  /** Within 64-bit sizes, entries the codecs can write make a run that reads back. */
  lemma FittingIsWritable<V>(f: Format<V>, es: seq<Entry<V>>)
    requires AllEntriesFit(f, es) && |RunBytes(f, es)| < U64 && Total(es) < U64
    ensures Writable(f, es)
  {
    hide RunBytes, Total;
    forall i | 0 <= i < |es|
      ensures EntryWritable(f, es[i])
    {
      ValuesBelowTotal(es, i);
      assert EntryFits(f, es[i]);
    }
  }

  lemma WritableFits<V>(f: Format<V>, es: seq<Entry<V>>)
    requires Writable(f, es)
    ensures AllEntriesFit(f, es)
  {
    hide RunBytes, Total;
    forall i | 0 <= i < |es|
      ensures EntryFits(f, es[i])
    {
      assert EntryWritable(f, es[i]);
    }
  }
}
