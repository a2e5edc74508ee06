/**
 The disk run format: a header with the entry count, the entries in key order, a dense index of the
 entries' offsets, and a footer that says where the index begins and how many values there are.
 */
module DiskRuns {
  import opened Keys
  import opened Entries
  import opened RunWriting
  import opened Codecs

  /** "LSM1" */
  const RUN_MAGIC: seq<byte> := [76, 83, 77, 49]
  const RUN_HEADER_LEN: nat := 12
  const RUN_FOOTER_LEN: nat := 16

  lemma MagicSpells()
    ensures |RUN_MAGIC| == |"LSM1"| && forall i :: 0 <= i < 4 ==> RUN_MAGIC[i] == "LSM1"[i] as int
  {
  }

  datatype Format<!V> = Format(keys: Codec<Key>, values: Codec<V>)

  ghost predicate Lawful<V(!new)>(f: Format<V>) {
    LawfulCodec(f.keys) && LawfulCodec(f.values)
  }

  // ------------------------------------------------------------------------
  // The bytes of a run
  // ------------------------------------------------------------------------

  ghost function ValuesBytes<V>(c: Codec<V>, vals: seq<V>): seq<byte> {
    if vals == [] then [] else ValuesBytes(c, vals[..|vals| - 1]) + c.enc(vals[|vals| - 1])
  }

  ghost function EntryBytes<V>(f: Format<V>, e: Entry<V>): seq<byte> {
    f.keys.enc(e.key) + ToLe(|e.vals|, 8) + ValuesBytes(f.values, e.vals)
  }

  ghost function EntriesBytes<V>(f: Format<V>, es: seq<Entry<V>>): seq<byte> {
    if es == [] then [] else EntriesBytes(f, es[..|es| - 1]) + EntryBytes(f, es[|es| - 1])
  }

  /** Where the entry after the given ones begins. */
  ghost function OffsetAfter<V>(f: Format<V>, es: seq<Entry<V>>): nat {
    RUN_HEADER_LEN + |EntriesBytes(f, es)|
  }

  ghost function IndexBytes<V>(f: Format<V>, es: seq<Entry<V>>): seq<byte> {
    if es == [] then [] else IndexBytes(f, es[..|es| - 1]) + ToLe(OffsetAfter(f, es[..|es| - 1]), 8)
  }

  ghost function RunBytes<V>(f: Format<V>, es: seq<Entry<V>>): seq<byte> {
    RUN_MAGIC + ToLe(|es|, 8) + EntriesBytes(f, es) + IndexBytes(f, es)
    + (ToLe(OffsetAfter(f, es), 8) + ToLe(Total(es), 8))
  }

  /** What is known of a run in memory, beside its file. */
  datatype DiskRun = DiskRun(file: seq<byte>, entriesCount: nat, indexStart: nat, len: nat)

  ghost function RunFor<V>(f: Format<V>, es: seq<Entry<V>>): DiskRun {
    DiskRun(RunBytes(f, es), |es|, OffsetAfter(f, es), Total(es))
  }

  /** The sizes are 64-bit numbers, and the codecs can write every key and value. */
  ghost predicate Writable<V>(f: Format<V>, es: seq<Entry<V>>) {
    && |RunBytes(f, es)| < U64 && Total(es) < U64
    && (forall i :: 0 <= i < |es| ==> EntryWritable(f, es[i]))
  }

  ghost predicate EntryWritable<V>(f: Format<V>, e: Entry<V>) {
    f.keys.fits(e.key) && |e.vals| < U64 && forall j :: 0 <= j < |e.vals| ==> f.values.fits(e.vals[j])
  }

  // ------------------------------------------------------------------------
  // Where everything is
  // ------------------------------------------------------------------------

  lemma {:induction false} IndexLength<V>(f: Format<V>, es: seq<Entry<V>>)
    ensures |IndexBytes(f, es)| == 8 * |es|
  {
    hide OffsetAfter, ToLe;
    if es != [] {
      IndexLength(f, es[..|es| - 1]);
    }
  }

  /** Entry `i`'s bytes lie in the entries section, after those before it. */
  lemma {:induction false} EntryIn<V>(f: Format<V>, es: seq<Entry<V>>, i: nat)
    requires i < |es|
    ensures Has(EntriesBytes(f, es), |EntriesBytes(f, es[..i])|, EntryBytes(f, es[i]))
    ensures |EntriesBytes(f, es[..i])| + |EntryBytes(f, es[i])| == |EntriesBytes(f, es[..i + 1])|
    ensures |EntriesBytes(f, es[..i + 1])| <= |EntriesBytes(f, es)|
  {
    hide EntryBytes;
    var n := |es| - 1;
    var before, last := EntriesBytes(f, es[..n]), EntryBytes(f, es[n]);
    assert es[..n + 1] == es;
    if i == n {
      HasAll(before + last, before, last, []);
      assert before + last + [] == before + last;
    } else {
      EntryIn(f, es[..n], i);
      assert es[..n][..i] == es[..i] && es[..n][..i + 1] == es[..i + 1];
      HasLonger(before, last, |EntriesBytes(f, es[..i])|, EntryBytes(f, es[i]));
    }
  }

  lemma HasLonger(file: seq<byte>, more: seq<byte>, pos: nat, bs: seq<byte>)
    requires Has(file, pos, bs)
    ensures Has(file + more, pos, bs)
  {
    assert (file + more)[pos..pos + |bs|] == file[pos..pos + |bs|];
  }

  lemma HasInside(file: seq<byte>, at: nat, part: seq<byte>, pos: nat, bs: seq<byte>)
    requires Has(file, at, part) && Has(part, pos, bs)
    ensures Has(file, at + pos, bs)
  {
    forall k | 0 <= k < |bs|
      ensures file[at + pos + k] == bs[k]
    {
      assert part[pos..pos + |bs|][k] == part[pos + k];
      assert file[at..at + |part|][pos + k] == file[at + pos + k];
    }
  }

  lemma {:induction false} OffsetIn<V>(f: Format<V>, es: seq<Entry<V>>, i: nat)
    requires i < |es|
    ensures Has(IndexBytes(f, es), 8 * i, ToLe(OffsetAfter(f, es[..i]), 8))
  {
    hide OffsetAfter, ToLe;
    var n := |es| - 1;
    var before, last := IndexBytes(f, es[..n]), ToLe(OffsetAfter(f, es[..n]), 8);
    IndexLength(f, es[..n]);
    if i == n {
      HasAll(before + last, before, last, []);
      assert before + last + [] == before + last;
    } else {
      OffsetIn(f, es[..n], i);
      assert es[..n][..i] == es[..i];
      HasLonger(before, last, 8 * i, ToLe(OffsetAfter(f, es[..i]), 8));
    }
  }

  /** The four sections of a run file. */
  lemma Sections<V>(f: Format<V>, es: seq<Entry<V>>)
    ensures var file := RunBytes(f, es);
      && Has(file, 0, RUN_MAGIC) && Has(file, 4, ToLe(|es|, 8))
      && Has(file, RUN_HEADER_LEN, EntriesBytes(f, es))
      && Has(file, OffsetAfter(f, es), IndexBytes(f, es))
      && |file| == OffsetAfter(f, es) + 8 * |es| + RUN_FOOTER_LEN
      && Has(file, |file| - RUN_FOOTER_LEN, ToLe(OffsetAfter(f, es), 8))
      && Has(file, |file| - 8, ToLe(Total(es), 8))
  {
    hide EntriesBytes, IndexBytes, ToLe, Total, Has;
    IndexLength(f, es);
    InOrder(RunBytes(f, es), RUN_MAGIC, ToLe(|es|, 8), EntriesBytes(f, es), IndexBytes(f, es),
            ToLe(OffsetAfter(f, es), 8), ToLe(Total(es), 8));
  }

  lemma InOrder(
    file: seq<byte>, a: seq<byte>, b: seq<byte>, c: seq<byte>, d: seq<byte>, e: seq<byte>, z: seq<byte>)
    requires file == a + b + c + d + (e + z)
    ensures Has(file, 0, a) && Has(file, |a|, b) && Has(file, |a| + |b|, c) && Has(file, |a| + |b| + |c|, d)
    ensures Has(file, |a| + |b| + |c| + |d|, e) && Has(file, |a| + |b| + |c| + |d| + |e|, z)
  {
  }

  /** Entry `i` is at the offset the index has for it. */
  lemma EntryAtOffset<V>(f: Format<V>, es: seq<Entry<V>>, i: nat)
    requires i < |es|
    ensures var file := RunBytes(f, es);
      && Has(file, OffsetAfter(f, es[..i]), EntryBytes(f, es[i]))
      && OffsetAfter(f, es[..i]) + |EntryBytes(f, es[i])| == OffsetAfter(f, es[..i + 1])
      && OffsetAfter(f, es[..i]) <= |file|
      && Has(file, OffsetAfter(f, es) + 8 * i, ToLe(OffsetAfter(f, es[..i]), 8))
  {
    hide EntriesBytes, IndexBytes, ToLe, Total, EntryBytes, RunBytes, Has;
    Sections(f, es);
    EntryIn(f, es, i);
    OffsetIn(f, es, i);
    var file := RunBytes(f, es);
    HasInside(file, RUN_HEADER_LEN, EntriesBytes(f, es), |EntriesBytes(f, es[..i])|, EntryBytes(f, es[i]));
    HasInside(file, OffsetAfter(f, es), IndexBytes(f, es), 8 * i, ToLe(OffsetAfter(f, es[..i]), 8));
  }

  // ------------------------------------------------------------------------
  // Writing
  // ------------------------------------------------------------------------

  class DiskRunWriter<V> {
    const format: Format<V>
    var data: seq<byte>
    /** How many bytes were written, which is the offset of the next. */
    var count: nat
    /** The entry offsets, spilled to a file of their own. */
    var idx: seq<byte>
    var entriesCount: nat
    var valuesLen: nat
    ghost var entries: seq<Entry<V>>

    ghost predicate Valid()
      reads this
    {
      && data == RUN_MAGIC + ToLe(0, 8) + EntriesBytes(format, entries)
      && count == OffsetAfter(format, entries) && idx == IndexBytes(format, entries)
      && entriesCount == |entries| && valuesLen == Total(entries)
    }

    constructor (format: Format<V>)
      ensures Valid() && entries == [] && this.format == format
    {
      this.format := format;
      data := RUN_MAGIC + ToLe(0, 8);
      count, idx, entriesCount, valuesLen, entries := RUN_HEADER_LEN, [], 0, 0, [];
    }

    /** `push`: appends one entry, and notes where it begins. */
    method Push(key: Key, values: seq<V>)
      requires Valid()
      modifies this
      ensures Valid() && entries == old(entries) + [Entry(key, values)]
    {
      hide EntriesBytes, IndexBytes, Total, ToLe, EntryBytes;
      ghost var e, es := Entry(key, values), entries;
      var bytes := WriteEntry(key, values);
      idx := idx + ToLe(count, 8);
      data, count := data + bytes, count + |bytes|;
      entriesCount, valuesLen := entriesCount + 1, valuesLen + |values|;
      entries := entries + [e];
      OneMoreEntry(format, es, e);
    }

    /** The bytes of one entry: the key, how many values, and the values. */
    method WriteEntry(key: Key, values: seq<V>) returns (bytes: seq<byte>)
      ensures bytes == EntryBytes(format, Entry(key, values))
    {
      hide ToLe, ValuesBytes;
      bytes := format.keys.enc(key) + ToLe(|values|, 8);
      NoValues(format.values);
      for i := 0 to |values|
        invariant bytes == format.keys.enc(key) + ToLe(|values|, 8) + ValuesBytes(format.values, values[..i])
      {
        OneMoreValue(format.values, values, i);
        bytes := bytes + format.values.enc(values[i]);
      }
      assert values[..|values|] == values;
    }

    /** `finish`: appends the index and the footer, and patches the entry count into the header. */
    method Finish() returns (run: DiskRun)
      requires Valid()
      ensures run == RunFor(format, entries)
    {
      hide EntriesBytes, IndexBytes, Total, ToLe;
      var indexStart := count;
      var file := data + idx + ToLe(indexStart, 8) + ToLe(valuesLen, 8);
      file := file[..4] + ToLe(entriesCount, 8) + file[RUN_HEADER_LEN..];
      run := DiskRun(file, entriesCount, indexStart, valuesLen);
      Patched(format, entries);
    }
  }

  /** The file before the entry count is patched in. */
  ghost function Unpatched<V>(f: Format<V>, es: seq<Entry<V>>): seq<byte> {
    RUN_MAGIC + ToLe(0, 8) + EntriesBytes(f, es) + IndexBytes(f, es)
    + ToLe(OffsetAfter(f, es), 8) + ToLe(Total(es), 8)
  }

  lemma Patched<V>(f: Format<V>, es: seq<Entry<V>>)
    ensures |Unpatched(f, es)| >= RUN_HEADER_LEN
    ensures Unpatched(f, es)[..4] + ToLe(|es|, 8) + Unpatched(f, es)[RUN_HEADER_LEN..] == RunBytes(f, es)
  {
    hide EntriesBytes, IndexBytes, Total, ToLe;
    var rest := EntriesBytes(f, es) + IndexBytes(f, es) + ToLe(OffsetAfter(f, es), 8) + ToLe(Total(es), 8);
    assert Unpatched(f, es) == RUN_MAGIC + ToLe(0, 8) + rest;
    assert Unpatched(f, es)[..4] == RUN_MAGIC && Unpatched(f, es)[RUN_HEADER_LEN..] == rest;
  }

  lemma NoValues<V>(c: Codec<V>)
    ensures ValuesBytes(c, []) == []
  {
  }

  lemma OneMoreValue<V>(c: Codec<V>, vals: seq<V>, i: nat)
    requires i < |vals|
    ensures ValuesBytes(c, vals[..i + 1]) == ValuesBytes(c, vals[..i]) + c.enc(vals[i])
  {
    assert vals[..i + 1][..i] == vals[..i];
  }

  lemma OneMoreEntry<V>(f: Format<V>, es: seq<Entry<V>>, e: Entry<V>)
    ensures EntriesBytes(f, es + [e]) == EntriesBytes(f, es) + EntryBytes(f, e)
    ensures IndexBytes(f, es + [e]) == IndexBytes(f, es) + ToLe(OffsetAfter(f, es), 8)
    ensures OffsetAfter(f, es + [e]) == OffsetAfter(f, es) + |EntryBytes(f, e)|
    ensures Total(es + [e]) == Total(es) + |e.vals|
  {
    hide EntryBytes, ToLe, Total;
    assert (es + [e])[..|es|] == es;
    TotalConcat(es, [e]);
    TotalSingle(e);
  }
}
