/** Reading disk runs: loading one from its file, scanning it, and searching its offset index. */
module DiskReads {
  import opened Wrappers
  import opened Ordering
  import opened Keys
  import opened Entries
  import opened RunWriting
  import opened Codecs
  import opened DiskRuns

  // ------------------------------------------------------------------------
  // Loading
  // ------------------------------------------------------------------------

  /** `load_run`: the header and the footer say what there is to know; no other byte is read. */
  function LoadRun(file: seq<byte>): (run: Option<DiskRun>)
    ensures run.Some? <==> |file| >= RUN_FOOTER_LEN && file[..4] == RUN_MAGIC
  {
    if |file| < 4 || file[..4] != RUN_MAGIC then None
    else
      match ReadU64(file, 4)
      case None => None
      case Some((entriesCount, _)) =>
        if |file| < RUN_FOOTER_LEN then None
        else
          var (indexStart, _) := ReadU64(file, |file| - RUN_FOOTER_LEN).value;
          var (valuesLen, _) := ReadU64(file, |file| - 8).value;
          Some(DiskRun(file, entriesCount, indexStart, valuesLen))
  }

  /** A written run loads back as the run its writer returned. */
  lemma WrittenLoads<V>(f: Format<V>, es: seq<Entry<V>>)
    requires Writable(f, es)
    ensures LoadRun(RunBytes(f, es)) == Some(RunFor(f, es))
  {
    hide EntriesBytes, IndexBytes, ToLe, Total, RunBytes, EntryWritable, FromLe;
    Sections(f, es);
    var file := RunBytes(f, es);
    U64Reads(file, 4, |es|);
    U64Reads(file, |file| - RUN_FOOTER_LEN, OffsetAfter(f, es));
    U64Reads(file, |file| - 8, Total(es));
  }

  // ------------------------------------------------------------------------
  // Reading an entry
  // ------------------------------------------------------------------------

  lemma {:induction false} ValueIn<V>(c: Codec<V>, vals: seq<V>, i: nat)
    requires i < |vals|
    ensures Has(ValuesBytes(c, vals), |ValuesBytes(c, vals[..i])|, c.enc(vals[i]))
  {
    var n := |vals| - 1;
    var before, last := ValuesBytes(c, vals[..n]), c.enc(vals[n]);
    if i == n {
      HasAll(before + last, before, last, []);
      assert before + last + [] == before + last;
    } else {
      ValueIn(c, vals[..n], i);
      assert vals[..n][..i] == vals[..i];
      HasLonger(before, last, |ValuesBytes(c, vals[..i])|, c.enc(vals[i]));
    }
  }

  /** The file has the values at the position, and the codec can read each. */
  ghost predicate HasValues<V>(c: Codec<V>, file: seq<byte>, pos: nat, vals: seq<V>) {
    Has(file, pos, ValuesBytes(c, vals)) && forall j :: 0 <= j < |vals| ==> c.fits(vals[j])
  }

  lemma ValueReads<V(!new)>(c: Codec<V>, file: seq<byte>, pos: nat, vals: seq<V>, i: nat)
    requires LawfulCodec(c) && HasValues(c, file, pos, vals) && i < |vals|
    ensures var at := pos + |ValuesBytes(c, vals[..i])|;
      && ReadAt(c, file, at) == Some((vals[i], at + |c.enc(vals[i])|))
      && at + |c.enc(vals[i])| == pos + |ValuesBytes(c, vals[..i + 1])|
  {
    hide ValuesBytes, Has, LawfulCodec, ReadAt;
    ValueIn(c, vals, i);
    HasInside(file, pos, ValuesBytes(c, vals), |ValuesBytes(c, vals[..i])|, c.enc(vals[i]));
    ReadsBack(c, file, pos + |ValuesBytes(c, vals[..i])|, vals[i]);
    OneMoreValue(c, vals, i);
  }

  /** Reads `n` values; if the file has values there, reads them and ends right behind. */
  method ReadValues<V(!new)>(c: Codec<V>, file: seq<byte>, pos: nat, n: nat, ghost vals: seq<V>)
    returns (r: Option<(seq<V>, nat)>)
    requires LawfulCodec(c)
    ensures n == |vals| && HasValues(c, file, pos, vals) ==> r == Some((vals, pos + |ValuesBytes(c, vals)|))
    ensures r.Some? ==> |r.value.0| == n
  {
    hide ValuesBytes, LawfulCodec, ReadAt, HasValues;
    ghost var there := n == |vals| && HasValues(c, file, pos, vals);
    var got, at := [], pos;
    NoValues(c);
    for i := 0 to n
      invariant |got| == i && (there ==> got == vals[..i] && at == pos + |ValuesBytes(c, vals[..i])|)
    {
      if there {
        ValueReads(c, file, pos, vals, i);
      }
      var next := ReadAt(c, file, at);
      if next.None? {
        return None;
      }
      got, at := got + [next.value.0], next.value.1;
    }
    assert there ==> vals[..n] == vals;
    r := Some((got, at));
  }

  ghost predicate HasEntry<V>(f: Format<V>, file: seq<byte>, pos: nat, e: Entry<V>) {
    Has(file, pos, EntryBytes(f, e)) && EntryWritable(f, e)
  }

  /** The parts of an entry in a file, and how they read. */
  lemma EntryParts<V(!new)>(f: Format<V>, file: seq<byte>, pos: nat, e: Entry<V>)
    requires Lawful(f) && HasEntry(f, file, pos, e)
    ensures var k := |f.keys.enc(e.key)|;
      && ReadAt(f.keys, file, pos) == Some((e.key, pos + k))
      && ReadU64(file, pos + k) == Some((|e.vals|, pos + k + 8))
      && HasValues(f.values, file, pos + k + 8, e.vals)
      && |EntryBytes(f, e)| == k + 8 + |ValuesBytes(f.values, e.vals)|
  {
    hide ValuesBytes, Has, LawfulCodec, ReadAt, ToLe, ReadU64;
    var key, count := f.keys.enc(e.key), ToLe(|e.vals|, 8);
    HasParts(file, pos, key + count, ValuesBytes(f.values, e.vals));
    HasParts(file, pos, key, count);
    ReadsBack(f.keys, file, pos, e.key);
    U64Reads(file, pos + |key|, |e.vals|);
  }

  // ------------------------------------------------------------------------
  // Scanning
  // ------------------------------------------------------------------------

  /** What a scanner comes back with; a file can always turn out to be unreadable. */
  datatype Scan<V> = Failed | End | Got(entry: Entry<V>)

  class RunScanner<V(!new)> {
    const format: Format<V>
    const file: seq<byte>
    var pos: nat
    var remaining: nat

    /** The scanner is before entry `i` of the run of the given entries. */
    ghost predicate At(es: seq<Entry<V>>, i: nat)
      reads this
    {
      && file == RunBytes(format, es) && Writable(format, es) && i <= |es|
      && pos == OffsetAfter(format, es[..i]) && remaining == |es| - i
    }

    /** `open`: starts right after the header. */
    constructor (format: Format<V>, run: DiskRun, ghost es: seq<Entry<V>>)
      ensures this.format == format && this.file == run.file && remaining == run.entriesCount
      ensures run == RunFor(format, es) && Writable(format, es) ==> At(es, 0)
    {
      this.format, file, pos, remaining := format, run.file, RUN_HEADER_LEN, run.entriesCount;
      new;
      FirstOffset(format, es);
    }

    /** `next_entry`: the entries of the run one by one, and then the end. */
    method NextEntry(ghost es: seq<Entry<V>>, ghost i: nat) returns (r: Scan<V>)
      requires Lawful(format)
      modifies this
      ensures old(remaining) == 0 <==> r.End?
      ensures r.Got? ==> remaining == old(remaining) - 1
      ensures old(At(es, i)) ==> if i == |es| then r.End? && At(es, i) else r == Got(es[i]) && At(es, i + 1)
    {
      hide LawfulCodec, ReadAt, ReadU64, ValuesBytes, HasValues, RunBytes, Writable, EntryBytes, OffsetAfter;
      if remaining == 0 {
        return End;
      }
      ghost var there := At(es, i);
      ghost var e := if there then es[i] else Entry([], []);
      if there {
        NextReads(format, es, i);
      }
      var key := ReadAt(format.keys, file, pos);
      if key.None? {
        return Failed;
      }
      var count := ReadU64(file, key.value.1);
      if count.None? {
        return Failed;
      }
      var values := ReadValues(format.values, file, count.value.1, count.value.0, e.vals);
      if values.None? {
        return Failed;
      }
      pos, remaining := values.value.1, remaining - 1;
      r := Got(Entry(key.value.0, values.value.0));
    }
  }

  lemma FirstOffset<V>(f: Format<V>, es: seq<Entry<V>>)
    ensures OffsetAfter(f, es[..0]) == RUN_HEADER_LEN
  {
    assert es[..0] == [];
  }

  /** Entry `i`'s key, count and values read in turn, and end where entry `i + 1` begins. */
  lemma NextReads<V(!new)>(f: Format<V>, es: seq<Entry<V>>, i: nat)
    requires Lawful(f) && Writable(f, es) && i < |es|
    ensures var file, pos, e := RunBytes(f, es), OffsetAfter(f, es[..i]), es[i];
      var k := |f.keys.enc(e.key)|;
      && HasEntry(f, file, pos, e)
      && ReadAt(f.keys, file, pos) == Some((e.key, pos + k))
      && ReadU64(file, pos + k) == Some((|e.vals|, pos + k + 8))
      && HasValues(f.values, file, pos + k + 8, e.vals)
      && pos + k + 8 + |ValuesBytes(f.values, e.vals)| == OffsetAfter(f, es[..i + 1])
  {
    hide Lawful, RunBytes, OffsetAfter, EntryBytes, Has, ToLe, ReadAt, ReadU64, ValuesBytes, HasValues, EntryWritable;
    EntryAtOffset(f, es, i);
    assert EntryWritable(f, es[i]);
    EntryParts(f, RunBytes(f, es), OffsetAfter(f, es[..i]), es[i]);
  }

  /** `read_run_all`: a written run scans back to its entries. */
  method ReadRunAll<V(!new)>(f: Format<V>, run: DiskRun, ghost es: seq<Entry<V>>) returns (r: Option<seq<Entry<V>>>)
    requires Lawful(f)
    ensures run == RunFor(f, es) && Writable(f, es) ==> r == Some(es)
  {
    hide Lawful, RunFor, Writable, OffsetAfter, RunBytes;
    ghost var there := run == RunFor(f, es) && Writable(f, es);
    var scanner := new RunScanner(f, run, es);
    var all: seq<Entry<V>> := [];
    while true
      invariant fresh(scanner) && scanner.format == f
      invariant there ==> |all| <= |es| && all == es[..|all|] && scanner.At(es, |all|)
      decreases scanner.remaining
    {
      var next := scanner.NextEntry(es, |all|);
      match next
      case Failed => return None;
      case End =>
        assert es[..|es|] == es;
        return Some(all);
      case Got(entry) => all := all + [entry];
    }
  }

  // ------------------------------------------------------------------------
  // Searching
  // ------------------------------------------------------------------------

  /** Where a search ends: right after the key, nowhere, or at bytes that cannot be read. */
  datatype Search = Unreadable | Missing | Behind(pos: nat)

  /** The run was written with these entries, in key order. */
  ghost predicate RunOf<V>(f: Format<V>, run: DiskRun, es: seq<Entry<V>>) {
    run == RunFor(f, es) && Writable(f, es) && Sorted(es)
  }

  /** The search ended right after the key if the run has it, and nowhere if not. */
  ghost predicate SearchOk<V>(f: Format<V>, es: seq<Entry<V>>, key: Key, r: Search) {
    && !r.Unreadable?
    && (r.Missing? <==> key !in KeysOf(es))
    && (r.Behind? ==> exists i :: EndsAt(f, es, key, r.pos, i))
  }

  ghost predicate EndsAt<V>(f: Format<V>, es: seq<Entry<V>>, key: Key, pos: nat, i: nat) {
    i < |es| && es[i].key == key && pos == OffsetAfter(f, es[..i]) + |f.keys.enc(key)|
  }

  /** `find_entry`: a binary search by the offset index; it ends right after the key exactly when the run has it. */
  method FindEntry<V(!new)>(f: Format<V>, run: DiskRun, key: Key, ghost es: seq<Entry<V>>) returns (r: Search)
    requires Lawful(f)
    ensures RunOf(f, run, es) ==> SearchOk(f, es, key, r)
  {
    hide Lawful, Writable, OffsetAfter, RunBytes, ReadAt, ReadU64, Below, ToLe, HasEntry, HasValues, ValuesBytes;
    ghost var there := RunOf(f, run, es);
    if run.entriesCount == 0 {
      return Missing;
    }
    var lo: nat, hi: nat := 0, run.entriesCount;
    while lo < hi
      invariant lo <= hi <= run.entriesCount
      invariant there ==> forall i :: 0 <= i < lo ==> Below(es[i].key, key)
      invariant there ==> forall i :: hi <= i < |es| ==> Below(key, es[i].key)
    {
      var mid := lo + (hi - lo) / 2;
      if there {
        ProbeReads(f, es, mid);
        KeySplits(es, mid, key);
      }
      var offset := ReadU64(run.file, run.indexStart + mid * 8);
      if offset.None? {
        return Unreadable;
      }
      var midKey := ReadAt(f.keys, run.file, offset.value.0);
      if midKey.None? {
        return Unreadable;
      }
      match Lex(CompareWords, midKey.value.0, key)
      case Less => lo := mid + 1;
      case Greater => hi := mid;
      case Equal =>
        assert there ==> KeysOf(es)[mid] == key && EndsAt(f, es, key, midKey.value.1, mid);
        return Behind(midKey.value.1);
    }
    if there {
      NotThere(es, key);
    }
    r := Missing;
  }

  /** The index has entry `i`'s offset, and its key reads there. */
  lemma ProbeReads<V(!new)>(f: Format<V>, es: seq<Entry<V>>, i: nat)
    requires Lawful(f) && Writable(f, es) && i < |es|
    ensures var file, pos := RunBytes(f, es), OffsetAfter(f, es[..i]);
      && ReadU64(file, OffsetAfter(f, es) + i * 8) == Some((pos, OffsetAfter(f, es) + i * 8 + 8))
      && ReadAt(f.keys, file, pos) == Some((es[i].key, pos + |f.keys.enc(es[i].key)|))
  {
    hide Lawful, RunBytes, OffsetAfter, EntryBytes, Has, ToLe, ReadAt, ReadU64, ValuesBytes, HasValues, EntryWritable;
    EntryAtOffset(f, es, i);
    U64Reads(RunBytes(f, es), OffsetAfter(f, es) + i * 8, OffsetAfter(f, es[..i]));
    NextReads(f, es, i);
  }

  /** Where the probed key is not the one, all keys on one side of it are ruled out. */
  lemma KeySplits<V>(es: seq<Entry<V>>, mid: nat, key: Key)
    requires Sorted(es) && mid < |es|
    ensures match Lex(CompareWords, es[mid].key, key)
      case Less => forall i :: 0 <= i <= mid ==> Below(es[i].key, key)
      case Greater => forall i :: mid <= i < |es| ==> Below(key, es[i].key)
      case Equal => es[mid].key == key
  {
    hide Lex;
    assert TotalOrder(CompareWords);
    LexEqual(CompareWords, es[mid].key, key);
    LexEqual(CompareWords, key, es[mid].key);
    if Lex(CompareWords, es[mid].key, key).Less? {
      forall i | 0 <= i <= mid
        ensures Below(es[i].key, key)
      {
        BelowTransitive(es[i].key, es[mid].key, key);
      }
    } else if Lex(CompareWords, es[mid].key, key).Greater? {
      forall i | mid <= i < |es|
        ensures Below(key, es[i].key)
      {
        BelowTransitive(key, es[mid].key, es[i].key);
      }
    }
  }

  lemma NotThere<V>(es: seq<Entry<V>>, key: Key)
    requires forall i :: 0 <= i < |es| ==> Below(es[i].key, key) || Below(key, es[i].key)
    ensures key !in KeysOf(es)
  {
    hide Below;
    BelowTotal(key, key);
  }

  /** `read_run_values`: the key's values, or none. */
  method ReadRunValues<V(!new)>(f: Format<V>, run: DiskRun, key: Key, ghost es: seq<Entry<V>>)
    returns (r: Option<seq<V>>)
    requires Lawful(f)
    ensures RunOf(f, run, es) ==> r == Some(ValuesAt(es, key))
  {
    hide LawfulCodec, Writable, OffsetAfter, RunBytes, ReadAt, ReadU64, Sorted, ToLe, HasEntry, HasValues;
    hide ValuesBytes, ValuesAt;
    ghost var there := RunOf(f, run, es);
    if there {
      SortedDistinct(es);
    }
    var found := FindEntry(f, run, key, es);
    ghost var vals := [];
    match found
    case Unreadable => return None;
    case Missing =>
      if there {
        KeyAbsent(es, key);
      }
      return Some([]);
    case Behind(pos) =>
      if there {
        var i: nat :| EndsAt(f, es, key, pos, i);
        NextReads(f, es, i);
        ValuesAtIndex(es, i);
        vals := es[i].vals;
      }
      var count := ReadU64(run.file, pos);
      if count.None? {
        return None;
      }
      var values := ReadValues(f.values, run.file, count.value.1, count.value.0, vals);
      r := if values.None? then None else Some(values.value.0);
  }

  lemma KeyAbsent<V>(es: seq<Entry<V>>, key: Key)
    requires key !in KeysOf(es)
    ensures ValuesAt(es, key) == []
  {
    hide ValuesAt;
    assert forall i :: 0 <= i < |es| ==> KeysOf(es)[i] == es[i].key;
    ValuesAtAbsent(es, key);
  }
}
