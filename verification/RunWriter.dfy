/**
 Writing a run in place: the shape is fixed up front, keys arrive in ascending order, each
 followed by its values in one or more slices. The writer's assertions are preconditions here:
 `merge` is proved never to trip them.
 */
module RunWriting {
  import opened Keys
  import opened Entries
  import opened Bloom
  import opened Runs

  /** Where the `i`th entry's values end: at the next entry, or at the last value written. */
  function EndOf<V>(offsets: seq<nat>, values: seq<V>, i: nat): nat {
    if i + 1 < |offsets| then offsets[i + 1] else |values|
  }

  ghost predicate WellCut<V>(keys: seq<Key>, offsets: seq<nat>, values: seq<V>) {
    && |offsets| == |keys|
    && (if keys == [] then values == [] else offsets[0] == 0)
    && (forall i, j :: 0 <= i <= j < |offsets| ==> offsets[i] <= offsets[j] <= |values|)
  }

  /** The entries written so far; the last one may still grow. */
  ghost function Written<V>(keys: seq<Key>, offsets: seq<nat>, values: seq<V>): (es: seq<Entry<V>>)
    requires WellCut(keys, offsets, values)
    ensures |es| == |keys|
    ensures forall i :: 0 <= i < |es| ==> es[i] == Entry(keys[i], values[offsets[i]..EndOf(offsets, values, i)])
  {
    seq(|keys|, i requires 0 <= i < |keys| => Entry(keys[i], values[offsets[i]..EndOf(offsets, values, i)]))
  }

  lemma WrittenStart<V>(keys: seq<Key>, offsets: seq<nat>, values: seq<V>, key: Key)
    requires WellCut(keys, offsets, values)
    ensures WellCut(keys + [key], offsets + [|values|], values)
    ensures Written(keys + [key], offsets + [|values|], values) == Written(keys, offsets, values) + [Entry(key, [])]
  {
    var ks, os := keys + [key], offsets + [|values|];
    assert WellCut(ks, os, values);
    hide Written, WellCut;
    var a, b := Written(ks, os, values), Written(keys, offsets, values) + [Entry(key, [])];
    forall i | 0 <= i < |a|
      ensures a[i] == b[i]
    {
      if i < |keys| {
        assert os[i] == offsets[i] && EndOf(os, values, i) == EndOf(offsets, values, i);
      } else {
        assert values[|values|..|values|] == [];
      }
    }
  }

  lemma WrittenAppend<V>(keys: seq<Key>, offsets: seq<nat>, values: seq<V>, vals: seq<V>)
    requires WellCut(keys, offsets, values) && keys != []
    ensures WellCut(keys, offsets, values + vals)
    ensures var es := Written(keys, offsets, values);
      var last := es[|es| - 1];
      Written(keys, offsets, values + vals) == es[..|es| - 1] + [Entry(last.key, last.vals + vals)]
  {
    CutGrows(keys, offsets, values, vals);
    hide WellCut, Written;
    var es, grown, n := Written(keys, offsets, values), Written(keys, offsets, values + vals), |keys| - 1;
    forall i | 0 <= i < n
      ensures grown[i] == es[i]
    {
      EntryGrows(keys, offsets, values, vals, i);
    }
    EntryGrows(keys, offsets, values, vals, n);
    SameButLast(es, grown, n);
  }

  lemma SameButLast<T>(a: seq<T>, b: seq<T>, n: nat)
    requires |a| == n + 1 && |b| == n + 1 && forall i :: 0 <= i < n ==> b[i] == a[i]
    ensures b == a[..n] + [b[n]]
  {
  }

  lemma CutGrows<V>(keys: seq<Key>, offsets: seq<nat>, values: seq<V>, vals: seq<V>)
    requires WellCut(keys, offsets, values) && keys != []
    ensures WellCut(keys, offsets, values + vals)
  {
  }

  /** More values only lengthen the last entry. */
  lemma EntryGrows<V>(keys: seq<Key>, offsets: seq<nat>, values: seq<V>, vals: seq<V>, i: nat)
    requires WellCut(keys, offsets, values) && WellCut(keys, offsets, values + vals) && i < |keys|
    ensures var before, after := Written(keys, offsets, values)[i], Written(keys, offsets, values + vals)[i];
      after == if i < |keys| - 1 then before else Entry(before.key, before.vals + vals)
  {
    CutAt(keys, offsets, values, i);
    hide WellCut, Written;
    SliceOfConcat(values, vals, offsets[i], EndOf(offsets, values, i));
  }

  lemma CutAt<V>(keys: seq<Key>, offsets: seq<nat>, values: seq<V>, i: nat)
    requires WellCut(keys, offsets, values) && i < |keys|
    ensures |offsets| == |keys| && offsets[i] <= EndOf(offsets, values, i) <= |values|
  {
  }

  lemma SliceOfConcat<V>(a: seq<V>, b: seq<V>, lo: nat, hi: nat)
    requires lo <= hi <= |a|
    ensures (a + b)[lo..hi] == a[lo..hi]
    ensures (a + b)[lo..|a + b|] == a[lo..|a|] + b
  {
  }

  /** How many values the entries have. */
  ghost function Total<V>(es: seq<Entry<V>>): nat {
    if es == [] then 0 else |es[0].vals| + Total(es[1..])
  }

  lemma {:induction false} TotalConcat<V>(a: seq<Entry<V>>, b: seq<Entry<V>>)
    ensures Total(a + b) == Total(a) + Total(b)
  {
    if a == [] {
      assert a + b == b;
    } else {
      assert (a + b)[1..] == a[1..] + b;
      TotalConcat(a[1..], b);
    }
  }

  lemma {:induction false} PairsSize<V>(e: Entry<V>)
    ensures |Pairs(e)| == |e.vals|
    decreases |e.vals|
  {
    if e.vals != [] {
      PairsSize(Entry(e.key, e.vals[1..]));
    }
  }

  /** The entries have as many pairs as values. */
  lemma {:induction false} BagSize<V>(es: seq<Entry<V>>)
    ensures |Bag(es)| == Total(es)
  {
    if es != [] {
      PairsSize(es[0]);
      BagSize(es[1..]);
    }
  }

  lemma {:induction false} WrittenTotal<V>(keys: seq<Key>, offsets: seq<nat>, values: seq<V>, n: nat)
    requires WellCut(keys, offsets, values) && n <= |keys|
    ensures Total(Written(keys, offsets, values)[..n]) ==
      if n == 0 then 0 else EndOf(offsets, values, n - 1)
  {
    if n > 0 {
      var es := Written(keys, offsets, values);
      WrittenTotal(keys, offsets, values, n - 1);
      LengthAt(keys, offsets, values, n - 1);
      hide Written, WellCut, Total;
      assert es[..n] == es[..n - 1] + [es[n - 1]];
      TotalConcat(es[..n - 1], [es[n - 1]]);
      TotalSingle(es[n - 1]);
    }
  }

  lemma TotalSingle<V>(e: Entry<V>)
    ensures Total([e]) == |e.vals|
  {
    assert [e][1..] == [];
  }

  lemma LengthAt<V>(keys: seq<Key>, offsets: seq<nat>, values: seq<V>, i: nat)
    requires WellCut(keys, offsets, values) && i < |keys|
    ensures |Written(keys, offsets, values)[i].vals| ==
      EndOf(offsets, values, i) - (if i == 0 then 0 else EndOf(offsets, values, i - 1))
  {
  }

  lemma CoversInsert(ps: Params, keys: seq<Key>, len: nat, blocks: seq<Block>, key: Key)
    requires Covers(ps, keys, len, blocks) && len <= |key|
    ensures Covers(ps, keys + [key], len, Bloom.Insert(blocks, ps.hash(key[..len])))
  {
    hide MayContain, Bloom.Insert;
    var after := Bloom.Insert(blocks, ps.hash(key[..len]));
    forall i | 0 <= i < |keys + [key]| && len <= |(keys + [key])[i]|
      ensures MayContain(after, ps.hash((keys + [key])[i][..len]))
    {
      InsertIsFound(blocks, ps.hash((keys + [key])[i][..len]), ps.hash(key[..len]));
    }
  }

  /** The filter of so many blocks with the keys' prefixes of `len` words in it, and nothing else. */
  ghost function Filled(ps: Params, blocks: nat, keys: seq<Key>, len: nat): (r: seq<Block>)
    requires blocks > 0
    ensures |r| == blocks
  {
    if keys == [] then seq(blocks, _ => EMPTY_BLOCK)
    else
      var n := |keys| - 1;
      Bloom.Insert(Filled(ps, blocks, keys[..n], len), ps.hash(FirstWords(keys[n], len)))
  }

  ghost function FirstWords(key: Key, len: nat): Key {
    if len <= |key| then key[..len] else key
  }

  lemma FilledMore(ps: Params, blocks: nat, keys: seq<Key>, len: nat, key: Key)
    requires blocks > 0 && len <= |key|
    ensures Filled(ps, blocks, keys + [key], len) == Bloom.Insert(Filled(ps, blocks, keys, len), ps.hash(key[..len]))
  {
    hide Bloom.Insert;
    assert (keys + [key])[..|keys|] == keys;
  }

  /** Each filter, of the keys and of their prefixes of each length, has exactly the keys' bits. */
  ghost predicate ExactFilters(
    ps: Params, blocks: nat, lens: seq<nat>, keys: seq<Key>, filter: seq<Block>, filters: seq<PrefixFilter>)
  {
    && blocks > 0 && filter == Filled(ps, blocks, keys, ps.width)
    && ExactPrefixes(ps, blocks, lens, keys, filters)
  }

  ghost predicate ExactPrefixes(ps: Params, blocks: nat, lens: seq<nat>, keys: seq<Key>, filters: seq<PrefixFilter>)
    requires blocks > 0
  {
    && |filters| == |lens|
    && forall f :: 0 <= f < |lens| ==> filters[f] == PrefixFilter(lens[f], Filled(ps, blocks, keys, lens[f]))
  }

  class RunWriter<V> {
    const ps: Params
    const maxEntries: nat
    const valuesLen: nat
    /** The prefix lengths there are filters for. */
    const prefixLens: seq<nat>
    var keys: seq<Key>
    var offsets: seq<nat>
    var values: seq<V>
    var filter: seq<Block>
    var prefixFilters: seq<PrefixFilter>

    ghost predicate FiltersCover()
      reads this
    {
      && Covers(ps, keys, ps.width, filter)
      && forall f :: 0 <= f < |prefixFilters| ==>
           prefixFilters[f].len <= ps.width && Covers(ps, keys, prefixFilters[f].len, prefixFilters[f].blocks)
    }

    ghost predicate Valid()
      reads this
    {
      && WellCut(keys, offsets, values)
      && (forall i :: 0 <= i < |keys| ==> |keys[i]| == ps.width)
      && FiltersCover()
      && ExactFilters(ps, BlocksFor(maxEntries), prefixLens, keys, filter, prefixFilters)
      && |keys| <= maxEntries && |values| <= valuesLen
    }

    ghost function Contents(): seq<Entry<V>>
      requires Valid()
      reads this
    {
      Written(keys, offsets, values)
    }

    /** `create`: room for at most `maxEntries` keys and exactly `valuesLen` values. */
    constructor (ps: Params, maxEntries: nat, valuesLen: nat, prefixLens: seq<nat>)
      requires forall f :: 0 <= f < |prefixLens| ==> prefixLens[f] <= ps.width
      ensures Valid() && Contents() == []
      ensures this.ps == ps && this.maxEntries == maxEntries && this.valuesLen == valuesLen
      ensures this.prefixLens == prefixLens
    {
      this.ps, this.maxEntries, this.valuesLen, this.prefixLens := ps, maxEntries, valuesLen, prefixLens;
      keys, offsets, values := [], [], [];
      var blank: seq<Block> := seq(BlocksFor(maxEntries), _ => EMPTY_BLOCK);
      filter := blank;
      prefixFilters := seq(|prefixLens|, f requires 0 <= f < |prefixLens| => PrefixFilter(prefixLens[f], blank));
    }

    /** `start_key`: begins an entry, and adds the key and its prefixes to the filters. */
    method StartKey(key: Key)
      requires Valid() && |keys| < maxEntries && |key| == ps.width
      modifies this
      ensures Valid()
      ensures Contents() == old(Contents()) + [Entry(key, [])]
    {
      hide Covers, Written, WellCut, Bloom.Insert, Filled, ExactPrefixes;
      CoversInsert(ps, keys, ps.width, filter, key);
      assert key[..ps.width] == key;
      assert filter != [] by {
        CoversNonempty(ps, keys, ps.width, filter);
      }
      FilledMore(ps, BlocksFor(maxEntries), keys, ps.width, key);
      filter := Bloom.Insert(filter, ps.hash(key));
      AddPrefixes(key);
      WrittenStart(keys, offsets, values, key);
      offsets := offsets + [|values|];
      keys := keys + [key];
    }

    method AddPrefixes(key: Key)
      requires |key| == ps.width
      requires forall f :: 0 <= f < |prefixFilters| ==>
        prefixFilters[f].len <= ps.width && Covers(ps, keys, prefixFilters[f].len, prefixFilters[f].blocks)
      requires ExactPrefixes(ps, BlocksFor(maxEntries), prefixLens, keys, prefixFilters)
      modifies `prefixFilters
      ensures forall f :: 0 <= f < |prefixFilters| ==>
        prefixFilters[f].len <= ps.width && Covers(ps, keys + [key], prefixFilters[f].len, prefixFilters[f].blocks)
      ensures ExactPrefixes(ps, BlocksFor(maxEntries), prefixLens, keys + [key], prefixFilters)
    {
      hide Covers, Bloom.Insert, Filled;
      ghost var blocks := BlocksFor(maxEntries);
      for f := 0 to |prefixFilters|
        invariant |prefixFilters| == |old(prefixFilters)|
        invariant forall g :: f <= g < |prefixFilters| ==> prefixFilters[g] == old(prefixFilters)[g]
        invariant forall g :: 0 <= g < f ==>
          prefixFilters[g].len <= ps.width && Covers(ps, keys + [key], prefixFilters[g].len, prefixFilters[g].blocks)
        invariant forall g :: 0 <= g < f ==>
          prefixFilters[g] == PrefixFilter(prefixLens[g], Filled(ps, blocks, keys + [key], prefixLens[g]))
      {
        var pf := prefixFilters[f];
        CoversInsert(ps, keys, pf.len, pf.blocks, key);
        CoversNonempty(ps, keys, pf.len, pf.blocks);
        FilledMore(ps, blocks, keys, pf.len, key);
        prefixFilters := prefixFilters[f := pf.(blocks := Bloom.Insert(pf.blocks, ps.hash(key[..pf.len])))];
      }
    }

    /** `append_values`: extends the current entry. */
    method AppendValues(vals: seq<V>)
      requires Valid() && Contents() != [] && |values| + |vals| <= valuesLen
      modifies `values
      ensures Valid()
      ensures var es := old(Contents());
        var last := es[|es| - 1];
        Contents() == es[..|es| - 1] + [Entry(last.key, last.vals + vals)]
    {
      hide Covers, Written, WellCut, ExactFilters;
      WrittenAppend(keys, offsets, values, vals);
      values := values + vals;
    }

    /** `finish`: seals the run, with the closing offset. */
    method Finish() returns (run: Run<V>)
      requires Valid() && |values| == valuesLen
      requires Sorted(Contents()) && Inhabited(Contents())
      ensures ValidRun(ps, run) && EntriesOf(run) == Contents() && |run.values| == valuesLen
      ensures ExactFilters(ps, BlocksFor(maxEntries), prefixLens, run.keys, run.filter, run.prefixFilters)
    {
      hide Covers, Below, Written, ExactFilters;
      run := Run(keys, offsets + [valuesLen], values, filter, prefixFilters);
      Sealed(run);
    }

    lemma Sealed(run: Run<V>)
      requires Valid() && Sorted(Contents()) && Inhabited(Contents())
      requires run == Run(keys, offsets + [|values|], values, filter, prefixFilters)
      ensures ValidRun(ps, run) && EntriesOf(run) == Contents()
    {
      hide Covers, Below, Written, EntriesOf, WellCut, OffsetsClimb, Inhabited, ExactFilters;
      SealedOffsets(keys, offsets, values, run);
      var es := Contents();
      assert forall i :: 0 <= i < |keys| ==> es[i].key == keys[i];
    }
  }

  /** With the closing offset the columns are a run's, of the same entries. */
  lemma SealedOffsets<V>(keys: seq<Key>, offsets: seq<nat>, values: seq<V>, run: Run<V>)
    requires WellCut(keys, offsets, values) && Inhabited(Written(keys, offsets, values))
    requires run.keys == keys && run.offsets == offsets + [|values|] && run.values == values
    ensures OffsetsClimb(run) && EntriesOf(run) == Written(keys, offsets, values)
    ensures |Written(keys, offsets, values)| == |keys|
  {
    hide Written, EntriesOf;
    var es := Written(keys, offsets, values);
    forall i | 0 <= i < |keys|
      ensures run.offsets[i + 1] == EndOf(offsets, values, i) && run.offsets[i] < run.offsets[i + 1]
    {
      assert es[i].vals != [];
    }
    SteppingClimbs(run.offsets, |keys|);
  }

  lemma SteppingClimbs(offsets: seq<nat>, n: nat)
    requires |offsets| == n + 1 && forall i :: 0 <= i < n ==> offsets[i] < offsets[i + 1]
    ensures forall i, j :: 0 <= i < j <= n ==> offsets[i] < offsets[j]
  {
    forall i, j | 0 <= i < j <= n
      ensures offsets[i] < offsets[j]
    {
      Climb(offsets, i, j);
    }
  }

  lemma {:induction false} Climb(offsets: seq<nat>, i: nat, j: nat)
    requires i < j < |offsets| && forall m :: 0 <= m < |offsets| - 1 ==> offsets[m] < offsets[m + 1]
    ensures offsets[i] < offsets[j]
    decreases j
  {
    if i + 1 < j {
      Climb(offsets, i, j - 1);
    }
    assert offsets[j - 1] < offsets[j - 1 + 1];
  }

  lemma CoversNonempty(ps: Params, keys: seq<Key>, len: nat, blocks: seq<Block>)
    requires Covers(ps, keys, len, blocks)
    ensures blocks != []
  {
  }
}
