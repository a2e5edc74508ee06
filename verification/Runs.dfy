/**
 Immutable runs: sorted keys, prefix-sum offsets, flat values, and Bloom filters of the keys and
 of their prefixes. A run answers look-ups by filter and binary search.
 */
module Runs {
  import opened Wrappers
  import opened Ordering
  import opened Keys
  import opened Entries
  import opened Bloom

  /** How many words a key has, and its hash: any fixed function of a word sequence. */
  datatype Params = Params(width: nat, hash: Key -> Hash)

  datatype PrefixFilter = PrefixFilter(len: nat, blocks: seq<Block>)

  datatype Run<V> = Run(
    keys: seq<Key>,
    offsets: seq<nat>,
    values: seq<V>,
    filter: seq<Block>,
    prefixFilters: seq<PrefixFilter>)

  /** The filter admits every key's prefix of `len` words. */
  ghost predicate Covers(ps: Params, keys: seq<Key>, len: nat, blocks: seq<Block>) {
    blocks != [] && forall i :: 0 <= i < |keys| && len <= |keys[i]| ==> MayContain(blocks, ps.hash(keys[i][..len]))
  }

  /** Offsets climb from 0 to the value count, with a value for every key. */
  ghost predicate OffsetsClimb<V>(run: Run<V>) {
    && |run.offsets| == |run.keys| + 1
    && run.offsets[0] == 0 && run.offsets[|run.keys|] == |run.values|
    && forall i, j :: 0 <= i < j <= |run.keys| ==> run.offsets[i] < run.offsets[j]
  }

  ghost predicate FiltersCover<V>(ps: Params, run: Run<V>) {
    && Covers(ps, run.keys, ps.width, run.filter)
    && forall f :: 0 <= f < |run.prefixFilters| ==>
         && run.prefixFilters[f].len <= ps.width
         && Covers(ps, run.keys, run.prefixFilters[f].len, run.prefixFilters[f].blocks)
  }

  ghost predicate ValidRun<V>(ps: Params, run: Run<V>) {
    && (forall i :: 0 <= i < |run.keys| ==> |run.keys[i]| == ps.width)
    && Ascending(run.keys)
    && OffsetsClimb(run)
    && FiltersCover(ps, run)
  }

  /** The run's `i`th entry. */
  function EntryAt<V>(run: Run<V>, i: nat): Entry<V>
    requires i < |run.keys| && OffsetsClimb(run)
  {
    Entry(run.keys[i], run.values[run.offsets[i]..run.offsets[i + 1]])
  }

  function EntriesOf<V>(run: Run<V>): (es: seq<Entry<V>>)
    requires OffsetsClimb(run)
    ensures |es| == |run.keys|
    ensures forall i :: 0 <= i < |es| ==> es[i] == EntryAt(run, i)
  {
    seq(|run.keys|, i requires 0 <= i < |run.keys| => EntryAt(run, i))
  }

  lemma RunEntries<V>(ps: Params, run: Run<V>)
    requires ValidRun(ps, run)
    ensures Sorted(EntriesOf(run)) && Inhabited(EntriesOf(run)) && DistinctKeys(EntriesOf(run))
    ensures KeysOf(EntriesOf(run)) == run.keys
  {
    hide Below, FiltersCover;
    SortedDistinct(EntriesOf(run));
  }

  // ------------------------------------------------------------------------
  // Look-ups
  // ------------------------------------------------------------------------

  /** `binary_search` over ascending keys. */
  method BinarySearch(keys: seq<Key>, key: Key) returns (r: Option<nat>)
    requires Ascending(keys)
    ensures r.Some? <==> key in keys
    ensures r.Some? ==> r.value < |keys| && keys[r.value] == key
  {
    hide Below;
    var lo, hi := 0, |keys|;
    while lo < hi
      invariant 0 <= lo <= hi <= |keys|
      invariant forall i :: 0 <= i < lo ==> Below(keys[i], key)
      invariant forall i :: hi <= i < |keys| ==> Below(key, keys[i])
    {
      var mid := lo + (hi - lo) / 2;
      BelowTotal(keys[mid], key);
      if keys[mid] == key {
        return Some(mid);
      }
      if Below(keys[mid], key) {
        forall i | 0 <= i < mid
          ensures Below(keys[i], key)
        {
          BelowTransitive(keys[i], keys[mid], key);
        }
        lo := mid + 1;
      } else {
        forall i | mid < i < |keys|
          ensures Below(key, keys[i])
        {
          BelowTransitive(key, keys[mid], keys[i]);
        }
        hi := mid;
      }
    }
    BelowTotal(key, key);
    r := None;
  }

  /** `find`: the key's values, unless the filter or the search rules it out. */
  method Find<V>(ps: Params, run: Run<V>, key: Key, hash: Hash) returns (r: Option<seq<V>>)
    requires ValidRun(ps, run) && |key| == ps.width && hash == ps.hash(key)
    ensures r.Some? <==> key in run.keys
    ensures (if r.Some? then r.value else []) == ValuesAt(EntriesOf(run), key)
    ensures r.Some? ==> r.value != []
  {
    hide Below, MayContain, ValuesAt;
    RunEntries(ps, run);
    ValuesAtPresent(EntriesOf(run), key);
    if !MayContain(run.filter, hash) {
      FilterExcludes(ps, run.keys, ps.width, run.filter, key);
      return None;
    }
    var at := BinarySearch(run.keys, key);
    if at.None? {
      return None;
    }
    var i := at.value;
    ValuesAtIndex(EntriesOf(run), i);
    r := Some(run.values[run.offsets[i]..run.offsets[i + 1]]);
  }

  /** `contains_key` of a run. */
  method HasKey<V>(ps: Params, run: Run<V>, key: Key, hash: Hash) returns (r: bool)
    requires ValidRun(ps, run) && |key| == ps.width && hash == ps.hash(key)
    ensures r <==> key in run.keys
  {
    hide Below, MayContain;
    if !MayContain(run.filter, hash) {
      FilterExcludes(ps, run.keys, ps.width, run.filter, key);
      return false;
    }
    var at := BinarySearch(run.keys, key);
    r := at.Some?;
  }

  /** A filter that rejects a prefix's hash proves that no key has the prefix. */
  lemma FilterExcludes(ps: Params, keys: seq<Key>, len: nat, blocks: seq<Block>, prefix: Key)
    requires Covers(ps, keys, len, blocks) && |prefix| == len && !MayContain(blocks, ps.hash(prefix))
    ensures forall i :: 0 <= i < |keys| && len <= |keys[i]| ==> keys[i][..len] != prefix
    ensures (forall i :: 0 <= i < |keys| ==> |keys[i]| == len) ==> prefix !in keys
  {
  }

  /** The first filter the run keeps for prefixes of the length. */
  ghost predicate FirstFilter<V>(run: Run<V>, len: nat, f: nat) {
    && f < |run.prefixFilters| && run.prefixFilters[f].len == len
    && forall g :: 0 <= g < f ==> run.prefixFilters[g].len != len
  }

  /** The run has a filter for the length, and it does not admit the hash. */
  ghost predicate RuledOut<V>(run: Run<V>, len: nat, hash: Hash) {
    exists f: nat :: FirstFilter(run, len, f)
      && run.prefixFilters[f].blocks != [] && !MayContain(run.prefixFilters[f].blocks, hash)
  }

  /** `may_have_prefix`: false exactly if a filter rules the prefix out, and then no key starts with it. */
  method MayHavePrefix<V>(ps: Params, run: Run<V>, prefix: Key, hash: Hash) returns (r: bool)
    requires ValidRun(ps, run) && hash == ps.hash(prefix)
    ensures !r <==> RuledOut(run, |prefix|, hash)
    ensures !r ==> forall i :: 0 <= i < |run.keys| ==> !Matches(run.keys[i], prefix)
  {
    hide Below, MayContain, Ascending, OffsetsClimb;
    for f := 0 to |run.prefixFilters|
      invariant forall g :: 0 <= g < f ==> run.prefixFilters[g].len != |prefix|
    {
      if run.prefixFilters[f].len == |prefix| {
        assert FirstFilter(run, |prefix|, f);
        r := MayContain(run.prefixFilters[f].blocks, hash);
        if !r {
          FilterExcludes(ps, run.keys, |prefix|, run.prefixFilters[f].blocks, prefix);
          assert prefix[..|prefix|] == prefix;
        }
        return;
      }
    }
    r := true;
  }

  /** The keys that match a prefix, in order. */
  function MatchingKeys(keys: seq<Key>, prefix: Key): seq<Key> {
    if keys == [] then []
    else (if Matches(keys[0], prefix) then [keys[0]] else []) + MatchingKeys(keys[1..], prefix)
  }

  lemma {:induction false} MatchingConcat(a: seq<Key>, b: seq<Key>, prefix: Key)
    ensures MatchingKeys(a + b, prefix) == MatchingKeys(a, prefix) + MatchingKeys(b, prefix)
  {
    if a == [] {
      assert a + b == b;
    } else {
      assert (a + b)[1..] == a[1..] + b;
      MatchingConcat(a[1..], b, prefix);
    }
  }

  lemma {:induction false} MatchingAll(keys: seq<Key>, prefix: Key)
    ensures (forall i :: 0 <= i < |keys| ==> Matches(keys[i], prefix)) ==> MatchingKeys(keys, prefix) == keys
    ensures (forall i :: 0 <= i < |keys| ==> !Matches(keys[i], prefix)) ==> MatchingKeys(keys, prefix) == []
  {
    if keys != [] {
      MatchingAll(keys[1..], prefix);
      assert keys == [keys[0]] + keys[1..];
    }
  }

  /** `partition_point`: how many leading keys order as `wanted` against the prefix. */
  method PartitionPoint(keys: seq<Key>, prefix: Key, wanted: Ordering) returns (n: nat)
    requires forall i, j :: 0 <= i < j < |keys| && PrefixOrder(keys[j], prefix) == wanted ==>
      PrefixOrder(keys[i], prefix) == wanted
    ensures n <= |keys|
    ensures forall i :: 0 <= i < n ==> PrefixOrder(keys[i], prefix) == wanted
    ensures forall i :: n <= i < |keys| ==> PrefixOrder(keys[i], prefix) != wanted
  {
    hide PrefixOrder, Matches;
    var lo, hi := 0, |keys|;
    while lo < hi
      invariant 0 <= lo <= hi <= |keys|
      invariant forall i :: 0 <= i < lo ==> PrefixOrder(keys[i], prefix) == wanted
      invariant forall i :: hi <= i < |keys| ==> PrefixOrder(keys[i], prefix) != wanted
    {
      var mid := lo + (hi - lo) / 2;
      var order := CmpPrefix(keys[mid], prefix);
      if order == wanted {
        lo := mid + 1;
      } else {
        hi := mid;
      }
    }
    n := lo;
  }

  ghost predicate OneWidth(keys: seq<Key>, width: nat) {
    forall i :: 0 <= i < |keys| ==> |keys[i]| == width
  }

  /** The matches of a prefix are one contiguous range of ascending keys, found by two searches. */
  method PrefixRange(keys: seq<Key>, prefix: Key, width: nat) returns (found: seq<Key>)
    requires Ascending(keys) && OneWidth(keys, width)
    ensures found == MatchingKeys(keys, prefix)
  {
    hide Below, PrefixOrder, Matches, MatchingKeys;
    forall i, j | 0 <= i < j < |keys|
      ensures PrefixOrder(keys[i], prefix) == Greater ==> PrefixOrder(keys[j], prefix) == Greater
      ensures PrefixOrder(keys[j], prefix) == Less ==> PrefixOrder(keys[i], prefix) == Less
    {
      PrefixOrderMonotone(keys[i], keys[j], prefix);
    }
    var lo := PartitionPoint(keys, prefix, Less);
    var len := PartitionPoint(keys[lo..], prefix, Equal);
    found := keys[lo..lo + len];
    RangeIsMatching(keys, prefix, lo, lo + len);
  }

  lemma RangeIsMatching(keys: seq<Key>, prefix: Key, lo: nat, hi: nat)
    requires lo <= hi <= |keys|
    requires forall i :: 0 <= i < |keys| ==> (PrefixOrder(keys[i], prefix) == Equal <==> lo <= i < hi)
    ensures keys[lo..hi] == MatchingKeys(keys, prefix)
  {
    hide PrefixOrder, Matches, MatchingKeys;
    forall i | 0 <= i < |keys|
      ensures Matches(keys[i], prefix) <==> lo <= i < hi
    {
      PrefixOrderEqual(keys[i], prefix);
    }
    var a, b, c := keys[..lo], keys[lo..hi], keys[hi..];
    assert keys == a + b + c;
    MatchingConcat(a + b, c, prefix);
    MatchingConcat(a, b, prefix);
    MatchingAll(a, prefix);
    MatchingAll(b, prefix);
    MatchingAll(c, prefix);
  }
}
