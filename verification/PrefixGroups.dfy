/**
 Every key occurrence of a map, grouped by prefix: each group is one prefix's keys out of the
 buffer or out of one run. The groups partition the occurrences.
 */
module PrefixGrouping {
  import opened Wrappers
  import opened Ordering
  import opened Keys
  import opened Entries
  import opened Runs
  import opened Levels
  import opened Memtables
  import opened KeyIterators
  import opened Reads
  import opened LsmMaps

  // ------------------------------------------------------------------------
  // The buffer's chains partition its keys
  // ------------------------------------------------------------------------

  /** The keys that start with each of the prefixes, prefix after prefix. */
  ghost function MatchesOf(keys: seq<Key>, prefixes: seq<Key>): multiset<Key> {
    if prefixes == [] then multiset{}
    else multiset(MatchingKeys(keys, prefixes[0])) + MatchesOf(keys, prefixes[1..])
  }

  ghost predicate Listing(prefixes: seq<Key>, len: nat) {
    && (forall i :: 0 <= i < |prefixes| ==> |prefixes[i]| == len)
    && (forall i, j :: 0 <= i < j < |prefixes| ==> prefixes[i] != prefixes[j])
  }

  ghost function Only(k: Key, yes: bool): multiset<Key> {
    if yes then multiset{k} else multiset{}
  }

  lemma OneMoreMatch(keys: seq<Key>, k: Key, p: Key)
    requires |p| <= |k|
    ensures multiset(MatchingKeys(keys + [k], p)) == multiset(MatchingKeys(keys, p)) + Only(k, p == k[..|p|])
  {
    hide MatchingKeys, Matches;
    MatchingConcat(keys, [k], p);
    MatchingOne(k, p);
    MatchesIsStartsWith(k, p);
    assert p <= k <==> p == k[..|p|];
  }

  /** A key belongs to exactly one of several distinct prefixes of one length. */
  lemma {:induction false} OneMorePartitioned(keys: seq<Key>, k: Key, prefixes: seq<Key>, len: nat)
    requires Listing(prefixes, len) && len <= |k|
    ensures MatchesOf(keys + [k], prefixes) == MatchesOf(keys, prefixes) + Only(k, k[..len] in prefixes)
  {
    if prefixes == [] {
      hide MatchingKeys;
    } else {
      hide MatchingKeys, MatchesOf, Only, Listing;
      var p, rest := prefixes[0], prefixes[1..];
      ListingStep(prefixes, len, k[..len]);
      OneMorePartitioned(keys, k, rest, len);
      OneMoreMatch(keys, k, p);
      MatchesStep(keys, prefixes);
      MatchesStep(keys + [k], prefixes);
      OnlySplits(k, p == k[..len], k[..len] in rest);
      Regroup(multiset(MatchingKeys(keys, p)), Only(k, p == k[..len]),
              MatchesOf(keys, rest), Only(k, k[..len] in rest));
    }
  }

  lemma Regroup(a: multiset<Key>, b: multiset<Key>, c: multiset<Key>, d: multiset<Key>)
    ensures (a + b) + (c + d) == (a + c) + (b + d)
  {
  }

  lemma ListingStep(prefixes: seq<Key>, len: nat, q: Key)
    requires Listing(prefixes, len) && prefixes != []
    ensures Listing(prefixes[1..], len) && |prefixes[0]| == len
    ensures q in prefixes <==> q == prefixes[0] || q in prefixes[1..]
    ensures !(q == prefixes[0] && q in prefixes[1..])
  {
    assert prefixes == [prefixes[0]] + prefixes[1..];
  }

  lemma MatchesStep(keys: seq<Key>, prefixes: seq<Key>)
    requires prefixes != []
    ensures MatchesOf(keys, prefixes) == multiset(MatchingKeys(keys, prefixes[0])) + MatchesOf(keys, prefixes[1..])
  {
  }

  lemma OnlySplits(k: Key, here: bool, later: bool)
    requires !(here && later)
    ensures Only(k, here || later) == Only(k, here) + Only(k, later)
  {
  }

  /** Distinct prefixes that cover all keys partition them. */
  lemma {:induction false} PrefixesPartition(keys: seq<Key>, prefixes: seq<Key>, len: nat)
    requires Listing(prefixes, len)
    requires forall i :: 0 <= i < |keys| ==> len <= |keys[i]| && keys[i][..len] in prefixes
    ensures MatchesOf(keys, prefixes) == multiset(keys)
  {
    hide MatchesOf, Listing, MatchingKeys;
    if keys == [] {
      NoneMatch(prefixes);
    } else {
      var n := |keys| - 1;
      PrefixesPartition(keys[..n], prefixes, len);
      OneMorePartitioned(keys[..n], keys[n], prefixes, len);
      assert keys == keys[..n] + [keys[n]];
    }
  }

  lemma {:induction false} NoneMatch(prefixes: seq<Key>)
    ensures MatchesOf([], prefixes) == multiset{}
  {
    if prefixes != [] {
      NoneMatch(prefixes[1..]);
    }
  }

  /** The heads of the chains, one per prefix, in any order. */
  method ListHeads(c: PrefixChains, ghost keys: seq<Key>) returns (heads: seq<nat>, prefixes: seq<Key>)
    requires ChainsOk(c, keys)
    ensures |heads| == |prefixes| && Listing(prefixes, c.len)
    ensures forall i :: 0 <= i < |heads| ==> prefixes[i] in c.heads && heads[i] == c.heads[prefixes[i]]
    ensures forall p :: p in c.heads ==> p in prefixes
  {
    hide ChainFrom, Descending;
    heads, prefixes := [], [];
    var rest := c.heads.Keys;
    while rest != {}
      invariant rest <= c.heads.Keys && |heads| == |prefixes| && Listing(prefixes, c.len)
      invariant forall i :: 0 <= i < |heads| ==>
        prefixes[i] in c.heads && heads[i] == c.heads[prefixes[i]] && prefixes[i] !in rest
      invariant forall p :: p in c.heads ==> p in rest || p in prefixes
      decreases rest
    {
      var p :| p in rest;
      heads, prefixes := heads + [c.heads[p]], prefixes + [p];
      rest := rest - {p};
    }
  }

  // ------------------------------------------------------------------------
  // The iterator
  // ------------------------------------------------------------------------

  /** The keys of the groups the given heads start; without chains each head stands alone. */
  ghost function HeadKeys(keys: seq<Key>, chains: Option<seq<nat>>, heads: seq<nat>): multiset<Key>
    requires HeadsOk(|keys|, chains, heads)
  {
    if heads == [] then multiset{}
    else multiset(GroupAt(keys, chains, heads[0])) + HeadKeys(keys, chains, heads[1..])
  }

  ghost predicate HeadsOk(n: nat, chains: Option<seq<nat>>, heads: seq<nat>) {
    && (forall i :: 0 <= i < |heads| ==> heads[i] < n)
    && n <= NO_ENTRY
    && (chains.Some? ==> LinksDown(chains.value) && |chains.value| == n)
  }

  /** The positions of one group. */
  function GroupOf(chains: Option<seq<nat>>, head: nat): MemKeys {
    match chains
    case Some(next) => Chain(next, head)
    case None => Range(head, head + 1)
  }

  ghost function GroupAt(keys: seq<Key>, chains: Option<seq<nat>>, head: nat): seq<Key>
    requires head < |keys| <= NO_ENTRY
    requires chains.Some? ==> LinksDown(chains.value) && |chains.value| == |keys|
  {
    PositionsInRange(GroupOf(chains, head), |keys|);
    KeysAt(keys, Positions(GroupOf(chains, head), |keys|))
  }

  /**
   The group's keys share their first `len` words with the head's key; a chain has all such keys of the
   buffer, each once, and without chains the head is alone.
   */
  ghost predicate GroupShares(keys: seq<Key>, chains: Option<seq<nat>>, head: nat, len: nat)
    requires head < |keys| <= NO_ENTRY
    requires chains.Some? ==> LinksDown(chains.value) && |chains.value| == |keys|
  {
    && SharePrefix(GroupAt(keys, chains, head), keys[head], len)
    && WholeGroup(keys, chains, GroupAt(keys, chains, head), keys[head], len)
  }

  ghost predicate WholeGroup(keys: seq<Key>, chains: Option<seq<nat>>, group: seq<Key>, first: Key, len: nat) {
    if chains.Some? then len <= |first| && multiset(group) == multiset(MatchingKeys(keys, first[..len]))
    else group == [first]
  }

  ghost predicate SharePrefix(group: seq<Key>, first: Key, len: nat) {
    && group != [] && len <= |first|
    && forall i :: 0 <= i < |group| ==> len <= |group[i]| && group[i][..len] == first[..len]
  }

  ghost predicate SameWords(a: Key, b: Key, len: nat) {
    len <= |a| && len <= |b| && a[..len] == b[..len]
  }

  /** What is left of a run starts with a new prefix: no key before it shares one with a key in it. */
  ghost predicate CutAfterPrefix(run: seq<Key>, left: seq<Key>, len: nat) {
    && |left| <= |run| && left == run[|run| - |left|..]
    && forall i, j :: 0 <= i < |run| - |left| <= j < |run| ==> !SameWords(run[i], run[j], len)
  }

  class PrefixGroups<V> {
    const memtable: Memtable<V>
    const prefixLen: nat
    const width: nat
    const chains: Option<seq<nat>>
    var heads: seq<nat>
    var runs: seq<seq<Key>>
    var nextRun: nat
    var current: seq<Key>

    ghost predicate Valid()
      reads this, memtable
    {
      && memtable.Valid() && prefixLen <= width
      && HeadsOk(memtable.len, chains, heads)
      && nextRun <= |runs|
      && Ascending(current) && OneWidth(current, width)
      && (if nextRun == 0 then current == [] else CutAfterPrefix(runs[nextRun - 1], current, prefixLen))
      && (forall r :: 0 <= r < |runs| ==> Ascending(runs[r]) && OneWidth(runs[r], width))
      && |KeysOf(memtable.Entries())| == memtable.len
      && (forall i :: 0 <= i < |heads| ==>
            GroupShares(KeysOf(memtable.Entries()), chains, heads[i], prefixLen))
    }

    /** The key occurrences not yet grouped. */
    ghost function Left(): multiset<Key>
      requires Valid()
      reads this, memtable
    {
      HeadKeys(KeysOf(memtable.Entries()), chains, heads) + multiset(current) + multiset(Flatten(runs[nextRun..]))
    }

    constructor (memtable: Memtable<V>, prefixLen: nat, width: nat, chains: Option<seq<nat>>,
                 heads: seq<nat>, runs: seq<seq<Key>>)
      requires memtable.Valid() && prefixLen <= width && HeadsOk(memtable.len, chains, heads)
      requires |KeysOf(memtable.Entries())| == memtable.len
      requires forall r :: 0 <= r < |runs| ==> Ascending(runs[r]) && OneWidth(runs[r], width)
      requires forall i :: 0 <= i < |heads| ==>
        GroupShares(KeysOf(memtable.Entries()), chains, heads[i], prefixLen)
      ensures Valid() && this.prefixLen == prefixLen && this.chains == chains
      ensures Left() == HeadKeys(KeysOf(memtable.Entries()), chains, heads) + multiset(Flatten(runs))
    {
      this.memtable, this.prefixLen, this.width, this.chains := memtable, prefixLen, width, chains;
      this.heads, this.runs, nextRun, current := heads, runs, 0, [];
      assert runs[0..] == runs;
    }

    /** The group is one prefix's keys, all of them, out of the buffer's chains or out of one run. */
    ghost predicate Whole(fromBuffer: bool, group: seq<Key>, first: Key)
      reads this, memtable
    {
      if fromBuffer then WholeGroup(KeysOf(memtable.Entries()), chains, group, first, prefixLen)
      else
        && 0 < nextRun <= |runs| && prefixLen <= |first|
        && group == MatchingKeys(runs[nextRun - 1], first[..prefixLen])
    }

    /**
     `next`: one group, with a key whose leading words are its prefix; nothing is lost or repeated, and
     the group has every key with that prefix of its chain or its run.
     */
    method Next() returns (first: Option<Key>, group: KeysIter<V>)
      requires Valid()
      modifies this
      ensures Valid() && fresh(group) && group.Valid()
      ensures first.None? <==> old(Left()) == multiset{}
      ensures first.None? ==> Left() == multiset{}
      ensures first.Some? ==> SharePrefix(group.Remaining(), first.value, prefixLen)
      ensures first.Some? ==> old(Left()) == multiset(group.Remaining()) + Left()
      ensures first.Some? ==> Whole(old(heads) != [], group.Remaining(), first.value)
      ensures runs == old(runs) && nextRun >= old(nextRun)
    {
      hide *;
      if heads != [] {
        var key;
        key, group := NextFromBuffer();
        first := Some(key);
      } else {
        first, group := NextFromRuns();
      }
    }

    /** The group of the next head. */
    method NextFromBuffer() returns (first: Key, group: KeysIter<V>)
      requires Valid() && heads != []
      modifies `heads
      ensures Valid() && fresh(group) && group.Valid()
      ensures SharePrefix(group.Remaining(), first, prefixLen)
      ensures old(Left()) == multiset(group.Remaining()) + Left() && old(Left()) != multiset{}
      ensures Whole(true, group.Remaining(), first)
    {
      hide Memtable.Valid, Memtable.Entries, HeadKeys, Ascending, KeysOf, Flatten, SharePrefix, Whole, CutAfterPrefix;
      var e := memtable.At(heads[0]);
      HeadKey(e);
      group := NextHead();
      first := e.key;
      GroupNonempty(group.Remaining(), e.key, prefixLen);
    }

    /** The leading group of the next run that has keys left. */
    method NextFromRuns() returns (first: Option<Key>, group: KeysIter<V>)
      requires Valid() && heads == []
      modifies `current, `nextRun
      ensures Valid() && fresh(group) && group.Valid() && nextRun >= old(nextRun)
      ensures first.None? <==> old(Left()) == multiset{}
      ensures first.None? ==> Left() == multiset{}
      ensures first.Some? ==> SharePrefix(group.Remaining(), first.value, prefixLen)
      ensures first.Some? ==> old(Left()) == multiset(group.Remaining()) + Left()
      ensures first.Some? ==> Whole(false, group.Remaining(), first.value)
    {
      hide Memtable.Valid, Memtable.Entries, HeadKeys, Ascending, KeysOf, Flatten, SharePrefix, Whole, CutAfterPrefix;
      hide Left, HeadsOk, GroupShares;
      SkipEmptyRuns();
      if current == [] {
        group := new KeysIter(memtable, Range(0, 0), []);
        first := None;
        return;
      }
      first := Some(current[0]);
      group := NextRunGroup();
      GroupNonempty(group.Remaining(), first.value, prefixLen);
    }

    lemma HeadKey(e: Entry<V>)
      requires Valid() && heads != [] && e == memtable.Entries()[heads[0]]
      ensures KeysOf(memtable.Entries())[heads[0]] == e.key
    {
      hide Memtable.Valid, Memtable.Entries;
    }

    /** Moves to the next run that has keys left; if there is none, nothing is left at all. */
    method SkipEmptyRuns()
      requires Valid() && heads == []
      modifies `current, `nextRun
      ensures Valid() && Left() == old(Left()) && nextRun >= old(nextRun)
      ensures current == [] ==> Left() == multiset{}
    {
      hide Memtable.Valid, Memtable.Entries, Ascending, KeysOf, OneWidth, HeadKeys, Flatten, SameWords;
      NothingFlat();
      NoHeads(KeysOf(memtable.Entries()), chains);
      while current == [] && nextRun < |runs|
        invariant Valid() && Left() == old(Left()) && nextRun >= old(nextRun)
        decreases |runs| - nextRun
      {
        current := runs[nextRun];
        nextRun := nextRun + 1;
        FlatStep(runs, nextRun - 1);
      }
      if current == [] {
        assert runs[nextRun..] == [];
      }
    }

    /** The leading keys of the current run that share the first one's prefix: all that do, in the whole run. */
    method NextRunGroup() returns (group: KeysIter<V>)
      requires Valid() && heads == [] && current != []
      modifies `current
      ensures Valid() && fresh(group) && group.Valid()
      ensures SharePrefix(group.Remaining(), old(current)[0], prefixLen)
      ensures Whole(false, group.Remaining(), old(current)[0])
      ensures old(Left()) == multiset(group.Remaining()) + Left()
    {
      hide Memtable.Valid, Memtable.Entries, HeadKeys, KeysOf, Ascending, SharePrefix, GroupShares, Flatten, HeadsOk;
      hide MatchingKeys, CutAfterPrefix, KeysIter.Valid, KeysIter.Remaining, OneWidth;
      FirstHasWidth(current, width);
      var n := LeadingKeys(runs[nextRun - 1], current, prefixLen, width);
      AscendingRest(current, n, width);
      group := SliceIter(current[..n]);
      current := current[n..];
      assert old(current) == old(current)[..n] + current;
    }

    /** An iterator over one slice of a run. */
    method SliceIter(keys: seq<Key>) returns (group: KeysIter<V>)
      requires memtable.Valid()
      ensures fresh(group) && group.Valid() && group.memtable == memtable && group.Remaining() == keys
    {
      hide Memtable.Valid, Memtable.Entries, KeysOf, Positions, Flatten;
      group := new KeysIter(memtable, Range(0, 0), [keys]);
      OneSlice(keys);
      NoPositions(memtable.len);
    }

    method NextHead() returns (group: KeysIter<V>)
      requires Valid() && heads != []
      modifies `heads
      ensures Valid() && fresh(group) && group.Valid() && heads == old(heads)[1..]
      ensures SharePrefix(group.Remaining(), KeysOf(memtable.Entries())[old(heads)[0]], prefixLen)
      ensures Whole(true, group.Remaining(), KeysOf(memtable.Entries())[old(heads)[0]])
      ensures old(Left()) == multiset(group.Remaining()) + Left()
    {
      hide Memtable.Valid, Memtable.Entries, Ascending, KeysOf, Flatten, SharePrefix, Positions, WholeGroup;
      hide CutAfterPrefix;
      var head := heads[0];
      ghost var keys := KeysOf(memtable.Entries());
      group := new KeysIter(memtable, GroupOf(chains, head), []);
      heads := heads[1..];
      NothingFlat();
      assert group.Remaining() == GroupAt(keys, chains, head);
      assert GroupShares(keys, chains, old(heads)[0], prefixLen);
    }
  }

  /** How many leading keys share the first one's prefix: all that do, in the whole run. */
  method LeadingKeys(ghost run: seq<Key>, left: seq<Key>, len: nat, width: nat) returns (n: nat)
    requires Ascending(left) && OneWidth(left, width) && OneWidth(run, width) && len <= width && left != []
    requires CutAfterPrefix(run, left, len)
    ensures 0 < n <= |left| && len <= |left[0]|
    ensures SharePrefix(left[..n], left[0], len)
    ensures left[..n] == MatchingKeys(run, left[0][..len]) && CutAfterPrefix(run, left[n..], len)
  {
    hide Below, Matches, PrefixOrder, SharePrefix, MatchingKeys, CutAfterPrefix;
    var prefix := left[0][..len];
    LeadingBlock(left, prefix, width);
    n := PartitionPoint(left, prefix, Equal);
    LeadingGroup(left, n, len, width);
    TakesWhole(run, left, n, len, width);
  }

  lemma FirstHasWidth(keys: seq<Key>, width: nat)
    requires OneWidth(keys, width) && keys != []
    ensures |keys[0]| == width
  {
  }

  lemma AscendingRest(keys: seq<Key>, n: nat, width: nat)
    requires Ascending(keys) && OneWidth(keys, width) && n <= |keys|
    ensures Ascending(keys[n..]) && OneWidth(keys[n..], width)
  {
    hide Below;
  }

  lemma NoPositions(n: nat)
    ensures Positions(Range(0, 0), n) == []
  {
  }

  lemma NoHeads(keys: seq<Key>, chains: Option<seq<nat>>)
    requires HeadsOk(|keys|, chains, [])
    ensures HeadKeys(keys, chains, []) == multiset{}
  {
  }

  lemma GroupNonempty(group: seq<Key>, first: Key, len: nat)
    requires SharePrefix(group, first, len)
    ensures group != []
  {
  }

  /** The keys that share the first key's prefix come first. */
  lemma LeadingBlock(keys: seq<Key>, prefix: Key, width: nat)
    requires Ascending(keys) && OneWidth(keys, width) && keys != []
    requires |prefix| <= width && prefix == keys[0][..|prefix|]
    ensures PrefixOrder(keys[0], prefix) == Equal
    ensures forall i, j :: 0 <= i < j < |keys| && PrefixOrder(keys[j], prefix) == Equal ==>
      PrefixOrder(keys[i], prefix) == Equal
  {
    hide Below, PrefixOrder, Matches;
    MatchesIsStartsWith(keys[0], prefix);
    PrefixOrderEqual(keys[0], prefix);
    forall i, j | 0 <= i < j < |keys| && PrefixOrder(keys[j], prefix) == Equal
      ensures PrefixOrder(keys[i], prefix) == Equal
    {
      PrefixOrderMonotone(keys[0], keys[i], prefix);
      PrefixOrderMonotone(keys[i], keys[j], prefix);
    }
  }

  lemma LeadingGroup(keys: seq<Key>, n: nat, len: nat, width: nat)
    requires OneWidth(keys, width) && 0 < n <= |keys| && len <= width
    requires forall i :: 0 <= i < n ==> PrefixOrder(keys[i], keys[0][..len]) == Equal
    ensures SharePrefix(keys[..n], keys[0], len)
  {
    hide PrefixOrder, Matches;
    var prefix := keys[0][..len];
    forall i | 0 <= i < n
      ensures keys[i][..len] == prefix
    {
      PrefixOrderEqual(keys[i], prefix);
      MatchesIsStartsWith(keys[i], prefix);
    }
  }

  lemma FirstWords(key: Key, prefix: Key)
    requires |prefix| <= |key|
    ensures PrefixOrder(key, prefix) == Equal <==> key[..|prefix|] == prefix
  {
    hide PrefixOrder, Matches;
    PrefixOrderEqual(key, prefix);
    MatchesIsStartsWith(key, prefix);
  }

  /** The leading block of what is left is all of its prefix in the run, and cuts after that prefix. */
  lemma TakesWhole(run: seq<Key>, left: seq<Key>, n: nat, len: nat, width: nat)
    requires OneWidth(run, width) && len <= width && CutAfterPrefix(run, left, len)
    requires 0 < n <= |left| && len <= |left[0]|
    requires forall i :: 0 <= i < |left| ==> (PrefixOrder(left[i], left[0][..len]) == Equal <==> i < n)
    ensures left[..n] == MatchingKeys(run, left[0][..len])
    ensures CutAfterPrefix(run, left[n..], len)
  {
    hide PrefixOrder, MatchingKeys;
    var start, prefix := |run| - |left|, left[0][..len];
    forall i | 0 <= i < |run|
      ensures PrefixOrder(run[i], prefix) == Equal <==> start <= i < start + n
      ensures run[i][..len] == prefix <==> start <= i < start + n
    {
      FirstWords(run[i], prefix);
      if i < start {
        assert !SameWords(run[i], run[start], len);
      } else {
        assert run[i] == left[i - start];
      }
    }
    RangeIsMatching(run, prefix, start, start + n);
    assert left[..n] == run[start..start + n];
  }

  lemma FlatStep(runs: seq<seq<Key>>, i: nat)
    requires i < |runs|
    ensures Flatten(runs[i..]) == runs[i] + Flatten(runs[i + 1..])
    ensures multiset(Flatten(runs[i..])) == multiset(runs[i]) + multiset(Flatten(runs[i + 1..]))
  {
    assert runs[i..][1..] == runs[i + 1..];
  }

  lemma NothingFlat()
    ensures Flatten<Key>([]) == []
  {
  }

  // ------------------------------------------------------------------------
  // Opening the iterator
  // ------------------------------------------------------------------------

  /** A chain from its head yields its prefix's keys, which all start with the prefix. */
  lemma ChainGroup(c: PrefixChains, keys: seq<Key>, p: Key)
    requires ChainsOk(c, keys) && p in c.heads && LongEnough(keys, c.len)
    ensures var group := GroupAt(keys, Some(c.next), c.heads[p]);
      && multiset(group) == multiset(MatchingKeys(keys, p))
      && SharePrefix(group, keys[c.heads[p]], c.len)
      && keys[c.heads[p]][..c.len] == p
  {
    hide MatchingKeys, ChainFrom, Descending, ChainsOk;
    HeadInRange(c, keys, p);
    ChainOf(c, keys, p);
    DescendingInRange(keys, p, |keys|);
    ChainKeysMatch(keys, p, |keys|);
    assert keys[..|keys|] == keys;
    DescendingStarts(keys, p, |keys|);
    ChainStarts(c.next, c.heads[p]);
  }

  lemma HeadInRange(c: PrefixChains, keys: seq<Key>, p: Key)
    requires ChainsOk(c, keys) && p in c.heads
    ensures |p| == c.len && c.heads[p] < |keys| == |c.next| <= NO_ENTRY && LinksDown(c.next)
    ensures HeadOf(c, p) == c.heads[p]
  {
    hide ChainFrom, Descending;
  }

  lemma ChainStarts(next: seq<nat>, at: nat)
    requires Linkable(next, at) && at != NO_ENTRY
    ensures ChainFrom(next, at) != [] && ChainFrom(next, at)[0] == at
  {
  }

  lemma {:induction false} DescendingStarts(keys: seq<Key>, p: Key, n: nat)
    requires n <= |keys|
    ensures forall i :: 0 <= i < |Descending(keys, p, n)| ==>
      Descending(keys, p, n)[i] < n && p <= keys[Descending(keys, p, n)[i]]
  {
    if n > 0 {
      DescendingStarts(keys, p, n - 1);
    }
  }

  /** The groups of all chain heads together are all keys. */
  lemma {:induction false} HeadsMatch(c: PrefixChains, keys: seq<Key>, heads: seq<nat>, prefixes: seq<Key>)
    requires ChainsOk(c, keys) && LongEnough(keys, c.len) && HeadsOk(|keys|, Some(c.next), heads)
    requires |heads| == |prefixes|
    requires forall i :: 0 <= i < |heads| ==> prefixes[i] in c.heads && heads[i] == c.heads[prefixes[i]]
    ensures HeadKeys(keys, Some(c.next), heads) == MatchesOf(keys, prefixes)
  {
    hide MatchingKeys, ChainsOk, GroupAt, SharePrefix;
    if heads != [] {
      ChainGroup(c, keys, prefixes[0]);
      HeadsMatch(c, keys, heads[1..], prefixes[1..]);
    }
  }

  /** Every key's prefix heads a chain. */
  lemma PrefixHasHead(c: PrefixChains, keys: seq<Key>, i: nat)
    requires ChainsOk(c, keys) && i < |keys| && c.len <= |keys[i]|
    ensures keys[i][..c.len] in c.heads
  {
    hide ChainsOk, Descending, ChainFrom;
    var p := keys[i][..c.len];
    ChainOf(c, keys, p);
    DescendingFinds(keys, p, |keys|, i);
    if p !in c.heads {
      NoChain(c.next);
    }
  }

  lemma NoChain(next: seq<nat>)
    requires Linkable(next, NO_ENTRY)
    ensures ChainFrom(next, NO_ENTRY) == []
  {
  }

  lemma {:induction false} DescendingFinds(keys: seq<Key>, p: Key, n: nat, i: nat)
    requires i < n <= |keys| && p <= keys[i]
    ensures i in Descending(keys, p, n)
  {
    if i < n - 1 {
      DescendingFinds(keys, p, n - 1, i);
    }
  }

  /** The positions `lo` up to `n`. */
  function UpFrom(lo: nat, n: nat): (r: seq<nat>)
    requires lo <= n
    ensures |r| == n - lo && forall i :: 0 <= i < |r| ==> r[i] == lo + i
    decreases n - lo
  {
    if lo == n then [] else [lo] + UpFrom(lo + 1, n)
  }

  /** Without chains, each position is a group of its own. */
  lemma {:induction false} SinglesMatch(keys: seq<Key>, lo: nat)
    requires lo <= |keys| <= NO_ENTRY
    ensures HeadsOk(|keys|, None, UpFrom(lo, |keys|))
    ensures HeadKeys(keys, None, UpFrom(lo, |keys|)) == multiset(keys[lo..])
    decreases |keys| - lo
  {
    hide GroupAt;
    if lo < |keys| {
      SinglesMatch(keys, lo + 1);
      assert UpFrom(lo, |keys|)[1..] == UpFrom(lo + 1, |keys|);
      SingleGroup(keys, lo);
      assert keys[lo..] == [keys[lo]] + keys[lo + 1..];
    } else {
      assert keys[lo..] == [];
    }
  }

  lemma SingleGroup(keys: seq<Key>, i: nat)
    requires i < |keys| <= NO_ENTRY
    ensures GroupAt(keys, None, i) == [keys[i]]
  {
    assert Positions(Range(i, i + 1), |keys|) == [i];
  }

  /** `prefix_groups`: an iterator whose groups partition every key occurrence of the map. */
  method GroupsOf<V(==, !new)>(m: LsmMap<V>, prefixLen: nat) returns (groups: PrefixGroups<V>)
    requires m.Valid() && prefixLen <= m.ps.width
    ensures fresh(groups) && groups.Valid() && groups.prefixLen == prefixLen
    ensures groups.chains.Some? <==> prefixLen in m.prefixLens
    ensures groups.Left() == multiset(KeysOf(m.memtable.Entries())) + multiset(Flatten(RunKeys(Flatten(m.levels))))
  {
    hide Memtable.Valid, Memtable.Entries, Bag, LevelsBag, RunsBag, LevelsOk, Flatten, KeysOf, HeadKeys;
    hide GroupShares, ChainsOk, RunKeys;
    var memtable := m.memtable;
    var heads, chains := BufferHeads(memtable, prefixLen);
    var runs := m.AllRuns();
    RunKeysOk(m.ps, runs);
    memtable.Length();
    groups := new PrefixGroups(memtable, prefixLen, m.ps.width, chains, heads, RunKeys(runs));
  }

  lemma RunKeysOk<V>(ps: Params, runs: seq<Run<V>>)
    requires forall r :: 0 <= r < |runs| ==> ValidRun(ps, runs[r])
    ensures forall r :: 0 <= r < |RunKeys(runs)| ==> Ascending(RunKeys(runs)[r]) && OneWidth(RunKeys(runs)[r], ps.width)
  {
    hide OffsetsClimb, FiltersCover, Below;
  }

  /** The chain heads for the prefix length, or every position if the buffer keeps no such chains. */
  method BufferHeads<V>(memtable: Memtable<V>, prefixLen: nat) returns (heads: seq<nat>, chains: Option<seq<nat>>)
    requires memtable.Valid() && prefixLen <= memtable.ps.width
    ensures |KeysOf(memtable.Entries())| == memtable.len && HeadsOk(memtable.len, chains, heads)
    ensures chains.Some? <==> prefixLen in LengthsOf(memtable.prefixes)
    ensures HeadKeys(KeysOf(memtable.Entries()), chains, heads) == multiset(KeysOf(memtable.Entries()))
    ensures forall i :: 0 <= i < |heads| ==> GroupShares(KeysOf(memtable.Entries()), chains, heads[i], prefixLen)
  {
    hide Memtable.Valid, Memtable.Entries, KeysOf, HeadKeys, ChainsOk, GroupAt, MatchesOf, SharePrefix, MatchingKeys;
    ghost var keys := KeysOf(memtable.Entries());
    memtable.Length();
    memtable.KeyWidths();
    var found := memtable.FindChains(prefixLen);
    if found.Some? {
      var c := found.value;
      ghost var prefixes: seq<Key>;
      heads, prefixes := ListHeads(c, keys);
      chains := Some(c.next);
      HeadsOfChains(c, keys, heads, prefixes);
    } else {
      heads := UpFrom(0, memtable.len);
      chains := None;
      SinglesMatch(keys, 0);
      assert keys[0..] == keys;
      forall i | 0 <= i < |heads|
        ensures GroupShares(keys, chains, heads[i], prefixLen)
      {
        SingleGroup(keys, heads[i]);
        SingleShares(keys[heads[i]], prefixLen);
      }
    }
  }

  lemma SingleShares(key: Key, len: nat)
    requires len <= |key|
    ensures SharePrefix([key], key, len)
  {
  }

  lemma HeadsOfChains(c: PrefixChains, keys: seq<Key>, heads: seq<nat>, prefixes: seq<Key>)
    requires ChainsOk(c, keys) && LongEnough(keys, c.len)
    requires |heads| == |prefixes| && Listing(prefixes, c.len)
    requires forall i :: 0 <= i < |heads| ==> prefixes[i] in c.heads && heads[i] == c.heads[prefixes[i]]
    requires forall p :: p in c.heads ==> p in prefixes
    ensures HeadsOk(|keys|, Some(c.next), heads)
    ensures HeadKeys(keys, Some(c.next), heads) == multiset(keys)
    ensures forall i :: 0 <= i < |heads| ==> GroupShares(keys, Some(c.next), heads[i], c.len)
  {
    hide ChainsOk, GroupAt, MatchesOf, HeadKeys, SharePrefix, MatchingKeys;
    ChainShape(c, keys);
    forall i | 0 <= i < |heads|
      ensures heads[i] < |keys| && GroupShares(keys, Some(c.next), heads[i], c.len)
    {
      HeadInRange(c, keys, prefixes[i]);
      ChainGroup(c, keys, prefixes[i]);
    }
    HeadsMatch(c, keys, heads, prefixes);
    forall i | 0 <= i < |keys|
      ensures c.len <= |keys[i]| && keys[i][..c.len] in prefixes
    {
      PrefixHasHead(c, keys, i);
    }
    PrefixesPartition(keys, prefixes, c.len);
  }

  lemma ChainShape(c: PrefixChains, keys: seq<Key>)
    requires ChainsOk(c, keys)
    ensures |c.next| == |keys| <= NO_ENTRY && LinksDown(c.next)
  {
    hide ChainFrom, Descending;
  }
}
