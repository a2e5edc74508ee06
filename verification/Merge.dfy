/** The k-way merge: the distinct keys of several ascending lists, each with the places that hold it. */
module Merge {
  import opened Wrappers
  import opened Keys
  import opened Entries

  /** One visit of the merge: a key and its `(list, index)` places, in list order. */
  datatype Visit = Visit(key: Key, holders: seq<(nat, nat)>)

  ghost predicate AllAscending(lists: seq<seq<Key>>) {
    forall r :: 0 <= r < |lists| ==> Ascending(lists[r])
  }

  ghost function IndexOf(keys: seq<Key>, k: Key): nat
    requires k in keys
  {
    var i :| 0 <= i < |keys| && keys[i] == k;
    i
  }

  /** The places of `k` in the first `n` lists, in list order. */
  ghost function Holders(lists: seq<seq<Key>>, k: Key, n: nat): seq<(nat, nat)>
    requires n <= |lists|
  {
    if n == 0 then []
    else Holders(lists, k, n - 1) + (if k in lists[n - 1] then [(n - 1, IndexOf(lists[n - 1], k))] else [])
  }

  /** What `merge_keys` promises: every key once, in strictly ascending order, with all its places. */
  ghost predicate MergeOf(lists: seq<seq<Key>>, visits: seq<Visit>) {
    && AscendingVisits(visits)
    && ExactHolders(lists, visits)
    && (forall r, i :: 0 <= r < |lists| && 0 <= i < |lists[r]| ==> Visited(visits, lists[r][i]))
  }

  ghost predicate AscendingVisits(visits: seq<Visit>) {
    forall i, j :: 0 <= i < j < |visits| ==> Below(visits[i].key, visits[j].key)
  }

  ghost predicate ExactHolders(lists: seq<seq<Key>>, visits: seq<Visit>) {
    forall i :: 0 <= i < |visits| ==>
      visits[i].holders == Holders(lists, visits[i].key, |lists|) && visits[i].holders != []
  }

  ghost predicate Visited(visits: seq<Visit>, k: Key) {
    exists j :: 0 <= j < |visits| && visits[j].key == k
  }

  ghost predicate InBounds(lists: seq<seq<Key>>, cursors: seq<nat>) {
    |cursors| == |lists| && forall r :: 0 <= r < |lists| ==> cursors[r] <= |lists[r]|
  }

  /** The list has a key at its cursor, and it is `k`. */
  predicate HeadIs(keys: seq<Key>, cursor: nat, k: Key) {
    cursor < |keys| && keys[cursor] == k
  }

  /** The cursors separate the keys visited so far from those yet to come. */
  ghost predicate Cut(lists: seq<seq<Key>>, cursors: seq<nat>, visits: seq<Visit>) {
    && InBounds(lists, cursors)
    && (forall r, i :: 0 <= r < |lists| && 0 <= i < cursors[r] ==> Visited(visits, lists[r][i]))
    && (forall j, r, i :: 0 <= j < |visits| && 0 <= r < |lists| && cursors[r] <= i < |lists[r]| ==>
          Below(visits[j].key, lists[r][i]))
  }

  /** No list has a smaller key at its cursor than `min`, and one has `min`. */
  ghost predicate IsMinHead(lists: seq<seq<Key>>, cursors: seq<nat>, min: Key)
    requires InBounds(lists, cursors)
  {
    && (exists r :: 0 <= r < |lists| && HeadIs(lists[r], cursors[r], min))
    && (forall r :: 0 <= r < |lists| && cursors[r] < |lists[r]| ==> AtMost(min, lists[r][cursors[r]]))
  }

  method MinHead(lists: seq<seq<Key>>, cursors: seq<nat>) returns (min: Option<Key>)
    requires InBounds(lists, cursors)
    ensures min.None? ==> forall r :: 0 <= r < |lists| ==> cursors[r] == |lists[r]|
    ensures min.Some? ==> IsMinHead(lists, cursors, min.value)
  {
    hide Below;
    min := None;
    for r := 0 to |lists|
      invariant min.None? ==> forall q :: 0 <= q < r ==> cursors[q] == |lists[q]|
      invariant min.Some? ==> exists q :: 0 <= q < r && HeadIs(lists[q], cursors[q], min.value)
      invariant min.Some? ==>
        forall q :: 0 <= q < r && cursors[q] < |lists[q]| ==> AtMost(min.value, lists[q][cursors[q]])
    {
      if cursors[r] < |lists[r]| {
        var key := lists[r][cursors[r]];
        if min.None? {
          min := Some(key);
        } else {
          BelowTotal(key, min.value);
          if Below(key, min.value) {
            forall q | 0 <= q < r && cursors[q] < |lists[q]|
              ensures AtMost(key, lists[q][cursors[q]])
            {
              BelowTransitive(key, min.value, lists[q][cursors[q]]);
            }
            min := Some(key);
          }
        }
        assert HeadIs(lists[r], cursors[r], key);
      }
    }
  }

  /** Collects the lists whose head is `min`, and moves each of them past it. */
  method TakeHolders(lists: seq<seq<Key>>, cursors: seq<nat>, min: Key)
    returns (holders: seq<(nat, nat)>, after: seq<nat>)
    requires AllAscending(lists) && InBounds(lists, cursors) && IsMinHead(lists, cursors, min)
    requires forall r, i :: 0 <= r < |lists| && 0 <= i < cursors[r] ==> Below(lists[r][i], min)
    ensures |after| == |cursors|
    ensures forall r :: 0 <= r < |lists| ==>
      after[r] == if HeadIs(lists[r], cursors[r], min) then cursors[r] + 1 else cursors[r]
    ensures holders == Holders(lists, min, |lists|) && holders != []
  {
    hide Below, IndexOf;
    holders, after := [], cursors;
    ghost var w :| 0 <= w < |lists| && HeadIs(lists[w], cursors[w], min);
    for r := 0 to |lists|
      invariant |after| == |cursors|
      invariant forall q :: r <= q < |lists| ==> after[q] == cursors[q]
      invariant forall q :: 0 <= q < r ==>
        after[q] == if HeadIs(lists[q], cursors[q], min) then cursors[q] + 1 else cursors[q]
      invariant holders == Holders(lists, min, r)
      invariant w < r ==> holders != []
    {
      HeadOrAbsent(lists[r], cursors[r], min);
      if after[r] < |lists[r]| && lists[r][after[r]] == min {
        holders := holders + [(r, after[r])];
        after := after[r := after[r] + 1];
      }
    }
  }

  /** A key that no later head undercuts is at the cursor or nowhere. */
  lemma HeadOrAbsent(keys: seq<Key>, cursor: nat, min: Key)
    requires Ascending(keys) && cursor <= |keys|
    requires forall i :: 0 <= i < cursor ==> Below(keys[i], min)
    requires cursor < |keys| ==> AtMost(min, keys[cursor])
    ensures min in keys <==> HeadIs(keys, cursor, min)
    ensures min in keys ==> IndexOf(keys, min) == cursor
  {
    hide Below;
    forall i | 0 <= i < |keys| && keys[i] == min
      ensures i == cursor
    {
      BelowTotal(min, min);
      if i > cursor {
        BelowTotal(keys[cursor], keys[i]);
      }
    }
  }

  lemma CutAdvances(lists: seq<seq<Key>>, cursors: seq<nat>, after: seq<nat>, visits: seq<Visit>, v: Visit)
    requires AllAscending(lists) && Cut(lists, cursors, visits) && IsMinHead(lists, cursors, v.key)
    requires |after| == |cursors|
    requires forall r :: 0 <= r < |lists| ==>
      after[r] == if HeadIs(lists[r], cursors[r], v.key) then cursors[r] + 1 else cursors[r]
    ensures Cut(lists, after, visits + [v])
    ensures forall j :: 0 <= j < |visits| ==> Below(visits[j].key, v.key)
  {
    hide Below;
    var more := visits + [v];
    forall r, i | 0 <= r < |lists| && 0 <= i < after[r]
      ensures Visited(more, lists[r][i])
    {
      if i < cursors[r] {
        assert Visited(visits, lists[r][i]);
        var j :| 0 <= j < |visits| && visits[j].key == lists[r][i];
        assert more[j].key == lists[r][i];
      } else {
        assert more[|visits|].key == lists[r][i];
      }
    }
    forall r, i | 0 <= r < |lists| && after[r] <= i < |lists[r]|
      ensures Below(v.key, lists[r][i])
    {
      BelowTransitive(v.key, lists[r][cursors[r]], lists[r][i]);
    }
  }

  /** How many keys lie at or past the cursors. */
  ghost function Remaining(lists: seq<seq<Key>>, cursors: seq<nat>): nat
    requires InBounds(lists, cursors)
  {
    if lists == [] then 0
    else |lists[0]| - cursors[0] + Remaining(lists[1..], cursors[1..])
  }

  lemma {:induction false} RemainingDrops(lists: seq<seq<Key>>, cursors: seq<nat>, after: seq<nat>)
    requires InBounds(lists, cursors) && InBounds(lists, after)
    requires forall r :: 0 <= r < |lists| ==> cursors[r] <= after[r]
    ensures Remaining(lists, after) <= Remaining(lists, cursors)
    ensures (exists r :: 0 <= r < |lists| && cursors[r] < after[r]) ==>
      Remaining(lists, after) < Remaining(lists, cursors)
  {
    if lists != [] {
      RemainingDrops(lists[1..], cursors[1..], after[1..]);
      if r :| 0 < r < |lists| && cursors[r] < after[r] {
        assert cursors[1..][r - 1] < after[1..][r - 1];
      }
    }
  }

  /** `merge_keys`: repeatedly takes the smallest key at any cursor, with every list that holds it. */
  method MergeKeys(lists: seq<seq<Key>>) returns (visits: seq<Visit>)
    requires AllAscending(lists)
    ensures MergeOf(lists, visits)
  {
    hide Below, Holders, AllAscending, AtMost, Visited;
    var cursors := seq(|lists|, _ => 0);
    visits := [];
    while true
      invariant Cut(lists, cursors, visits)
      invariant AscendingVisits(visits) && ExactHolders(lists, visits)
      decreases Remaining(lists, cursors)
    {
      var min := MinHead(lists, cursors);
      if min.None? {
        return;
      }
      VisitedBelow(lists, cursors, visits, min.value);
      var holders, after := TakeHolders(lists, cursors, min.value);
      ghost var w :| 0 <= w < |lists| && HeadIs(lists[w], cursors[w], min.value);
      assert after[w] == cursors[w] + 1;
      RemainingDrops(lists, cursors, after);
      CutAdvances(lists, cursors, after, visits, Visit(min.value, holders));
      visits := visits + [Visit(min.value, holders)];
      cursors := after;
    }
  }

  lemma VisitedBelow(lists: seq<seq<Key>>, cursors: seq<nat>, visits: seq<Visit>, min: Key)
    requires Cut(lists, cursors, visits) && IsMinHead(lists, cursors, min)
    ensures forall r, i :: 0 <= r < |lists| && 0 <= i < cursors[r] ==> Below(lists[r][i], min)
  {
  }

  // ------------------------------------------------------------------------
  // Merged entries
  // ------------------------------------------------------------------------

  function KeyLists<V>(sources: seq<seq<Entry<V>>>): (lists: seq<seq<Key>>)
    ensures |lists| == |sources|
    ensures forall r :: 0 <= r < |sources| ==> lists[r] == KeysOf(sources[r])
  {
    seq(|sources|, r requires 0 <= r < |sources| => KeysOf(sources[r]))
  }

  /** Every place is an entry of its source. */
  ghost predicate Places<V>(sources: seq<seq<Entry<V>>>, holders: seq<(nat, nat)>) {
    forall h :: 0 <= h < |holders| ==> holders[h].0 < |sources| && holders[h].1 < |sources[holders[h].0]|
  }

  /** The values at the given places, one after the other. */
  ghost function HeldValues<V>(sources: seq<seq<Entry<V>>>, holders: seq<(nat, nat)>): seq<V>
    requires Places(sources, holders)
  {
    if holders == [] then []
    else
      var (r, i) := holders[|holders| - 1];
      HeldValues(sources, holders[..|holders| - 1]) + sources[r][i].vals
  }

  ghost predicate SortedSources<V>(sources: seq<seq<Entry<V>>>) {
    forall r :: 0 <= r < |sources| ==> Sorted(sources[r]) && Inhabited(sources[r])
  }

  lemma SourcesAscend<V>(sources: seq<seq<Entry<V>>>)
    requires SortedSources(sources)
    ensures AllAscending(KeyLists(sources))
  {
  }

  lemma {:induction false} GatherSnoc<V>(a: seq<seq<Entry<V>>>, b: seq<Entry<V>>, k: Key)
    ensures Gather(a + [b], k) == Gather(a, k) + ValuesAt(b, k)
  {
    if a == [] {
      assert a + [b] == [b] && [b][1..] == [];
    } else {
      assert (a + [b])[1..] == a[1..] + [b];
      GatherSnoc(a[1..], b, k);
    }
  }

  lemma HeldSnoc<V>(sources: seq<seq<Entry<V>>>, holders: seq<(nat, nat)>, h: (nat, nat))
    requires Places(sources, holders) && h.0 < |sources| && h.1 < |sources[h.0]|
    ensures Places(sources, holders + [h])
    ensures HeldValues(sources, holders + [h]) == HeldValues(sources, holders) + sources[h.0][h.1].vals
  {
    assert (holders + [h])[..|holders|] == holders;
  }

  lemma IndexOfFinds(keys: seq<Key>, k: Key)
    requires k in keys
    ensures IndexOf(keys, k) < |keys| && keys[IndexOf(keys, k)] == k
  {
  }

  lemma SourceSorted<V>(sources: seq<seq<Entry<V>>>, r: nat)
    requires SortedSources(sources) && r < |sources|
    ensures Sorted(sources[r]) && Inhabited(sources[r])
  {
    hide Sorted, Inhabited;
  }

  /** One more source adds its own values of the key. */
  lemma HeldStep<V>(sources: seq<seq<Entry<V>>>, k: Key, n: nat, before: seq<(nat, nat)>)
    requires n < |sources| && Sorted(sources[n]) && Inhabited(sources[n]) && Places(sources, before)
    ensures var keys := KeysOf(sources[n]);
      var now := before + (if k in keys then [(n, IndexOf(keys, k))] else []);
      && Places(sources, now)
      && HeldValues(sources, now) == HeldValues(sources, before) + ValuesAt(sources[n], k)
      && (k in keys ==> ValuesAt(sources[n], k) != [])
  {
    hide Below, Sorted, ValuesAt, HeldValues, IndexOf, Places;
    var es := sources[n];
    var keys := KeysOf(es);
    SortedDistinct(es);
    ValuesAtPresent(es, k);
    if k in keys {
      IndexOfFinds(keys, k);
      var i := IndexOf(keys, k);
      assert es[i].key == k;
      ValuesAtIndex(es, i);
      HeldSnoc(sources, before, (n, i));
    } else {
      assert before + [] == before;
    }
  }

  lemma HoldersUnfold(lists: seq<seq<Key>>, k: Key, n: nat)
    requires 0 < n <= |lists|
    ensures var keys := lists[n - 1];
      Holders(lists, k, n) == Holders(lists, k, n - 1) + (if k in keys then [(n - 1, IndexOf(keys, k))] else [])
  {
    hide IndexOf;
  }

  /** The values at a key's places are its values in every source, in source order. */
  lemma {:induction false} HoldersGather<V>(sources: seq<seq<Entry<V>>>, k: Key, n: nat)
    requires SortedSources(sources) && n <= |sources|
    ensures Places(sources, Holders(KeyLists(sources), k, n))
    ensures HeldValues(sources, Holders(KeyLists(sources), k, n)) == Gather(sources[..n], k)
    ensures Holders(KeyLists(sources), k, n) != [] ==> Gather(sources[..n], k) != []
    decreases n, 1
  {
    if n == 0 {
      assert sources[..0] == [];
    } else {
      HoldersGatherStep(sources, k, n);
    }
  }

  lemma {:induction false} HoldersGatherStep<V>(sources: seq<seq<Entry<V>>>, k: Key, n: nat)
    requires SortedSources(sources) && 0 < n <= |sources|
    ensures Places(sources, Holders(KeyLists(sources), k, n))
    ensures HeldValues(sources, Holders(KeyLists(sources), k, n)) == Gather(sources[..n], k)
    ensures Holders(KeyLists(sources), k, n) != [] ==> Gather(sources[..n], k) != []
    decreases n, 0
  {
    hide *;
    HoldersGather(sources, k, n - 1);
    HoldersUnfold(KeyLists(sources), k, n);
    SourceSorted(sources, n - 1);
    HeldStep(sources, k, n - 1, Holders(KeyLists(sources), k, n - 1));
    assert sources[..n] == sources[..n - 1] + [sources[n - 1]];
    GatherSnoc(sources[..n - 1], sources[n - 1], k);
  }

  /** What the merge of entries must be: sorted, and key by key what the sources hold in order. */
  ghost predicate MergedEntries<V>(sources: seq<seq<Entry<V>>>, es: seq<Entry<V>>) {
    && Sorted(es) && Inhabited(es)
    && (forall k: Key :: ValuesAt(es, k) == Gather(sources, k))
  }

  ghost function VisitEntries<V>(sources: seq<seq<Entry<V>>>, visits: seq<Visit>): seq<Entry<V>>
    requires forall j :: 0 <= j < |visits| ==> Places(sources, visits[j].holders)
  {
    seq(|visits|, j requires 0 <= j < |visits| => Entry(visits[j].key, HeldValues(sources, visits[j].holders)))
  }

  lemma VisitsArePlaces<V>(sources: seq<seq<Entry<V>>>, visits: seq<Visit>)
    requires SortedSources(sources) && MergeOf(KeyLists(sources), visits)
    ensures forall j :: 0 <= j < |visits| ==> Places(sources, visits[j].holders)
    ensures forall j :: 0 <= j < |visits| ==>
      HeldValues(sources, visits[j].holders) == Gather(sources, visits[j].key) != []
  {
    hide Below, Holders, SortedSources, Gather, HeldValues, Places;
    forall j | 0 <= j < |visits|
      ensures Places(sources, visits[j].holders)
      ensures HeldValues(sources, visits[j].holders) == Gather(sources, visits[j].key) != []
    {
      HoldersGather(sources, visits[j].key, |sources|);
      assert sources[..|sources|] == sources;
    }
  }

  lemma {:induction false} GatherAbsent<V>(sources: seq<seq<Entry<V>>>, k: Key)
    requires forall r, i :: 0 <= r < |sources| && 0 <= i < |sources[r]| ==> sources[r][i].key != k
    ensures Gather(sources, k) == []
  {
    if sources != [] {
      ValuesAtAbsent(sources[0], k);
      GatherAbsent(sources[1..], k);
    }
  }

  /** The merge visits make merged entries. */
  lemma VisitsMerge<V>(sources: seq<seq<Entry<V>>>, visits: seq<Visit>)
    requires SortedSources(sources) && MergeOf(KeyLists(sources), visits)
    requires forall j :: 0 <= j < |visits| ==> Places(sources, visits[j].holders)
    ensures MergedEntries(sources, VisitEntries(sources, visits))
  {
    hide Below, Holders, SortedSources, HeldValues, Gather, ValuesAt, Places;
    var es := VisitEntries(sources, visits);
    VisitsArePlaces(sources, visits);
    SortedDistinct(es);
    forall k: Key
      ensures ValuesAt(es, k) == Gather(sources, k)
    {
      if j :| 0 <= j < |es| && es[j].key == k {
        ValuesAtIndex(es, j);
      } else {
        ValuesAtAbsent(es, k);
        forall r, i | 0 <= r < |sources| && 0 <= i < |sources[r]|
          ensures sources[r][i].key != k
        {
          assert KeyLists(sources)[r][i] == sources[r][i].key;
          assert Visited(visits, KeyLists(sources)[r][i]);
          var j :| 0 <= j < |visits| && visits[j].key == KeyLists(sources)[r][i];
          assert es[j].key == sources[r][i].key;
        }
        GatherAbsent(sources, k);
      }
    }
  }

  /** A merge keeps every pair. */
  lemma MergeKeepsBag<V>(sources: seq<seq<Entry<V>>>, es: seq<Entry<V>>)
    requires SortedSources(sources) && MergedEntries(sources, es)
    ensures Bag(es) == BagAll(sources)
  {
    hide Below, Bag, BagAll, ValuesAt, Gather, Sorted;
    SortedDistinct(es);
    forall r | 0 <= r < |sources|
      ensures DistinctKeys(sources[r])
    {
      SortedDistinct(sources[r]);
    }
    SameValuesSameBag(es, sources);
  }
}
