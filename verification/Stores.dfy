/**
 A relation's rows in one set, and the indices read out of it: the full index, an index on the
 first columns, and the scan of everything; and an index on other columns, with a map of its own.
 */
module Stores {
  import opened Wrappers
  import opened Keys
  import opened Entries
  import opened Runs
  import opened Levels
  import opened Memtables
  import opened MemoryPools
  import opened KeyIterators
  import opened Reads
  import opened LsmMaps
  import opened PrefixGrouping
  import opened Listings
  import opened Tuples
  import opened Representation
  import opened KeyOccurrences

  // ------------------------------------------------------------------------
  // Rows, keys and tails
  // ------------------------------------------------------------------------

  ghost function KeysOfRows<C>(cols: seq<Column<C>>, rows: set<seq<C>>): set<Key> {
    set t | t in rows && |t| == |cols| :: Encode(cols, t)
  }

  /** The rows whose first columns are the given ones. */
  ghost function Starting<C>(rows: set<seq<C>>, key: seq<C>): set<seq<C>> {
    set t | t in rows && key <= t
  }

  /** The key is the row's. */
  ghost predicate IsKeyOf<C>(cols: seq<Column<C>>, t: seq<C>, k: Key) {
    |t| == |cols| && k == Encode(cols, t)
  }

  /** What follows the first `k` columns. */
  ghost function Tails<C>(rows: set<seq<C>>, k: nat): set<seq<C>> {
    set t | t in rows && k <= |t| :: t[k..]
  }

  ghost predicate AllTyped<C>(cols: seq<Column<C>>, rows: set<seq<C>>) {
    forall t :: t in rows ==> Typed(cols, t)
  }

  lemma RowsTyped<C>(cols: seq<Column<C>>, layout: Layout, pairs: multiset<(Key, Blob)>, rows: set<seq<C>>)
    requires LayoutOk(layout, |cols|) && Represents(cols, layout, pairs, multiset(rows))
    ensures AllTyped(cols, rows)
  {
  }

  lemma StoredIsSetLike<C>(cols: seq<Column<C>>, pairs: multiset<(Key, Blob)>, rows: set<seq<C>>)
    requires Represents(cols, Stored, pairs, multiset(rows))
    ensures SetLike(pairs)
  {
  }

  lemma StoredKey<C(!new)>(cols: seq<Column<C>>, pairs: multiset<(Key, Blob)>, rows: set<seq<C>>, k: Key)
    requires Represents(cols, Stored, pairs, multiset(rows))
    ensures pairs[(k, [])] == if k in KeysOfRows(cols, rows) then 1 else 0
  {
    hide Encode, Typed;
    if (k, []) in pairs {
      assert HasRow(cols, Stored, multiset(rows), (k, []));
    }
    if k in KeysOfRows(cols, rows) {
      var t :| t in rows && |t| == |cols| && Encode(cols, t) == k;
      assert t in multiset(rows) && RowPair(cols, Stored, t) == (k, []);
    }
  }

  /** The key occurrences of a set of rows are the rows' keys, each once. */
  lemma KeysAreRows<C(!new)>(m: LsmMap<Blob>, cols: seq<Column<C>>, rows: set<seq<C>>)
    requires m.Valid() && Represents(cols, Stored, m.Contents(), multiset(rows))
    ensures multiset(AllKeys(m)) == multiset(KeysOfRows(cols, rows))
  {
    hide Represents, LsmMap.Valid, LsmMap.Contents, AllKeys, KeysOfRows, SetLike;
    StoredIsSetLike(cols, m.Contents(), rows);
    forall k: Key
      ensures multiset(AllKeys(m))[k] == multiset(KeysOfRows(cols, rows))[k]
    {
      KeysOnce(m, k);
      StoredKey(cols, m.Contents(), rows, k);
    }
    SameCounts(multiset(AllKeys(m)), multiset(KeysOfRows(cols, rows)));
  }

  /** Those with the words of the first columns are the keys of the rows with these first columns. */
  lemma MatchesAreStarting<C(!new)>(cols: seq<Column<C>>, rows: set<seq<C>>, key: seq<C>, keys: seq<Key>)
    requires Lawful(cols) && AllTyped(cols, rows) && 0 < |key| < |cols| && Typed(cols[..|key|], key)
    requires multiset(keys) == multiset(KeysOfRows(cols, rows))
    ensures multiset(MatchingKeys(keys, Encode(cols[..|key|], key))) == multiset(KeysOfRows(cols, Starting(rows, key)))
  {
    hide MatchingKeys, Encode, Lawful, Matches;
    var prefix := Encode(cols[..|key|], key);
    forall k: Key
      ensures multiset(MatchingKeys(keys, prefix))[k] == multiset(KeysOfRows(cols, Starting(rows, key)))[k]
    {
      CountMatching(keys, prefix, k);
      if k in KeysOfRows(cols, rows) {
        var t :| t in rows && |t| == |cols| && Encode(cols, t) == k;
        PrefixReads(cols, t, |key|, key);
        MatchesIsStartsWith(k, prefix);
        assert Matches(k, prefix) <==> key <= t;
        OneRowOf(cols, rows, key, t);
      } else {
        assert k !in KeysOfRows(cols, Starting(rows, key));
      }
    }
    SameCounts(multiset(MatchingKeys(keys, prefix)), multiset(KeysOfRows(cols, Starting(rows, key))));
  }

  /** A row's key is a key of the rows with given first columns exactly when the row is one of them. */
  lemma OneRowOf<C(!new)>(cols: seq<Column<C>>, rows: set<seq<C>>, key: seq<C>, t: seq<C>)
    requires Lawful(cols) && AllTyped(cols, rows) && t in rows
    ensures |t| == |cols| && (Encode(cols, t) in KeysOfRows(cols, Starting(rows, key)) <==> key <= t)
  {
    hide Encode, Lawful;
    if Encode(cols, t) in KeysOfRows(cols, Starting(rows, key)) {
      var u :| u in Starting(rows, key) && |u| == |cols| && Encode(cols, u) == Encode(cols, t);
      EncodeInjective(cols, t, u);
    }
  }

  lemma RowOf<C>(cols: seq<Column<C>>, rows: set<seq<C>>, k: Key) returns (t: seq<C>)
    requires k in KeysOfRows(cols, rows)
    ensures t in rows && |t| == |cols| && Encode(cols, t) == k
  {
    t :| t in rows && |t| == |cols| && Encode(cols, t) == k;
  }

  /** The tails of a listing of keys are a listing of the rows' remaining columns. */
  lemma TailsListed<C(!new)>(cols: seq<Column<C>>, rows: set<seq<C>>, key: seq<C>, found: seq<Key>, vals: seq<seq<C>>)
    requires Lawful(cols) && AllTyped(cols, rows) && 0 < |key| < |cols| && Typed(cols[..|key|], key)
    requires multiset(found) == multiset(KeysOfRows(cols, Starting(rows, key)))
    requires |vals| == |found|
    requires forall i, t :: 0 <= i < |found| && t in Starting(rows, key) && IsKeyOf(cols, t, found[i]) ==>
      vals[i] == t[|key|..]
    ensures multiset(vals) == multiset(Tails(Starting(rows, key), |key|))
  {
    hide Encode, Lawful;
    var here, k := Starting(rows, key), |key|;
    ListDistinct(found, KeysOfRows(cols, here));
    forall i | 0 <= i < |vals|
      ensures vals[i] in Tails(here, k)
    {
      var t := RowOf(cols, here, found[i]);
      assert vals[i] == t[k..];
    }
    forall i, j | 0 <= i < j < |vals|
      ensures vals[i] != vals[j]
    {
      var t := RowOf(cols, here, found[i]);
      var u := RowOf(cols, here, found[j]);
      assert t == key + t[k..] && u == key + u[k..];
    }
    forall x | x in Tails(here, k)
      ensures x in vals
    {
      var t :| t in here && k <= |t| && t[k..] == x;
      assert Typed(cols, t);
      assert Encode(cols, t) in KeysOfRows(cols, here);
      var i :| 0 <= i < |found| && found[i] == Encode(cols, t);
      assert vals[i] == x;
    }
    ListsSet(vals, Tails(here, k));
  }

  /** A listing of keys, read back, lists the rows. */
  lemma RowsListed<C(!new)>(cols: seq<Column<C>>, rows: set<seq<C>>, found: seq<Key>, ts: seq<seq<C>>)
    requires Lawful(cols) && AllTyped(cols, rows) && multiset(found) == multiset(KeysOfRows(cols, rows))
    requires ReadsBack(cols, rows, found, ts)
    ensures multiset(ts) == multiset(rows)
  {
    hide Encode, Lawful;
    ListDistinct(found, KeysOfRows(cols, rows));
    forall i | 0 <= i < |ts|
      ensures ts[i] in rows
    {
      var t := RowOf(cols, rows, found[i]);
    }
    forall i, j | 0 <= i < j < |ts|
      ensures ts[i] != ts[j]
    {
      var t := RowOf(cols, rows, found[i]);
      var u := RowOf(cols, rows, found[j]);
    }
    forall t | t in rows
      ensures t in ts
    {
      assert Typed(cols, t);
      assert Encode(cols, t) in KeysOfRows(cols, rows);
      var i :| 0 <= i < |found| && found[i] == Encode(cols, t);
    }
    ListsSet(ts, rows);
  }

  // ------------------------------------------------------------------------
  // The store
  // ------------------------------------------------------------------------

  datatype LsmStore<!C(==, !new)> = LsmStore(cols: seq<Column<C>>, tuples: LsmMap<Blob>) {

    /** The map holds exactly these rows, each once. */
    ghost predicate Holds(rows: set<seq<C>>)
      reads tuples, tuples.memtable, tuples.pool
    {
      && tuples.Valid() && cols != [] && Lawful(cols) && tuples.ps.width == WidthOf(cols)
      && Represents(cols, Stored, tuples.Contents(), multiset(rows))
    }

    lemma RowKey(rows: set<seq<C>>, t: seq<C>)
      requires Holds(rows) && Typed(cols, t)
      ensures |Encode(cols, t)| == tuples.ps.width
      ensures HasKeyIn(tuples.Contents(), Encode(cols, t)) <==> t in rows
    {
      hide Encode, Lawful, LsmMap.Valid, LsmMap.Contents, Represents;
      EncodeRoundTrip(cols, t);
      RowCount(cols, Stored, tuples.Contents(), multiset(rows), t);
      StoredIsSetLike(cols, tuples.Contents(), rows);
      if HasKeyIn(tuples.Contents(), Encode(cols, t)) {
        var p :| p in tuples.Contents() && p.0 == Encode(cols, t);
        assert p == RowPair(cols, Stored, t);
      }
      if t in rows {
        assert RowPair(cols, Stored, t) in tuples.Contents();
      }
    }

    /** `len`. */
    method Len(ghost rows: set<seq<C>>) returns (n: nat)
      requires Holds(rows)
      ensures n == |rows|
    {
      hide Encode, Lawful, LevelsOk, LsmMap.Contents, Represents;
      RepresentsSize(cols, Stored, tuples.Contents(), multiset(rows));
      n := tuples.len;
    }

    /** `contains`, which is also the full index's read. */
    method Contains(t: seq<C>, ghost rows: set<seq<C>>) returns (r: bool)
      requires Holds(rows) && Typed(cols, t)
      ensures r <==> t in rows
    {
      hide Encode, Lawful, LsmMap.Valid, LsmMap.Contents, Represents;
      RowKey(rows, t);
      r := tuples.ContainsKey(Encode(cols, t));
    }

    /** `insert_if_not_present`: adds the row unless it is there, and says which. */
    method InsertIfNotPresent(t: seq<C>, ghost rows: set<seq<C>>) returns (r: bool)
      requires Holds(rows) && Typed(cols, t) && tuples.pool.Valid() && tuples.pool.Bounded()
      modifies tuples, tuples.memtable, tuples.pool
      ensures tuples.pool.Valid() && tuples.pool.Bounded()
      ensures r <==> t !in rows
      ensures Holds(rows + {t})
      ensures tuples.Contents() ==
        if r then old(tuples.Contents()) + multiset{(Encode(cols, t), [])} else old(tuples.Contents())
      ensures tuples.pool.shares == old(tuples.pool.shares)[tuples := tuples.memory]
      ensures tuples.memtable == old(tuples.memtable) || fresh(tuples.memtable)
    {
      hide Encode, Lawful, LsmMap.Usable, LsmMap.Contents, Represents, MemoryPool.Valid, MemoryPool.Bounded;
      RowKey(rows, t);
      var arr := Encode(cols, t);
      var found := tuples.ContainsKey(arr);
      if found {
        assert rows + {t} == rows;
        tuples.ShareKnown();
        return false;
      }
      ghost var before := tuples.Contents();
      tuples.Insert(arr, []);
      RepresentsOne(cols, Stored, t);
      RepresentsSum(cols, Stored, before, multiset(rows), multiset{RowPair(cols, Stored, t)}, multiset{t});
      assert multiset(rows) + multiset{t} == multiset(rows + {t});
      return true;
    }

    /**
     `move_index_contents`: takes the other store's map over without a membership check. Afterwards the
     map holds a set of rows, each once, exactly if the two stores shared no row; then it is their union.
     */
    method MoveIn(other: LsmStore<C>, ghost rows: set<seq<C>>, ghost more: set<seq<C>>)
      requires Holds(rows) && other.Holds(more) && other.cols == cols && tuples.Absorbable(other.tuples)
      requires tuples.pool.Valid() && tuples.pool.Bounded()
      modifies tuples, tuples.memtable, other.tuples, other.tuples.memtable, tuples.pool
      ensures tuples.pool.Valid() && tuples.pool.Bounded()
      ensures tuples.Valid() && other.Holds({})
      ensures (exists all :: Holds(all)) <==> rows !! more
      ensures rows !! more ==> Holds(rows + more)
    {
      hide Encode, Lawful, LsmMap.Usable, LsmMap.Contents, Represents, MemoryPool.Valid, MemoryPool.Bounded;
      ghost var a, b := tuples.Contents(), other.tuples.Contents();
      tuples.Absorb(other.tuples);
      RepresentsSum(cols, Stored, a, multiset(rows), b, multiset(more));
      RepresentsNone(cols, Stored);
      JoinedOnceIff(rows, more);
      if rows !! more {
        assert Holds(rows + more);
      }
      forall all | Holds(all)
        ensures rows !! more
      {
        RepresentsUnique(cols, Stored, tuples.Contents(), multiset(all), multiset(rows) + multiset(more));
        SharedTwice(all, rows, more);
      }
    }

    /** `iter`, and the read of the index on no columns: every row once. */
    method Iter(ghost rows: set<seq<C>>) returns (ts: seq<seq<C>>)
      requires Holds(rows)
      ensures multiset(ts) == multiset(rows)
    {
      hide Encode, Lawful, LsmMap.Valid, LsmMap.Contents, Represents, AllTyped, KeysOfRows, ReadsBack, KeysOf;
      hide Flatten, RunKeys, Memtable.Entries;
      KeysAreRows(tuples, cols, rows);
      RowsTyped(cols, Stored, tuples.Contents(), rows);
      var it := tuples.Keys();
      var found := Drain(it);
      ts := DecodeKeys(found, rows);
      RowsListed(cols, rows, found, ts);
    }

    method DecodeKeys(found: seq<Key>, ghost rows: set<seq<C>>) returns (ts: seq<seq<C>>)
      requires Lawful(cols) && AllTyped(cols, rows) && multiset(found) <= multiset(KeysOfRows(cols, rows))
      ensures ReadsBack(cols, rows, found, ts)
    {
      hide Encode, Decode, Lawful, AllTyped, KeysOfRows;
      KeyWidths(rows, found);
      ts := [];
      for i := 0 to |found|
        invariant |ts| == i && forall j :: 0 <= j < i ==> ts[j] == Decode(cols, found[j])
      {
        ts := ts + [Decode(cols, found[i])];
      }
      forall i, t | 0 <= i < |found| && t in rows && IsKeyOf(cols, t, found[i])
        ensures ts[i] == t
      {
        TypedRow(cols, rows, t);
        EncodeRoundTrip(cols, t);
      }
    }

    lemma KeyWidths(rows: set<seq<C>>, found: seq<Key>)
      requires Lawful(cols) && AllTyped(cols, rows) && multiset(found) <= multiset(KeysOfRows(cols, rows))
      ensures forall i :: 0 <= i < |found| ==> |found[i]| == BlobWidth(cols)
    {
      hide Encode, BlobWidth, Lawful;
      forall i | 0 <= i < |found|
        ensures |found[i]| == BlobWidth(cols)
      {
        assert found[i] in multiset(found);
        var t := RowOf(cols, rows, found[i]);
        EncodeRoundTrip(cols, t);
      }
    }

    /** The read of the index on no columns: nothing if there are no rows. */
    method ScanGet(ghost rows: set<seq<C>>) returns (r: Option<seq<seq<C>>>)
      requires Holds(rows)
      ensures r.None? <==> rows == {}
      ensures r.Some? ==> multiset(r.value) == multiset(rows)
    {
      hide LsmMap.Valid, LsmMap.Contents, Represents, Lawful;
      var n := Len(rows);
      if n == 0 {
        return None;
      }
      var ts := Iter(rows);
      r := Some(ts);
    }

    /** The prefix words select the keys of the rows that start with the key columns. */
    lemma PrefixFinds(key: seq<C>, rows: set<seq<C>>, found: seq<Key>)
      requires Holds(rows) && 0 < |key| < |cols| && Typed(cols[..|key|], key)
      requires multiset(found) ==
        multiset(MatchingKeys(KeysOf(tuples.memtable.Entries()), Encode(cols[..|key|], key)))
        + multiset(RunMatches(Flatten(tuples.levels), Encode(cols[..|key|], key)))
      ensures AllTyped(cols, rows)
      ensures multiset(found) == multiset(KeysOfRows(cols, Starting(rows, key)))
    {
      hide Encode, Lawful, LsmMap.Valid, LsmMap.Contents, Represents, KeysOfRows, Starting, AllTyped;
      hide MatchingKeys, RunMatches, Flatten, KeysOf, Memtable.Entries, RunKeys;
      KeysAreRows(tuples, cols, rows);
      RowsTyped(cols, Stored, tuples.Contents(), rows);
      MatchesAcross(KeysOf(tuples.memtable.Entries()), Flatten(tuples.levels), Encode(cols[..|key|], key));
      MatchesAreStarting(cols, rows, key, AllKeys(tuples));
    }

    /** A prefix index's read: the remaining columns of the rows with the given first ones, each once. */
    method PrefixGet(key: seq<C>, ghost rows: set<seq<C>>) returns (r: Option<seq<seq<C>>>)
      requires Holds(rows) && 0 < |key| < |cols| && Typed(cols[..|key|], key)
      ensures r.None? <==> Starting(rows, key) == {}
      ensures r.Some? ==> multiset(r.value) == multiset(Tails(Starting(rows, key), |key|))
    {
      hide Encode, Decode, Lawful, LsmMap.Valid, LsmMap.Contents, Represents, KeysOfRows, Starting, AllTyped;
      hide MatchingKeys, RunMatches, Flatten, KeysOf, Memtable.Entries, Tails;
      var it := tuples.KeysWithPrefix(Encode(cols[..|key|], key));
      var found := Drain(it);
      PrefixFinds(key, rows, found);
      StartingNone(cols, rows, key);
      if found == [] {
        return None;
      }
      assert found[0] in multiset(found);
      StartingTyped(cols, rows, key);
      var vals := DecodeTails(found, |key|, Starting(rows, key));
      TailsListed(cols, rows, key, found, vals);
      r := Some(vals);
    }

    /** `SuffixIter`: each key's words past the first `k` columns, read as the remaining ones. */
    method DecodeTails(found: seq<Key>, k: nat, ghost rows: set<seq<C>>) returns (vals: seq<seq<C>>)
      requires Lawful(cols) && AllTyped(cols, rows) && 0 < k < |cols|
      requires multiset(found) <= multiset(KeysOfRows(cols, rows))
      ensures |vals| == |found|
      ensures forall i, t :: 0 <= i < |found| && t in rows && IsKeyOf(cols, t, found[i]) ==> vals[i] == t[k..]
    {
      hide Encode, Decode, Lawful, AllTyped, KeysOfRows, WidthOf;
      KeyWidths(rows, found);
      WidthSplit(cols, k);
      var w := WidthOf(cols[..k]);
      vals := [];
      for i := 0 to |found|
        invariant |vals| == i && forall j :: 0 <= j < i ==> vals[j] == Decode(cols[k..], found[j][w..])
      {
        vals := vals + [Decode(cols[k..], found[i][w..])];
      }
      forall i, t | 0 <= i < |found| && t in rows && IsKeyOf(cols, t, found[i])
        ensures vals[i] == t[k..]
      {
        TypedRow(cols, rows, t);
        TailRead(cols, t, k);
      }
    }

    /** A prefix index read whole: every row exactly once, in groups, each under its own first columns. */
    method PrefixAll(k: nat, ghost rows: set<seq<C>>) returns (groups: seq<(seq<C>, seq<seq<C>>)>)
      requires Holds(rows) && 0 < k < |cols|
      ensures multiset(Ungrouped(groups)) == multiset(rows)
      ensures forall g :: 0 <= g < |groups| ==> |groups[g].0| == k && groups[g].1 != []
    {
      hide Encode, Lawful, LsmMap.Usable, LsmMap.Contents, Represents, KeysOfRows, AllTyped, Ungrouped;
      hide PrefixGroups.Valid, PrefixGroups.Left, WidthOf, Flatten, KeysOf, Memtable.Entries, ReadsBack;
      hide RunKeys;
      KeysAreRows(tuples, cols, rows);
      RowsTyped(cols, Stored, tuples.Contents(), rows);
      WidthSplit(cols, k);
      var it := GroupsOf(tuples, WidthOf(cols[..k]));
      ghost var taken;
      groups, taken := TakeGroups(it, k, rows);
      RowsListed(cols, rows, taken, Ungrouped(groups));
    }

    method TakeGroups(it: PrefixGroups<Blob>, k: nat, ghost rows: set<seq<C>>)
      returns (groups: seq<(seq<C>, seq<seq<C>>)>, ghost taken: seq<Key>)
      requires it.Valid() && 0 < k < |cols| && it.prefixLen == WidthOf(cols[..k])
      requires Lawful(cols) && AllTyped(cols, rows) && it.Left() <= multiset(KeysOfRows(cols, rows))
      modifies it
      ensures multiset(taken) == old(it.Left()) && ReadsBack(cols, rows, taken, Ungrouped(groups))
      ensures forall i :: 0 <= i < |groups| ==> |groups[i].0| == k && groups[i].1 != []
    {
      hide *;
      groups, taken := [], [];
      NothingReadBack(cols, rows);
      while true
        invariant it.Valid() && multiset(taken) + it.Left() == old(it.Left())
        invariant ReadsBack(cols, rows, taken, Ungrouped(groups))
        invariant forall i :: 0 <= i < |groups| ==> |groups[i].0| == k && groups[i].1 != []
        decreases |it.Left()|
      {
        var g, keys := TakeGroup(it, k, rows);
        if g.None? {
          return;
        }
        GroupAdded(cols, rows, taken, groups, keys, g.value);
        SumAssociates(multiset(taken), multiset(keys), it.Left());
        groups, taken := groups + [g.value], taken + keys;
      }
    }

    /** `PrefixGroupsIter`: the next group, read. */
    method TakeGroup(it: PrefixGroups<Blob>, k: nat, ghost rows: set<seq<C>>)
      returns (g: Option<(seq<C>, seq<seq<C>>)>, ghost taken: seq<Key>)
      requires it.Valid() && 0 < k < |cols| && it.prefixLen == WidthOf(cols[..k])
      requires Lawful(cols) && AllTyped(cols, rows) && it.Left() <= multiset(KeysOfRows(cols, rows))
      modifies it
      ensures it.Valid() && old(it.Left()) == multiset(taken) + it.Left()
      ensures g.None? ==> taken == [] && it.Left() == multiset{}
      ensures g.Some? ==> taken != [] && |it.Left()| < |old(it.Left())|
      ensures g.Some? ==> ReadsBack(cols, rows, taken, Rejoined(g.value)) && |g.value.0| == k && g.value.1 != []
    {
      hide *;
      var first, group := it.Next();
      if first.None? {
        g, taken := None, [];
        return;
      }
      var keys := Drain(group);
      var read := ReadGroup(k, rows, keys, first.value);
      GroupNonempty(keys, first.value, WidthOf(cols[..k]));
      g, taken := Some(read), keys;
    }

    /** One group: its first columns, and the rest of each of its rows. */
    method ReadGroup(k: nat, ghost rows: set<seq<C>>, keys: seq<Key>, first: Key) returns (g: (seq<C>, seq<seq<C>>))
      requires Lawful(cols) && AllTyped(cols, rows) && 0 < k < |cols|
      requires multiset(keys) <= multiset(KeysOfRows(cols, rows)) && SharePrefix(keys, first, WidthOf(cols[..k]))
      ensures |g.0| == k && |g.1| == |keys| && g.1 != []
      ensures ReadsBack(cols, rows, keys, Rejoined(g))
    {
      hide Encode, Decode, Lawful, AllTyped, KeysOfRows, WidthOf;
      var w := WidthOf(cols[..k]);
      var head := Decode(cols[..k], first[..w]);
      var vals := DecodeTails(keys, k, rows);
      g := (head, vals);
      forall i, t | 0 <= i < |keys| && t in rows && IsKeyOf(cols, t, keys[i])
        ensures Rejoined(g)[i] == t
      {
        TypedRow(cols, rows, t);
        TailRead(cols, t, k);
        assert t == t[..k] + t[k..];
      }
    }
  }

  /** Whatever row a key is of, the sequence has that row in its place. */
  ghost predicate ReadsBack<C>(cols: seq<Column<C>>, rows: set<seq<C>>, keys: seq<Key>, ts: seq<seq<C>>) {
    && |ts| == |keys|
    && forall i, t :: 0 <= i < |keys| && t in rows && IsKeyOf(cols, t, keys[i]) ==> ts[i] == t
  }

  ghost function Rejoined<C>(g: (seq<C>, seq<seq<C>>)): (r: seq<seq<C>>)
    ensures |r| == |g.1| && forall i :: 0 <= i < |r| ==> r[i] == g.0 + g.1[i]
  {
    seq(|g.1|, i requires 0 <= i < |g.1| => g.0 + g.1[i])
  }

  /** The rows of the groups, one after the other. */
  ghost function Ungrouped<C>(groups: seq<(seq<C>, seq<seq<C>>)>): seq<seq<C>> {
    if groups == [] then []
    else Ungrouped(groups[..|groups| - 1]) + Rejoined(groups[|groups| - 1])
  }

  lemma NothingReadBack<C>(cols: seq<Column<C>>, rows: set<seq<C>>)
    ensures ReadsBack(cols, rows, [], Ungrouped([]))
  {
  }

  lemma GroupAdded<C>(
    cols: seq<Column<C>>, rows: set<seq<C>>, taken: seq<Key>, groups: seq<(seq<C>, seq<seq<C>>)>,
    keys: seq<Key>, g: (seq<C>, seq<seq<C>>))
    requires ReadsBack(cols, rows, taken, Ungrouped(groups)) && ReadsBack(cols, rows, keys, Rejoined(g))
    ensures ReadsBack(cols, rows, taken + keys, Ungrouped(groups + [g]))
  {
  }

  /** A row's words split into those of its first `k` columns and those of the others, and both read back. */
  lemma TailRead<C(!new)>(cols: seq<Column<C>>, t: seq<C>, k: nat)
    requires Lawful(cols) && Typed(cols, t) && 0 < k < |cols|
    ensures var w := WidthOf(cols[..k]);
      && w <= |Encode(cols, t)| && w == BlobWidth(cols[..k])
      && |Encode(cols, t)[w..]| == BlobWidth(cols[k..])
      && Decode(cols[..k], Encode(cols, t)[..w]) == t[..k]
      && Decode(cols[k..], Encode(cols, t)[w..]) == t[k..]
  {
    hide Encode, Decode, Lawful, WidthOf;
    LawfulParts(cols, k);
    assert Typed(cols[..k], t[..k]);
    PrefixReads(cols, t, k, t[..k]);
    EncodeRoundTrip(cols[..k], t[..k]);
    EncodeRoundTrip(cols[k..], t[k..]);
  }

  lemma StartingNone<C>(cols: seq<Column<C>>, rows: set<seq<C>>, key: seq<C>)
    requires AllTyped(cols, rows)
    ensures KeysOfRows(cols, Starting(rows, key)) == {} <==> Starting(rows, key) == {}
  {
    hide Encode;
    if t :| t in Starting(rows, key) {
      assert Typed(cols, t);
      assert Encode(cols, t) in KeysOfRows(cols, Starting(rows, key));
    }
  }

  lemma StartingTyped<C>(cols: seq<Column<C>>, rows: set<seq<C>>, key: seq<C>)
    requires AllTyped(cols, rows)
    ensures AllTyped(cols, Starting(rows, key))
  {
    hide Typed;
  }

  lemma SharedTwice<T>(all: set<T>, rows: set<T>, more: set<T>)
    requires multiset(all) == multiset(rows) + multiset(more)
    ensures rows !! more
  {
    forall x | x in rows
      ensures x !in more
    {
      assert multiset(all)[x] == multiset(rows)[x] + multiset(more)[x];
    }
  }

  lemma TypedRow<C>(cols: seq<Column<C>>, rows: set<seq<C>>, t: seq<C>)
    requires AllTyped(cols, rows) && t in rows
    ensures Typed(cols, t)
  {
  }
}
