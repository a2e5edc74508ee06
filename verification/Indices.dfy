/** An index whose key columns are not the relation's first ones: key columns to remaining columns. */
module Indices {
  import opened Wrappers
  import opened Keys
  import opened Memtables
  import opened MemoryPools
  import opened Reads
  import opened LsmMaps
  import opened Listings
  import opened Tuples
  import opened Representation

  /** The rows with the given values in the given columns. */
  ghost function Having<C>(rows: set<seq<C>>, at: seq<nat>, key: seq<C>): set<seq<C>> {
    set t | t in rows && InRange(at, |t|) && Pick(t, at) == key
  }

  /** What the rows have in the given columns. */
  ghost function Picked<C>(rows: set<seq<C>>, at: seq<nat>): set<seq<C>> {
    set t | t in rows && InRange(at, |t|) :: Pick(t, at)
  }

  /** A pair with the key's words is a row's that has the key, and it is there once. */
  lemma PairIsRow<C(!new)>(
    cols: seq<Column<C>>, layout: Layout, pairs: multiset<(Key, Blob)>, rows: set<seq<C>>, key: seq<C>, v: Blob)
    returns (t: seq<C>)
    requires layout.Indexed? && LayoutOk(layout, |cols|) && Lawful(cols) && Typed(Pick(cols, layout.keyAt), key)
    requires Represents(cols, layout, pairs, multiset(rows)) && (Encode(Pick(cols, layout.keyAt), key), v) in pairs
    ensures Typed(cols, t) && t in Having(rows, layout.keyAt, key)
    ensures v == Encode(Pick(cols, layout.valAt), Pick(t, layout.valAt))
    ensures pairs[(Encode(Pick(cols, layout.keyAt), key), v)] == 1
  {
    hide Encode, Lawful;
    var p := (Encode(Pick(cols, layout.keyAt), key), v);
    assert HasRow(cols, layout, multiset(rows), p);
    t :| t in multiset(rows) && |t| == |cols| && RowPair(cols, layout, t) == p;
    PickLawful(cols, t, layout.keyAt);
    EncodeInjective(Pick(cols, layout.keyAt), key, Pick(t, layout.keyAt));
  }

  lemma RowIsPair<C>(
    cols: seq<Column<C>>, layout: Layout, pairs: multiset<(Key, Blob)>, rows: set<seq<C>>, key: seq<C>, t: seq<C>)
    requires layout.Indexed? && LayoutOk(layout, |cols|) && |key| == |layout.keyAt|
    requires Represents(cols, layout, pairs, multiset(rows)) && t in Having(rows, layout.keyAt, key)
    ensures Typed(cols, t)
    ensures (Encode(Pick(cols, layout.keyAt), key), Encode(Pick(cols, layout.valAt), Pick(t, layout.valAt))) in pairs
  {
  }

  /** The value is what the row has in the given columns. */
  ghost predicate IsValueOf<C>(cols: seq<Column<C>>, at: seq<nat>, t: seq<C>, v: Blob)
    requires InRange(at, |cols|)
  {
    |t| == |cols| && v == Encode(Pick(cols, at), Pick(t, at))
  }

  /** Whatever row a value is of, the sequence has that row's remaining columns in its place. */
  ghost predicate PicksBack<C>(
    cols: seq<Column<C>>, at: seq<nat>, rows: set<seq<C>>, vals: seq<Blob>, ts: seq<seq<C>>)
    requires InRange(at, |cols|)
  {
    && |ts| == |vals|
    && forall i, t :: 0 <= i < |vals| && t in rows && IsValueOf(cols, at, t, vals[i]) ==> ts[i] == Pick(t, at)
  }

  /** The values under a key, read back, are the remaining columns of the rows that have it, each once. */
  lemma ValuesListed<C(!new)>(
    cols: seq<Column<C>>, layout: Layout, pairs: multiset<(Key, Blob)>, rows: set<seq<C>>, key: seq<C>,
    vals: seq<Blob>, ts: seq<seq<C>>)
    requires layout.Indexed? && LayoutOk(layout, |cols|) && Lawful(cols) && Typed(Pick(cols, layout.keyAt), key)
    requires Represents(cols, layout, pairs, multiset(rows))
    requires AreValues(pairs, Encode(Pick(cols, layout.keyAt), key), vals)
    requires PicksBack(cols, layout.valAt, Having(rows, layout.keyAt, key), vals, ts)
    ensures multiset(ts) == multiset(Picked(Having(rows, layout.keyAt, key), layout.valAt))
  {
    hide Encode, Lawful, Represents, Typed, Having, AreValues, PicksBack, Picked;
    TypedLength(Pick(cols, layout.keyAt), key);
    var here := Having(rows, layout.keyAt, key);
    SameLengths(cols, layout.valAt, here, vals, ts);
    forall i | 0 <= i < |ts|
      ensures ts[i] in Picked(here, layout.valAt)
    {
      var t := ListedIsPicked(cols, layout, pairs, rows, key, vals, ts, i);
    }
    forall i, j | 0 <= i < j < |ts|
      ensures ts[i] != ts[j]
    {
      ListedDiffer(cols, layout, pairs, rows, key, vals, ts, i, j);
    }
    forall x | x in Picked(here, layout.valAt)
      ensures x in ts
    {
      PickedIsListed(cols, layout, pairs, rows, key, vals, ts, x);
    }
    ListsSet(ts, Picked(here, layout.valAt));
  }

  lemma SameLengths<C>(cols: seq<Column<C>>, at: seq<nat>, rows: set<seq<C>>, vals: seq<Blob>, ts: seq<seq<C>>)
    requires InRange(at, |cols|) && PicksBack(cols, at, rows, vals, ts)
    ensures |ts| == |vals|
  {
  }

  /** Each value read is what some row with the key has. */
  lemma ListedIsPicked<C(!new)>(
    cols: seq<Column<C>>, layout: Layout, pairs: multiset<(Key, Blob)>, rows: set<seq<C>>, key: seq<C>,
    vals: seq<Blob>, ts: seq<seq<C>>, i: nat) returns (t: seq<C>)
    requires layout.Indexed? && LayoutOk(layout, |cols|) && Lawful(cols) && Typed(Pick(cols, layout.keyAt), key)
    requires Represents(cols, layout, pairs, multiset(rows))
    requires AreValues(pairs, Encode(Pick(cols, layout.keyAt), key), vals)
    requires PicksBack(cols, layout.valAt, Having(rows, layout.keyAt, key), vals, ts) && i < |ts|
    ensures |ts| == |vals| && |t| == |cols| && t in Having(rows, layout.keyAt, key)
    ensures IsValueOf(cols, layout.valAt, t, vals[i]) && ts[i] == Pick(t, layout.valAt)
    ensures ts[i] in Picked(Having(rows, layout.keyAt, key), layout.valAt) && multiset(vals)[vals[i]] == 1
  {
    hide Encode, Lawful, Represents, Typed, Having, AreValues;
    t := ValueIsRow(cols, layout, pairs, rows, key, vals, i);
  }

  lemma ListedDiffer<C(!new)>(
    cols: seq<Column<C>>, layout: Layout, pairs: multiset<(Key, Blob)>, rows: set<seq<C>>, key: seq<C>,
    vals: seq<Blob>, ts: seq<seq<C>>, i: nat, j: nat)
    requires layout.Indexed? && LayoutOk(layout, |cols|) && Lawful(cols) && Typed(Pick(cols, layout.keyAt), key)
    requires Represents(cols, layout, pairs, multiset(rows))
    requires AreValues(pairs, Encode(Pick(cols, layout.keyAt), key), vals)
    requires PicksBack(cols, layout.valAt, Having(rows, layout.keyAt, key), vals, ts) && i < j < |ts|
    ensures ts[i] != ts[j]
  {
    hide Encode, Lawful, Represents, Typed, Having, AreValues, PicksBack, Picked;
    var t := ListedIsPicked(cols, layout, pairs, rows, key, vals, ts, i);
    var u := ListedIsPicked(cols, layout, pairs, rows, key, vals, ts, j);
    ValuesDistinct(vals, i, j);
  }

  lemma PickedIsListed<C(!new)>(
    cols: seq<Column<C>>, layout: Layout, pairs: multiset<(Key, Blob)>, rows: set<seq<C>>, key: seq<C>,
    vals: seq<Blob>, ts: seq<seq<C>>, x: seq<C>)
    requires layout.Indexed? && LayoutOk(layout, |cols|) && Lawful(cols) && Typed(Pick(cols, layout.keyAt), key)
    requires Represents(cols, layout, pairs, multiset(rows))
    requires AreValues(pairs, Encode(Pick(cols, layout.keyAt), key), vals)
    requires PicksBack(cols, layout.valAt, Having(rows, layout.keyAt, key), vals, ts)
    requires x in Picked(Having(rows, layout.keyAt, key), layout.valAt)
    ensures x in ts
  {
    hide Encode, Lawful, Represents, Typed, Having;
    TypedLength(Pick(cols, layout.keyAt), key);
    var k, here := Encode(Pick(cols, layout.keyAt), key), Having(rows, layout.keyAt, key);
    var t :| t in here && InRange(layout.valAt, |t|) && Pick(t, layout.valAt) == x;
    RowIsPair(cols, layout, pairs, rows, key, t);
    TypedLength(cols, t);
    var v := Encode(Pick(cols, layout.valAt), Pick(t, layout.valAt));
    assert (k, v) in pairs && (k, v).0 == k;
    var i :| 0 <= i < |vals| && vals[i] == v;
  }

  lemma ValueIsRow<C(!new)>(
    cols: seq<Column<C>>, layout: Layout, pairs: multiset<(Key, Blob)>, rows: set<seq<C>>, key: seq<C>,
    vals: seq<Blob>, i: nat) returns (t: seq<C>)
    requires layout.Indexed? && LayoutOk(layout, |cols|) && Lawful(cols) && Typed(Pick(cols, layout.keyAt), key)
    requires Represents(cols, layout, pairs, multiset(rows)) && i < |vals|
    requires AreValues(pairs, Encode(Pick(cols, layout.keyAt), key), vals)
    ensures |t| == |cols| && t in Having(rows, layout.keyAt, key)
    ensures vals[i] == Encode(Pick(cols, layout.valAt), Pick(t, layout.valAt))
    ensures multiset(vals)[vals[i]] == 1
  {
    hide Encode, Lawful, Represents, Having;
    assert vals[i] in multiset(vals);
    t := PairIsRow(cols, layout, pairs, rows, key, vals[i]);
  }

  lemma ValuesDistinct(vals: seq<Blob>, i: nat, j: nat)
    requires i < j < |vals| && multiset(vals)[vals[i]] == 1
    ensures vals[i] != vals[j]
  {
    assert vals == vals[..i] + [vals[i]] + vals[i + 1..j] + [vals[j]] + vals[j + 1..];
  }

  datatype LsmIndex<!C(==, !new)> = LsmIndex(cols: seq<Column<C>>, layout: Layout, entries: LsmMap<Blob>) {

    /** The index holds exactly these rows, each as often as it was inserted. */
    ghost predicate HoldsAll(rows: multiset<seq<C>>)
      reads entries, entries.memtable, entries.pool
    {
      && entries.Valid() && Lawful(cols) && layout.Indexed? && LayoutOk(layout, |cols|)
      && entries.ps.width == BlobWidth(Pick(cols, layout.keyAt))
      && Represents(cols, layout, entries.Contents(), rows)
    }

    /** The index holds exactly these rows, each once. */
    ghost predicate Holds(rows: set<seq<C>>)
      reads entries, entries.memtable, entries.pool
    {
      HoldsAll(multiset(rows))
    }

    /** `index_insert`: one more row. */
    method IndexInsert(t: seq<C>, ghost rows: multiset<seq<C>>)
      requires HoldsAll(rows) && Typed(cols, t) && entries.pool.Valid() && entries.pool.Bounded()
      modifies entries, entries.memtable, entries.pool
      ensures HoldsAll(rows + multiset{t}) && entries.pool.Valid() && entries.pool.Bounded()
      ensures entries.pool.shares == old(entries.pool.shares)[entries := entries.memory]
      ensures entries.memtable == old(entries.memtable) || fresh(entries.memtable)
    {
      hide Encode, Lawful, LsmMap.Usable, LsmMap.Contents, Represents, MemoryPool.Valid, MemoryPool.Bounded;
      PairWidth(cols, layout, t);
      var (key, value) := RowPair(cols, layout, t);
      ghost var before := entries.Contents();
      entries.Insert(key, value);
      RepresentsOne(cols, layout, t);
      RepresentsSum(cols, layout, before, rows, multiset{RowPair(cols, layout, t)}, multiset{t});
    }

    /** `index_get`: the remaining columns of the rows with the given key columns, each once. */
    method IndexGet(key: seq<C>, ghost rows: set<seq<C>>) returns (r: Option<seq<seq<C>>>)
      requires Holds(rows) && Typed(Pick(cols, layout.keyAt), key)
      ensures r.None? <==> Having(rows, layout.keyAt, key) == {}
      ensures r.Some? ==> multiset(r.value) == multiset(Picked(Having(rows, layout.keyAt, key), layout.valAt))
    {
      hide Encode, Decode, Lawful, LsmMap.Valid, LsmMap.Contents, Represents, Having, Picked, AreValues, Typed;
      LawfulKey();
      EncodeRoundTrip(Pick(cols, layout.keyAt), key);
      KeyHasRows(key, rows);
      var slices := entries.GetRefs(Encode(Pick(cols, layout.keyAt), key));
      if slices.None? {
        return None;
      }
      var vals := Joined(slices.value);
      var ts := ReadValues(key, vals, rows);
      ValuesListed(cols, layout, entries.Contents(), rows, key, vals, ts);
      r := Some(ts);
    }

    lemma LawfulKey()
      requires Lawful(cols) && layout.Indexed? && LayoutOk(layout, |cols|)
      ensures Lawful(Pick(cols, layout.keyAt)) && Lawful(Pick(cols, layout.valAt))
    {
    }

    lemma KeyHasRows(key: seq<C>, rows: set<seq<C>>)
      requires Holds(rows) && Typed(Pick(cols, layout.keyAt), key)
      ensures HasKeyIn(entries.Contents(), Encode(Pick(cols, layout.keyAt), key)) <==>
        Having(rows, layout.keyAt, key) != {}
    {
      hide Encode, Lawful, LsmMap.Valid, LsmMap.Contents, Represents, Having;
      var k := Encode(Pick(cols, layout.keyAt), key);
      if HasKeyIn(entries.Contents(), k) {
        var p :| p in entries.Contents() && p.0 == k;
        assert p == (k, p.1);
        var t := PairIsRow(cols, layout, entries.Contents(), rows, key, p.1);
      }
      if t :| t in Having(rows, layout.keyAt, key) {
        RowIsPair(cols, layout, entries.Contents(), rows, key, t);
      }
    }

    /** `ValIter`: each value's words, read as the remaining columns. */
    method ReadValues(key: seq<C>, vals: seq<Blob>, ghost rows: set<seq<C>>) returns (ts: seq<seq<C>>)
      requires Holds(rows) && Typed(Pick(cols, layout.keyAt), key)
      requires AreValues(entries.Contents(), Encode(Pick(cols, layout.keyAt), key), vals)
      ensures PicksBack(cols, layout.valAt, Having(rows, layout.keyAt, key), vals, ts)
    {
      hide Encode, Decode, Lawful, LsmMap.Valid, LsmMap.Contents, Represents, AreValues, Having;
      ghost var here := Having(rows, layout.keyAt, key);
      ts := [];
      for i := 0 to |vals|
        invariant PicksBack(cols, layout.valAt, here, vals[..i], ts)
      {
        ghost var t := ValueIsRow(cols, layout, entries.Contents(), rows, key, vals, i);
        ReadOne(key, vals[i], rows);
        ts := ts + [Decode(Pick(cols, layout.valAt), vals[i])];
      }
      assert vals[..|vals|] == vals;
    }

    lemma ReadOne(key: seq<C>, v: Blob, rows: set<seq<C>>)
      requires Holds(rows) && Typed(Pick(cols, layout.keyAt), key)
      requires exists t :: t in Having(rows, layout.keyAt, key) && IsValueOf(cols, layout.valAt, t, v)
      ensures |v| == BlobWidth(Pick(cols, layout.valAt))
      ensures forall t :: t in Having(rows, layout.keyAt, key) && IsValueOf(cols, layout.valAt, t, v) ==>
        Decode(Pick(cols, layout.valAt), v) == Pick(t, layout.valAt)
    {
      hide Encode, Decode, Lawful, LsmMap.Valid, LsmMap.Contents, Represents;
      forall t | t in Having(rows, layout.keyAt, key) && IsValueOf(cols, layout.valAt, t, v)
        ensures |v| == BlobWidth(Pick(cols, layout.valAt))
        ensures Decode(Pick(cols, layout.valAt), v) == Pick(t, layout.valAt)
      {
        RowIsPair(cols, layout, entries.Contents(), rows, key, t);
        PickLawful(cols, t, layout.valAt);
        EncodeRoundTrip(Pick(cols, layout.valAt), Pick(t, layout.valAt));
      }
    }
  }

  /** The slices one after the other. */
  method Joined<T>(slices: seq<seq<T>>) returns (vals: seq<T>)
    ensures vals == Flatten(slices)
  {
    hide Flatten;
    vals := [];
    FlattenNone<T>();
    for i := 0 to |slices|
      invariant vals == Flatten(slices[..i])
    {
      assert slices[..i + 1] == slices[..i] + [slices[i]];
      FlattenSnoc(slices[..i], slices[i]);
      vals := vals + slices[i];
    }
    assert slices[..|slices|] == slices;
  }

  lemma FlattenNone<T>()
    ensures Flatten<T>([]) == []
  {
  }
}
