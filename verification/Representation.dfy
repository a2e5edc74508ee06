/**
 How a map holds rows of a relation: each row as one (key, value) pair, either whole, as the key of
 a set, or split into an index's key columns and its remaining ones.
 */
module Representation {
  import opened Keys
  import opened Tuples

  /** The words of a value; a set's values have none. */
  type Blob = Key

  datatype Layout =
    | Stored
    | Indexed(keyAt: seq<nat>, valAt: seq<nat>)

  ghost predicate InRange(at: seq<nat>, n: nat) {
    forall i :: 0 <= i < |at| ==> at[i] < n
  }

  /** An index keeps every column, in its key or in its value. */
  ghost predicate LayoutOk(layout: Layout, n: nat) {
    layout.Indexed? ==>
      && InRange(layout.keyAt, n) && InRange(layout.valAt, n)
      && forall c :: 0 <= c < n ==> c in layout.keyAt || c in layout.valAt
  }

  function KeyColumns<C>(cols: seq<Column<C>>, layout: Layout): seq<Column<C>>
    requires LayoutOk(layout, |cols|)
  {
    if layout.Stored? then cols else Pick(cols, layout.keyAt)
  }

  function RowPair<C>(cols: seq<Column<C>>, layout: Layout, t: seq<C>): (Key, Blob)
    requires LayoutOk(layout, |cols|) && |t| == |cols|
  {
    match layout
    case Stored => (Encode(cols, t), [])
    case Indexed(keyAt, valAt) =>
      (Encode(Pick(cols, keyAt), Pick(t, keyAt)), Encode(Pick(cols, valAt), Pick(t, valAt)))
  }

  lemma PairWidth<C(!new)>(cols: seq<Column<C>>, layout: Layout, t: seq<C>)
    requires Lawful(cols) && LayoutOk(layout, |cols|) && Typed(cols, t)
    ensures |RowPair(cols, layout, t).0| == BlobWidth(KeyColumns(cols, layout))
  {
    hide Encode, BlobWidth, Lawful;
    if layout.Stored? {
      EncodeRoundTrip(cols, t);
    } else {
      PickLawful(cols, t, layout.keyAt);
      EncodeRoundTrip(Pick(cols, layout.keyAt), Pick(t, layout.keyAt));
    }
  }

  /** No two rows have the same pair. */
  lemma RowPairInjective<C(!new)>(cols: seq<Column<C>>, layout: Layout, t: seq<C>, u: seq<C>)
    requires Lawful(cols) && LayoutOk(layout, |cols|) && Typed(cols, t) && Typed(cols, u)
    requires RowPair(cols, layout, t) == RowPair(cols, layout, u)
    ensures t == u
  {
    hide Encode, Lawful;
    match layout
    case Stored => EncodeInjective(cols, t, u);
    case Indexed(keyAt, valAt) =>
      SamePicked(cols, t, u, keyAt);
      SamePicked(cols, t, u, valAt);
      forall c | 0 <= c < |cols|
        ensures t[c] == u[c]
      {
        if c in keyAt {
          SameAt(t, u, keyAt, c);
        } else {
          SameAt(t, u, valAt, c);
        }
      }
  }

  lemma SamePicked<C(!new)>(cols: seq<Column<C>>, t: seq<C>, u: seq<C>, at: seq<nat>)
    requires Lawful(cols) && Typed(cols, t) && Typed(cols, u) && InRange(at, |cols|)
    requires Encode(Pick(cols, at), Pick(t, at)) == Encode(Pick(cols, at), Pick(u, at))
    ensures Pick(t, at) == Pick(u, at)
  {
    hide Encode, Lawful;
    PickLawful(cols, t, at);
    PickLawful(cols, u, at);
    EncodeInjective(Pick(cols, at), Pick(t, at), Pick(u, at));
  }

  lemma SameAt<C>(t: seq<C>, u: seq<C>, at: seq<nat>, c: nat)
    requires InRange(at, |t|) && |t| == |u| && Pick(t, at) == Pick(u, at) && c in at
    ensures t[c] == u[c]
  {
  }

  // ------------------------------------------------------------------------
  // Rows and pairs
  // ------------------------------------------------------------------------

  /** Some row has the pair. */
  ghost predicate HasRow<C>(cols: seq<Column<C>>, layout: Layout, rows: multiset<seq<C>>, p: (Key, Blob))
    requires LayoutOk(layout, |cols|)
  {
    exists t :: t in rows && |t| == |cols| && RowPair(cols, layout, t) == p
  }

  /** The pairs are the rows' pairs, each as often as its row. */
  ghost predicate Represents<C>(
    cols: seq<Column<C>>, layout: Layout, pairs: multiset<(Key, Blob)>, rows: multiset<seq<C>>)
    requires LayoutOk(layout, |cols|)
  {
    && (forall t :: t in rows ==> Typed(cols, t) && pairs[RowPair(cols, layout, t)] == rows[t])
    && (forall p :: p in pairs ==> HasRow(cols, layout, rows, p))
  }

  lemma RepresentsNone<C>(cols: seq<Column<C>>, layout: Layout)
    requires LayoutOk(layout, |cols|)
    ensures Represents(cols, layout, multiset{}, multiset(var none: set<seq<C>> := {}; none))
  {
  }

  /** A row's pair is there as often as the row. */
  lemma RowCount<C(!new)>(
    cols: seq<Column<C>>, layout: Layout, pairs: multiset<(Key, Blob)>, rows: multiset<seq<C>>, t: seq<C>)
    requires Lawful(cols) && LayoutOk(layout, |cols|) && Typed(cols, t) && Represents(cols, layout, pairs, rows)
    ensures pairs[RowPair(cols, layout, t)] == rows[t]
  {
    hide Lawful, RowPair;
    if t !in rows && RowPair(cols, layout, t) in pairs {
      var u :| u in rows && |u| == |cols| && RowPair(cols, layout, u) == RowPair(cols, layout, t);
      RowPairInjective(cols, layout, t, u);
    }
  }

  lemma HasRowAmongMore<C>(
    cols: seq<Column<C>>, layout: Layout, rows: multiset<seq<C>>, more: multiset<seq<C>>, p: (Key, Blob))
    requires LayoutOk(layout, |cols|) && (HasRow(cols, layout, rows, p) || HasRow(cols, layout, more, p))
    ensures HasRow(cols, layout, rows + more, p)
  {
  }

  /** Rows of two maps together. */
  lemma RepresentsSum<C(!new)>(
    cols: seq<Column<C>>, layout: Layout,
    a: multiset<(Key, Blob)>, rows: multiset<seq<C>>, b: multiset<(Key, Blob)>, more: multiset<seq<C>>)
    requires Lawful(cols) && LayoutOk(layout, |cols|)
    requires Represents(cols, layout, a, rows) && Represents(cols, layout, b, more)
    ensures Represents(cols, layout, a + b, rows + more)
  {
    hide Lawful, RowPair, HasRow, LayoutOk, Typed;
    forall t | t in rows + more
      ensures Typed(cols, t) && |t| == |cols| && (a + b)[RowPair(cols, layout, t)] == (rows + more)[t]
    {
      assert t in rows || t in more;
      TypedLength(cols, t);
      RowCount(cols, layout, a, rows, t);
      RowCount(cols, layout, b, more, t);
    }
    forall p | p in a + b
      ensures HasRow(cols, layout, rows + more, p)
    {
      assert p in a || p in b;
      HasRowAmongMore(cols, layout, rows, more, p);
    }
  }

  lemma TypedLength<C>(cols: seq<Column<C>>, t: seq<C>)
    requires Typed(cols, t)
    ensures |t| == |cols|
  {
  }

  lemma RepresentsOne<C>(cols: seq<Column<C>>, layout: Layout, t: seq<C>)
    requires LayoutOk(layout, |cols|) && Typed(cols, t)
    ensures Represents(cols, layout, multiset{RowPair(cols, layout, t)}, multiset{t})
  {
    hide RowPair;
  }

  /** There are as many pairs as rows. */
  lemma {:induction false} RepresentsSize<C(!new)>(
    cols: seq<Column<C>>, layout: Layout, pairs: multiset<(Key, Blob)>, rows: multiset<seq<C>>)
    requires Lawful(cols) && LayoutOk(layout, |cols|) && Represents(cols, layout, pairs, rows)
    ensures |pairs| == |rows|
    decreases |rows|
  {
    hide Lawful, RowPair;
    if rows == multiset{} {
      assert pairs == multiset{};
    } else {
      var t :| t in rows;
      OneRowLess(cols, layout, pairs, rows, t);
      RepresentsSize(cols, layout, pairs - multiset{RowPair(cols, layout, t)}, rows - multiset{t});
    }
  }

  lemma OneRowLess<C(!new)>(
    cols: seq<Column<C>>, layout: Layout, pairs: multiset<(Key, Blob)>, rows: multiset<seq<C>>, t: seq<C>)
    requires Lawful(cols) && LayoutOk(layout, |cols|) && Represents(cols, layout, pairs, rows) && t in rows
    ensures |t| == |cols| && RowPair(cols, layout, t) in pairs
    ensures Represents(cols, layout, pairs - multiset{RowPair(cols, layout, t)}, rows - multiset{t})
  {
    hide Lawful, RowPair, HasRow, LayoutOk;
    var p := RowPair(cols, layout, t);
    var fewer, left := pairs - multiset{p}, rows - multiset{t};
    forall u | u in left
      ensures Typed(cols, u) && fewer[RowPair(cols, layout, u)] == left[u]
    {
      assert u in rows;
      if u != t && RowPair(cols, layout, u) == p {
        RowPairInjective(cols, layout, t, u);
      }
    }
    forall q | q in fewer
      ensures HasRow(cols, layout, left, q)
    {
      assert q in pairs;
      StillHasRow(cols, layout, pairs, rows, t, q);
    }
  }

  lemma StillHasRow<C>(
    cols: seq<Column<C>>, layout: Layout, pairs: multiset<(Key, Blob)>, rows: multiset<seq<C>>,
    t: seq<C>, q: (Key, Blob))
    requires LayoutOk(layout, |cols|) && Represents(cols, layout, pairs, rows)
    requires t in rows && q in pairs - multiset{RowPair(cols, layout, t)}
    ensures HasRow(cols, layout, rows - multiset{t}, q)
  {
    hide RowPair, LayoutOk;
    assert HasRow(cols, layout, rows, q);
    var u :| u in rows && |u| == |cols| && RowPair(cols, layout, u) == q;
    assert u in rows - multiset{t};
  }

  /** The pairs determine the rows. */
  lemma RepresentsUnique<C(!new)>(
    cols: seq<Column<C>>, layout: Layout, pairs: multiset<(Key, Blob)>,
    rows: multiset<seq<C>>, others: multiset<seq<C>>)
    requires Lawful(cols) && LayoutOk(layout, |cols|)
    requires Represents(cols, layout, pairs, rows) && Represents(cols, layout, pairs, others)
    ensures rows == others
  {
    hide Lawful, RowPair;
    forall t: seq<C>
      ensures rows[t] == others[t]
    {
      if t in rows {
        RowCount(cols, layout, pairs, others, t);
      } else if t in others {
        RowCount(cols, layout, pairs, rows, t);
      }
    }
  }

  /** Joining two duplicate-free sets of rows without a look leaves it duplicate-free exactly when they are disjoint. */
  lemma JoinedOnceIff<T>(a: set<T>, b: set<T>)
    ensures multiset(a) + multiset(b) == multiset(a + b) <==> a !! b
  {
    if x :| x in a && x in b {
      assert (multiset(a) + multiset(b))[x] == 2;
      assert multiset(a + b)[x] == 1;
    }
  }
}
