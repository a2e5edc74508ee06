/**
 Relation tuples as word sequences: each column writes a fixed number of words, one after the
 other, so that the tuples with given first columns are the keys with a given prefix.
 */
module Tuples {
  import opened Keys

  /** A column: which values it has, and how a value is written into its words and read back. */
  datatype Column<!C> = Column(width: nat, has: C -> bool, toSlots: C -> Key, refFrom: Key -> C)

  /** What every column type promises. */
  ghost predicate Lawful<C(!new)>(cols: seq<Column<C>>) {
    forall i, x: C :: 0 <= i < |cols| && cols[i].has(x) ==>
      |cols[i].toSlots(x)| == cols[i].width && cols[i].refFrom(cols[i].toSlots(x)) == x
  }

  ghost predicate Typed<C>(cols: seq<Column<C>>, t: seq<C>) {
    |t| == |cols| && forall i :: 0 <= i < |cols| ==> cols[i].has(t[i])
  }

  /** How many words the columns have. */
  function WidthOf<C>(cols: seq<Column<C>>): nat {
    if cols == [] then 0 else cols[0].width + WidthOf(cols[1..])
  }

  function Slots<C>(cols: seq<Column<C>>, t: seq<C>): Key
    requires |t| == |cols|
  {
    if cols == [] then [] else cols[0].toSlots(t[0]) + Slots(cols[1..], t[1..])
  }

  function Columns<C>(cols: seq<Column<C>>, a: Key): (t: seq<C>)
    requires |a| == WidthOf(cols)
    ensures |t| == |cols|
  {
    if cols == [] then []
    else [cols[0].refFrom(a[..cols[0].width])] + Columns(cols[1..], a[cols[0].width..])
  }

  /** The words of a tuple; the empty tuple is one zero word, so that no key has no words at all. */
  function Encode<C>(cols: seq<Column<C>>, t: seq<C>): Key
    requires |t| == |cols|
  {
    if cols == [] then [0] else Slots(cols, t)
  }

  function BlobWidth<C>(cols: seq<Column<C>>): nat {
    if cols == [] then 1 else WidthOf(cols)
  }

  function Decode<C>(cols: seq<Column<C>>, a: Key): (t: seq<C>)
    requires |a| == BlobWidth(cols)
    ensures |t| == |cols|
  {
    if cols == [] then [] else Columns(cols, a)
  }

  // ------------------------------------------------------------------------
  // Round trips and prefixes
  // ------------------------------------------------------------------------

  lemma {:induction false} SlotsRoundTrip<C(!new)>(cols: seq<Column<C>>, t: seq<C>)
    requires Lawful(cols) && Typed(cols, t)
    ensures |Slots(cols, t)| == WidthOf(cols) && Columns(cols, Slots(cols, t)) == t
  {
    if cols != [] {
      assert cols[0].has(t[0]);
      LawfulRest(cols, t);
      SlotsRoundTrip(cols[1..], t[1..]);
      var first, rest := cols[0].toSlots(t[0]), Slots(cols[1..], t[1..]);
      assert (first + rest)[..cols[0].width] == first && (first + rest)[cols[0].width..] == rest;
    }
  }

  lemma LawfulRest<C(!new)>(cols: seq<Column<C>>, t: seq<C>)
    requires Lawful(cols) && Typed(cols, t) && cols != []
    ensures Lawful(cols[1..]) && Typed(cols[1..], t[1..])
  {
  }

  /** A stored tuple reads back as itself, and fills exactly its width. */
  lemma EncodeRoundTrip<C(!new)>(cols: seq<Column<C>>, t: seq<C>)
    requires Lawful(cols) && Typed(cols, t)
    ensures |Encode(cols, t)| == BlobWidth(cols) && Decode(cols, Encode(cols, t)) == t
  {
    hide Slots, Columns, WidthOf, Lawful;
    SlotsRoundTrip(cols, t);
  }

  lemma EncodeInjective<C(!new)>(cols: seq<Column<C>>, t: seq<C>, u: seq<C>)
    requires Lawful(cols) && Typed(cols, t) && Typed(cols, u) && Encode(cols, t) == Encode(cols, u)
    ensures t == u
  {
    hide Encode, Decode, Lawful;
    EncodeRoundTrip(cols, t);
    EncodeRoundTrip(cols, u);
  }

  lemma {:induction false} SlotsSplit<C>(cols: seq<Column<C>>, t: seq<C>, k: nat)
    requires |t| == |cols| && k <= |cols|
    ensures Slots(cols, t) == Slots(cols[..k], t[..k]) + Slots(cols[k..], t[k..])
    ensures WidthOf(cols) == WidthOf(cols[..k]) + WidthOf(cols[k..])
  {
    if k == 0 {
      assert cols[k..] == cols && t[k..] == t;
    } else {
      var c, u := cols[1..], t[1..];
      SlotsSplit(c, u, k - 1);
      assert cols[..k][1..] == c[..k - 1] && t[..k][1..] == u[..k - 1];
      assert c[k - 1..] == cols[k..] && u[k - 1..] == t[k..];
      Associates(cols[0].toSlots(t[0]), Slots(c[..k - 1], u[..k - 1]), Slots(cols[k..], t[k..]));
    }
  }

  lemma Associates(a: Key, b: Key, c: Key)
    ensures a + (b + c) == a + b + c
  {
  }

  lemma LawfulParts<C(!new)>(cols: seq<Column<C>>, k: nat)
    requires Lawful(cols) && k <= |cols|
    ensures Lawful(cols[..k]) && Lawful(cols[k..])
  {
  }

  /**
   The tuples whose first `k` columns are given are exactly those whose words start with the words of
   the given columns; what follows are the words of the remaining columns.
   */
  lemma PrefixReads<C(!new)>(cols: seq<Column<C>>, t: seq<C>, k: nat, key: seq<C>)
    requires Lawful(cols) && Typed(cols, t) && 0 < k < |cols| && Typed(cols[..k], key)
    ensures Encode(cols[..k], key) <= Encode(cols, t) <==> t[..k] == key
    ensures |Encode(cols[..k], key)| == WidthOf(cols[..k]) <= |Encode(cols, t)|
    ensures Encode(cols, t)[..WidthOf(cols[..k])] == Encode(cols[..k], t[..k])
    ensures Encode(cols, t)[WidthOf(cols[..k])..] == Encode(cols[k..], t[k..])
    ensures Typed(cols[..k], t[..k]) && Typed(cols[k..], t[k..])
  {
    hide Slots, Columns, WidthOf, Lawful;
    LawfulParts(cols, k);
    SlotsSplit(cols, t, k);
    var a, b := Slots(cols[..k], t[..k]), Slots(cols[k..], t[k..]);
    assert Typed(cols[..k], t[..k]);
    SlotsRoundTrip(cols[..k], t[..k]);
    SlotsRoundTrip(cols[..k], key);
    assert (a + b)[..|a|] == a && (a + b)[|a|..] == b;
    if Slots(cols[..k], key) <= a + b {
      assert Slots(cols[..k], key) == (a + b)[..|a|];
    }
  }

  // ------------------------------------------------------------------------
  // The columns an index picks
  // ------------------------------------------------------------------------

  function Pick<T>(s: seq<T>, at: seq<nat>): (r: seq<T>)
    requires forall i :: 0 <= i < |at| ==> at[i] < |s|
    ensures |r| == |at| && forall i :: 0 <= i < |r| ==> r[i] == s[at[i]]
  {
    seq(|at|, i requires 0 <= i < |at| => s[at[i]])
  }

  lemma PickLawful<C(!new)>(cols: seq<Column<C>>, t: seq<C>, at: seq<nat>)
    requires Lawful(cols) && Typed(cols, t) && forall i :: 0 <= i < |at| ==> at[i] < |cols|
    ensures Lawful(Pick(cols, at)) && Typed(Pick(cols, at), Pick(t, at))
  {
  }

  // ------------------------------------------------------------------------
  // The prefix indices of a relation
  // ------------------------------------------------------------------------

  ghost predicate IsPrefix(cols: seq<nat>) {
    forall c :: 0 <= c < |cols| ==> cols[c] == c
  }

  /** `prefix_mask`: the lengths of the indices on a relation's first columns, as a set of bits. */
  method PrefixMask(indices: seq<seq<nat>>) returns (mask: set<nat>)
    ensures forall k :: k in mask <==>
      k < 32 && exists i :: 0 <= i < |indices| && |indices[i]| == k && IsPrefix(indices[i])
  {
    mask := {};
    for i := 0 to |indices|
      invariant forall k :: k in mask <==> k < 32 && exists j :: 0 <= j < i && |indices[j]| == k && IsPrefix(indices[j])
    {
      var cols := indices[i];
      var isPrefix := true;
      for c := 0 to |cols|
        invariant isPrefix <==> forall d :: 0 <= d < c ==> cols[d] == d
      {
        if cols[c] != c {
          isPrefix := false;
        }
      }
      if isPrefix && |cols| < 32 {
        mask := mask + {|cols|};
      }
    }
  }

  /** The word lengths of the prefixes the mask asks for, from the shortest on: those and no others. */
  method PrefixLengths<C>(cols: seq<Column<C>>, mask: set<nat>) returns (lens: seq<nat>)
    ensures lens == MaskedLengths(cols, mask, |cols|)
    ensures forall f :: 0 <= f < |lens| ==> lens[f] <= WidthOf(cols)
    ensures forall w :: w in lens <==> exists k: nat :: Asked(cols, mask, k) && w == WidthOf(cols[..k])
  {
    hide WidthOf;
    lens := [];
    var k: nat := 1;
    while k < |cols|
      invariant 1 <= k && (k == 1 || k <= |cols|) && lens == MaskedLengths(cols, mask, k)
    {
      if k in mask {
        lens := lens + [WidthOf(cols[..k])];
      }
      k := k + 1;
    }
    assert lens == MaskedLengths(cols, mask, |cols|);
    MaskedAreAsked(cols, mask, |cols|);
    assert forall f :: 0 <= f < |lens| ==> lens[f] in lens;
  }

  /** Some index is on the first `k` columns, which are neither none nor all. */
  ghost predicate Asked<C>(cols: seq<Column<C>>, mask: set<nat>, k: nat) {
    k in mask && 0 < k < |cols|
  }

  /** The lengths of the masked prefixes of fewer than `n` columns. */
  ghost function MaskedLengths<C>(cols: seq<Column<C>>, mask: set<nat>, n: nat): seq<nat> {
    if n <= 1 then []
    else
      MaskedLengths(cols, mask, n - 1) + (if n - 1 in mask && n - 1 < |cols| then [WidthOf(cols[..n - 1])] else [])
  }

  lemma {:induction false} MaskedAreAsked<C>(cols: seq<Column<C>>, mask: set<nat>, n: nat)
    ensures forall w :: w in MaskedLengths(cols, mask, n) <==>
      exists k: nat :: Asked(cols, mask, k) && k < n && w == WidthOf(cols[..k])
    ensures forall w :: w in MaskedLengths(cols, mask, n) ==> w <= WidthOf(cols)
  {
    if n > 1 {
      MaskedAreAsked(cols, mask, n - 1);
      if n - 1 < |cols| {
        WidthSplit(cols, n - 1);
      }
    }
  }

  lemma {:induction false} WidthSplit<C>(cols: seq<Column<C>>, k: nat)
    requires k <= |cols|
    ensures WidthOf(cols) == WidthOf(cols[..k]) + WidthOf(cols[k..])
  {
    if k == 0 {
      assert cols[k..] == cols;
    } else {
      WidthSplit(cols[1..], k - 1);
      assert cols[..k][1..] == cols[1..][..k - 1] && cols[1..][k - 1..] == cols[k..];
    }
  }
}
