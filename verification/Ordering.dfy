/** Three-way comparison and the lexicographic order it induces on sequences. */
module Ordering {
  datatype Ordering = Less | Equal | Greater

  /** A comparison by a strict total order. */
  ghost predicate TotalOrder<T(!new)>(cmp: (T, T) -> Ordering) {
    && (forall x, y :: cmp(x, y) == Equal <==> x == y)
    && (forall x, y :: cmp(x, y) == Less <==> cmp(y, x) == Greater)
    && (forall x, y, z :: cmp(x, y) == Less && cmp(y, z) == Less ==> cmp(x, z) == Less)
  }

  /** Element by element from the front; a proper prefix comes first. */
  function Lex<T>(cmp: (T, T) -> Ordering, a: seq<T>, b: seq<T>): Ordering {
    if a == [] && b == [] then Equal
    else if a == [] then Less
    else if b == [] then Greater
    else match cmp(a[0], b[0])
      case Equal => Lex(cmp, a[1..], b[1..])
      case unequal => unequal
  }

  lemma {:induction false} LexEqual<T(!new)>(cmp: (T, T) -> Ordering, a: seq<T>, b: seq<T>)
    requires TotalOrder(cmp)
    ensures Lex(cmp, a, b) == Equal <==> a == b
    ensures Lex(cmp, a, b) == Less <==> Lex(cmp, b, a) == Greater
  {
    if a != [] && b != [] {
      LexEqual(cmp, a[1..], b[1..]);
      assert a == [a[0]] + a[1..] && b == [b[0]] + b[1..];
    }
  }

  lemma {:induction false} LexTransitive<T(!new)>(cmp: (T, T) -> Ordering, a: seq<T>, b: seq<T>, c: seq<T>)
    requires TotalOrder(cmp) && Lex(cmp, a, b) == Less && Lex(cmp, b, c) == Less
    ensures Lex(cmp, a, c) == Less
  {
    if a != [] && cmp(a[0], b[0]) == Equal && cmp(b[0], c[0]) == Equal {
      LexTransitive(cmp, a[1..], b[1..], c[1..]);
    }
  }

  /** The lexicographic order of a total order is total. */
  lemma LexTotal<T(!new)>(cmp: (T, T) -> Ordering)
    requires TotalOrder(cmp)
    ensures TotalOrder((a: seq<T>, b: seq<T>) => Lex(cmp, a, b))
  {
    forall a: seq<T>, b: seq<T>
      ensures Lex(cmp, a, b) == Equal <==> a == b
      ensures Lex(cmp, a, b) == Less <==> Lex(cmp, b, a) == Greater
    {
      LexEqual(cmp, a, b);
    }
    forall a: seq<T>, b: seq<T>, c: seq<T> | Lex(cmp, a, b) == Less && Lex(cmp, b, c) == Less
      ensures Lex(cmp, a, c) == Less
    {
      LexTransitive(cmp, a, b, c);
    }
  }

  /** Up to `i` the sequences agree; there `a` ends and `b` does not, or `a` has the lesser element. */
  ghost predicate PrecedesAt<T>(less: (T, T) -> bool, a: seq<T>, b: seq<T>, i: nat) {
    && i <= |a| && i <= |b| && a[..i] == b[..i]
    && (if i < |a| then i < |b| && less(a[i], b[i]) else i < |b|)
  }

  /** A proper prefix, or less at the first place where they differ. */
  ghost predicate Precedes<T>(less: (T, T) -> bool, a: seq<T>, b: seq<T>) {
    exists i: nat :: PrecedesAt(less, a, b, i)
  }

  ghost predicate ComparesBy<T(!new)>(cmp: (T, T) -> Ordering, less: (T, T) -> bool) {
    && (forall x, y :: cmp(x, y) == Less <==> less(x, y))
    && (forall x, y :: cmp(x, y) == Equal <==> x == y)
    && (forall x, y :: less(x, y) ==> !less(y, x))
  }

  lemma {:induction false} LexPrecedes<T(!new)>(cmp: (T, T) -> Ordering, less: (T, T) -> bool, a: seq<T>, b: seq<T>)
    requires ComparesBy(cmp, less)
    ensures Lex(cmp, a, b) == Less <==> Precedes(less, a, b)
  {
    if a == [] && b != [] {
      assert PrecedesAt(less, a, b, 0);
    } else if a != [] && b != [] {
      LexPrecedes(cmp, less, a[1..], b[1..]);
      if less(a[0], b[0]) {
        assert PrecedesAt(less, a, b, 0);
      } else if a[0] == b[0] {
        PrecedesRest(less, a, b);
      }
    }
  }

  /** A common first element does not matter. */
  lemma PrecedesRest<T>(less: (T, T) -> bool, a: seq<T>, b: seq<T>)
    requires a != [] && b != [] && a[0] == b[0] && !less(a[0], b[0])
    ensures Precedes(less, a, b) <==> Precedes(less, a[1..], b[1..])
  {
    if i: nat :| PrecedesAt(less, a, b, i) {
      assert i > 0;
      assert a[1..][..i - 1] == a[..i][1..] && b[1..][..i - 1] == b[..i][1..];
      assert PrecedesAt(less, a[1..], b[1..], i - 1);
    }
    if i: nat :| PrecedesAt(less, a[1..], b[1..], i) {
      assert a[..i + 1] == [a[0]] + a[1..][..i] && b[..i + 1] == [b[0]] + b[1..][..i];
      assert PrecedesAt(less, a, b, i + 1);
    }
  }
}
