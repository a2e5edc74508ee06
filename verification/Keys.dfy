/** Keys: a fixed number of `u64` words, ordered lexicographically. */
module Keys {
  import opened Ordering

  type u64 = w: int | 0 <= w < 0x1_0000_0000_0000_0000

  type Key = seq<u64>

  function CompareWords(a: u64, b: u64): Ordering {
    if a < b then Less else if a > b then Greater else Equal
  }

  predicate Below(a: Key, b: Key) {
    Lex(CompareWords, a, b) == Less
  }

  /** The order of keys is the lexicographic order of their words as numbers. */
  lemma BelowIsLexicographic(a: Key, b: Key)
    ensures Below(a, b) <==> exists i: nat :: FirstLess(a, b, i)
  {
    assert ComparesBy(CompareWords, (x: u64, y: u64) => x < y);
    LexPrecedes(CompareWords, (x: u64, y: u64) => x < y, a, b);
    if Below(a, b) {
      var i: nat :| PrecedesAt((x: u64, y: u64) => x < y, a, b, i);
      assert FirstLess(a, b, i);
    }
    if i: nat :| FirstLess(a, b, i) {
      assert PrecedesAt((x: u64, y: u64) => x < y, a, b, i);
    }
  }

  /** The first `i` words agree; there `a` ends and `b` does not, or the word of `a` is the smaller number. */
  ghost predicate FirstLess(a: Key, b: Key, i: nat) {
    && i <= |a| && i <= |b| && a[..i] == b[..i]
    && (if i < |a| then i < |b| && a[i] < b[i] else i < |b|)
  }

  predicate AtMost(a: Key, b: Key) {
    a == b || Below(a, b)
  }

  /** Of two keys, exactly one is less or they are equal. */
  lemma BelowTotal(a: Key, b: Key)
    ensures !Below(a, a)
    ensures Below(a, b) ==> a != b && !Below(b, a)
    ensures a != b ==> Below(a, b) || Below(b, a)
  {
    assert TotalOrder(CompareWords);
    LexEqual(CompareWords, a, b);
    LexEqual(CompareWords, b, a);
    LexEqual(CompareWords, a, a);
  }

  lemma BelowTransitive(a: Key, b: Key, c: Key)
    requires AtMost(a, b) && AtMost(b, c)
    ensures AtMost(a, c)
    ensures Below(a, b) || Below(b, c) ==> Below(a, c)
  {
    if Below(a, b) && Below(b, c) {
      assert TotalOrder(CompareWords);
      LexTransitive(CompareWords, a, b, c);
    }
  }

  /** Strictly ascending, so without duplicates. */
  ghost predicate Ascending(keys: seq<Key>) {
    forall i, j :: 0 <= i < j < |keys| ==> Below(keys[i], keys[j])
  }

  // ------------------------------------------------------------------------
  // Prefixes
  // ------------------------------------------------------------------------

  /** The key and the prefix agree on the words both have. */
  predicate Matches(key: Key, prefix: Key) {
    var m := if |key| <= |prefix| then |key| else |prefix|;
    key[..m] == prefix[..m]
  }

  function PrefixOrder(key: Key, prefix: Key): Ordering {
    var m := if |key| <= |prefix| then |key| else |prefix|;
    Lex(CompareWords, key[..m], prefix[..m])
  }

  /** The first `i` words agree, and then `a` has the smaller number. */
  ghost predicate SmallerAt(a: Key, b: Key, i: nat) {
    i < |a| && i < |b| && a[..i] == b[..i] && a[i] < b[i]
  }

  lemma OneFirstDifference(a: Key, b: Key, i: nat, j: nat)
    requires SmallerAt(a, b, i)
    ensures !SmallerAt(b, a, j)
  {
    if j < i {
      assert a[j] == a[..i][j] && b[j] == b[..i][j];
    } else if i < j <= |a| && j <= |b| {
      assert a[..j][i] == a[i] && b[..j][i] == b[i];
    }
  }

  /** `cmp_prefix`: compares word by word up to the end of the shorter; the first word that differs decides. */
  method CmpPrefix(key: Key, prefix: Key) returns (r: Ordering)
    ensures r == PrefixOrder(key, prefix)
    ensures r == Less <==> exists i: nat :: SmallerAt(key, prefix, i)
    ensures r == Greater <==> exists i: nat :: SmallerAt(prefix, key, i)
    ensures r == Equal <==> Matches(key, prefix)
  {
    var m := if |key| <= |prefix| then |key| else |prefix|;
    PrefixOrderEqual(key, prefix);
    for i := 0 to m
      invariant key[..i] == prefix[..i]
      invariant PrefixOrder(key, prefix) == Lex(CompareWords, key[i..m], prefix[i..m])
    {
      assert key[i..m][1..] == key[i + 1..m] && prefix[i..m][1..] == prefix[i + 1..m];
      r := CompareWords(key[i], prefix[i]);
      if r == Less {
        assert SmallerAt(key, prefix, i);
        forall j: nat ensures !SmallerAt(prefix, key, j) {
          OneFirstDifference(key, prefix, i, j);
        }
        return;
      } else if r == Greater {
        assert SmallerAt(prefix, key, i);
        forall j: nat ensures !SmallerAt(key, prefix, j) {
          OneFirstDifference(prefix, key, i, j);
        }
        return;
      }
    }
    forall j: nat | j < m
      ensures key[j] == prefix[j]
    {
      assert key[..m][j] == prefix[..m][j];
    }
    r := Equal;
  }

  lemma PrefixOrderEqual(key: Key, prefix: Key)
    ensures PrefixOrder(key, prefix) == Equal <==> Matches(key, prefix)
  {
    var m := if |key| <= |prefix| then |key| else |prefix|;
    assert TotalOrder(CompareWords);
    LexEqual(CompareWords, key[..m], prefix[..m]);
  }

  /** Among keys of one width, a prefix read finds the keys that start with the prefix. */
  lemma MatchesIsStartsWith(key: Key, prefix: Key)
    requires |prefix| <= |key|
    ensures Matches(key, prefix) <==> prefix <= key
  {
  }

  lemma {:induction false} LexOfTakes(a: Key, b: Key, m: nat)
    requires |a| == |b| && m <= |a| && AtMost(a, b)
    ensures AtMost(a[..m], b[..m])
    decreases m
  {
    if a != b && m > 0 && CompareWords(a[0], b[0]) == Equal {
      LexOfTakes(a[1..], b[1..], m - 1);
      assert a[..m] == [a[0]] + a[1..][..m - 1] && b[..m] == [b[0]] + b[1..][..m - 1];
    }
  }

  /** Ascending keys meet a prefix in order: first those before it, then its matches, then those after. */
  lemma PrefixOrderMonotone(a: Key, b: Key, prefix: Key)
    requires |a| == |b| && AtMost(a, b)
    ensures PrefixOrder(a, prefix) == Greater ==> PrefixOrder(b, prefix) == Greater
    ensures PrefixOrder(b, prefix) == Less ==> PrefixOrder(a, prefix) == Less
  {
    var m := if |a| <= |prefix| then |a| else |prefix|;
    var x, y, p := a[..m], b[..m], prefix[..m];
    LexOfTakes(a, b, m);
    assert TotalOrder(CompareWords);
    LexEqual(CompareWords, p, x);
    LexEqual(CompareWords, p, y);
    if Below(p, x) {
      BelowTransitive(p, x, y);
    }
    if Below(y, p) {
      BelowTransitive(x, y, p);
    }
  }
}
