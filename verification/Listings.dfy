/** Sequences that list a set: every element exactly once. */
module Listings {

  ghost predicate Distinct<T>(s: seq<T>) {
    forall i, j :: 0 <= i < j < |s| ==> s[i] != s[j]
  }

  lemma {:induction false} CountDistinct<T>(s: seq<T>, x: T)
    requires Distinct(s)
    ensures multiset(s)[x] == if x in s then 1 else 0
  {
    if s != [] {
      CountDistinct(s[1..], x);
      assert s == [s[0]] + s[1..];
    }
  }

  /** A sequence without repetition over exactly the elements of a set lists it. */
  lemma ListsSet<T>(s: seq<T>, all: set<T>)
    requires Distinct(s) && (forall i :: 0 <= i < |s| ==> s[i] in all) && (forall x :: x in all ==> x in s)
    ensures multiset(s) == multiset(all)
  {
    hide Distinct;
    forall x: T
      ensures multiset(s)[x] == multiset(all)[x]
    {
      CountDistinct(s, x);
    }
  }

  lemma CountTwice<T>(s: seq<T>, i: nat, j: nat)
    requires i < j < |s|
    ensures s[i] == s[j] ==> multiset(s)[s[i]] >= 2
  {
    var a, b, c := s[..i], s[i + 1..j], s[j + 1..];
    assert s == a + [s[i]] + b + [s[j]] + c;
  }

  lemma ListDistinct<T>(s: seq<T>, all: set<T>)
    requires multiset(s) == multiset(all)
    ensures Distinct(s)
    ensures forall i :: 0 <= i < |s| ==> s[i] in all
    ensures forall x :: x in all ==> x in s
  {
    forall i, j | 0 <= i < j < |s|
      ensures s[i] != s[j]
    {
      CountTwice(s, i, j);
    }
    forall i | 0 <= i < |s|
      ensures s[i] in all
    {
      assert s[i] in multiset(s);
    }
    forall x | x in all
      ensures x in s
    {
      assert x in multiset(s);
    }
  }
}
