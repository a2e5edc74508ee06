/**
 The path algebra: segments, the normal form, and the equations it decides.

 A path is a sequence of segments. Offsets add and a zero offset vanishes; `#value`
 absorbs itself and the offsets on either side of it; fields and `deref` obey no equation.
 */
module PathAlgebra {

  const TWO_TO_THE_63: int := 0x8000_0000_0000_0000
  const TWO_TO_THE_64: int := 0x1_0000_0000_0000_0000

  type i64 = k: int | -0x8000_0000_0000_0000 <= k < 0x8000_0000_0000_0000

  datatype Segment = Field(name: string) | Offset(k: i64) | Deref | Value

  type Path = seq<Segment>

  /** Two's-complement addition, as the release build and `wrapping_add` compute it. */
  function WrapAdd(a: i64, b: i64): i64 {
    var s := a + b;
    if s >= TWO_TO_THE_63 then s - TWO_TO_THE_64
    else if s < -TWO_TO_THE_63 then s + TWO_TO_THE_64
    else s
  }

  function WrapNeg(a: i64): i64 {
    if a == -TWO_TO_THE_63 then a else -a
  }

  function WrapSub(a: i64, b: i64): i64 {
    WrapAdd(a, WrapNeg(b))
  }

  /** The same number modulo 2^64. */
  predicate Congruent(a: int, b: int) {
    (a - b) % 0x1_0000_0000_0000_0000 == 0
  }

  /** No two 64-bit numbers are the same modulo 2^64. */
  lemma CongruentSame(a: i64, b: i64)
    ensures Congruent(a, b) <==> a == b
  {
  }

  /** Wrapping arithmetic: the 64-bit number that is the sum, or the negative, modulo 2^64. */
  lemma WrapsAround(a: i64, b: i64)
    ensures Congruent(WrapAdd(a, b), a + b) && Congruent(WrapNeg(a), 0 - a) && Congruent(WrapSub(a, b), a - b)
    ensures -TWO_TO_THE_63 <= a + b < TWO_TO_THE_63 ==> WrapAdd(a, b) == a + b
  {
  }

  lemma OnlySum(a: i64, b: i64, sum: i64)
    ensures Congruent(sum, a + b) <==> sum == WrapAdd(a, b)
  {
    WrapsAround(a, b);
    if Congruent(sum, a + b) {
      CongruentSame(sum, WrapAdd(a, b));
    }
  }

  function Last(p: Path): Segment
    requires p != []
  {
    p[|p| - 1]
  }

  function Init(p: Path): Path
    requires p != []
  {
    p[..|p| - 1]
  }

  predicate EndsInOffset(p: Path) {
    p != [] && Last(p).Offset?
  }

  predicate EndsInValue(p: Path) {
    p != [] && Last(p).Value?
  }

  /** The segments that combine with a neighbour. */
  predicate Elastic(s: Segment) {
    s.Offset? || s.Value?
  }

  predicate StartsElastic(p: Path) {
    p != [] && Elastic(p[0])
  }

  /** No zero offset, and no two neighbours that an equation would combine. */
  ghost predicate Normal(p: Path) {
    && (forall i :: 0 <= i < |p| ==> p[i] != Offset(0))
    && (forall i :: 0 < i < |p| ==> !(Elastic(p[i - 1]) && Elastic(p[i])))
  }

  // ------------------------------------------------------------------------
  // Normalization
  // ------------------------------------------------------------------------

  /** Appends one segment to a normal path, keeping it normal. */
  function Push(out: Path, seg: Segment): Path {
    match seg
    case Offset(k) =>
      if EndsInValue(out) then out
      else if EndsInOffset(out) then
        var sum := WrapAdd(Last(out).k, k);
        if sum == 0 then Init(out) else Init(out) + [Offset(sum)]
      else if k != 0 then out + [seg]
      else out
    case Value =>
      var base := if EndsInOffset(out) then Init(out) else out;
      if EndsInValue(base) then base else base + [Value]
    case Field(_) => out + [seg]
    case Deref => out + [seg]
  }

  function PushAll(out: Path, segments: Path): Path
    decreases |segments|
  {
    if segments == [] then out else PushAll(Push(out, segments[0]), segments[1..])
  }

  function NormalForm(segments: Path): Path {
    PushAll([], segments)
  }

  /** The composition of two normal paths. */
  function Concat(prefix: Path, suffix: Path): Path {
    PushAll(prefix, suffix)
  }

  lemma PushNormal(out: Path, seg: Segment)
    requires Normal(out)
    ensures Normal(Push(out, seg))
  {
  }

  lemma {:induction false} PushAllNormal(out: Path, segments: Path)
    requires Normal(out)
    ensures Normal(PushAll(out, segments))
    decreases |segments|
  {
    if segments != [] {
      PushNormal(out, segments[0]);
      PushAllNormal(Push(out, segments[0]), segments[1..]);
    }
  }

  lemma {:induction false} PushAllSplit(out: Path, a: Path, b: Path)
    ensures PushAll(out, a + b) == PushAll(PushAll(out, a), b)
    decreases |a|
  {
    if a == [] {
      assert a + b == b;
    } else {
      assert (a + b)[1..] == a[1..] + b;
      PushAllSplit(Push(out, a[0]), a[1..], b);
    }
  }

  lemma PushAllSnoc(out: Path, a: Path, s: Segment)
    ensures PushAll(out, a + [s]) == Push(PushAll(out, a), s)
  {
    PushAllSplit(out, a, [s]);
    assert PushAll(PushAll(out, a), [s]) == Push(PushAll(out, a), s);
  }

  /** Segments that meet no elastic neighbour are appended as they are. */
  lemma {:induction false} PushAllAppends(out: Path, segments: Path)
    requires Normal(out + segments)
    ensures PushAll(out, segments) == out + segments
    decreases |segments|
  {
    if segments != [] {
      var s := segments[0];
      assert (out + segments)[|out|] == s;
      if out != [] {
        assert (out + segments)[|out| - 1] == Last(out);
      }
      assert Push(out, s) == out + [s];
      assert out + [s] + segments[1..] == out + segments;
      PushAllAppends(out + [s], segments[1..]);
    } else {
      assert out + segments == out;
    }
  }

  lemma NormalFormOfNormal(p: Path)
    requires Normal(p)
    ensures NormalForm(p) == p
  {
    assert [] + p == p;
    PushAllAppends([], p);
  }

  lemma NormalFormIsNormal(p: Path)
    ensures Normal(NormalForm(p))
  {
    PushAllNormal([], p);
  }

  lemma NormalSlice(p: Path, lo: nat, hi: nat)
    requires Normal(p) && lo <= hi <= |p|
    ensures Normal(p[lo..hi])
  {
  }

  /** `normalize`: folds the single step over a sequence. */
  method Normalize(segments: Path) returns (out: Path)
    ensures out == NormalForm(segments)
    ensures Normal(out)
    ensures Normal(segments) ==> out == segments
  {
    out := [];
    for i := 0 to |segments|
      invariant out == NormalForm(segments[..i])
    {
      PushAllSnoc([], segments[..i], segments[i]);
      assert segments[..i + 1] == segments[..i] + [segments[i]];
      out := Push(out, segments[i]);
    }
    assert segments[..|segments|] == segments;
    NormalFormIsNormal(segments);
    if Normal(segments) {
      NormalFormOfNormal(segments);
    }
  }

  // ------------------------------------------------------------------------
  // The equational theory
  // ------------------------------------------------------------------------

  /** One offset, the 64-bit number that is the sum modulo 2^64. */
  ghost predicate IsSum(r: Path, a: i64, b: i64) {
    |r| == 1 && r[0].Offset? && Congruent(r[0].k, a + b)
  }

  /** The equations of the algebra, left to right. */
  ghost predicate Equation(l: Path, r: Path) {
    || (|l| == 2 && l[0].Offset? && l[1].Offset? && IsSum(r, l[0].k, l[1].k))
    || (l == [Offset(0)] && r == [])
    || (l == [Value, Value] && r == [Value])
    || (|l| == 2 && l[0].Offset? && l[1] == Value && r == [Value])
    || (|l| == 2 && l[0] == Value && l[1].Offset? && r == [Value])
  }

  /** One use of an equation, in either direction, at any place in the path. */
  ghost predicate Rewrites(p: Path, q: Path) {
    exists before: Path, l: Path, r: Path, after: Path ::
      RewritesAt(p, q, before, l, r, after)
  }

  ghost predicate RewritesAt(p: Path, q: Path, before: Path, l: Path, r: Path, after: Path) {
    && p == before + l + after
    && q == before + r + after
    && (Equation(l, r) || Equation(r, l))
  }

  /** `q` follows from `p` by the rewrites that lead through `via`. */
  ghost predicate DerivedVia(p: Path, via: seq<Path>, q: Path)
    decreases |via|
  {
    if via == [] then p == q
    else Rewrites(p, via[0]) && DerivedVia(via[0], via[1..], q)
  }

  /** Equality in the theory: some finite chain of rewrites connects the two paths. */
  ghost predicate Equal(p: Path, q: Path) {
    exists via: seq<Path> :: DerivedVia(p, via, q)
  }

  lemma {:induction false} DerivedTransitive(p: Path, v1: seq<Path>, q: Path, v2: seq<Path>, r: Path)
    requires DerivedVia(p, v1, q) && DerivedVia(q, v2, r)
    ensures DerivedVia(p, v1 + v2, r)
    decreases |v1|
  {
    if v1 == [] {
      assert v1 + v2 == v2;
    } else {
      DerivedTransitive(v1[0], v1[1..], q, v2, r);
      assert (v1 + v2)[1..] == v1[1..] + v2;
    }
  }

  lemma EqualTransitive(p: Path, q: Path, r: Path)
    requires Equal(p, q) && Equal(q, r)
    ensures Equal(p, r)
  {
    var v1 :| DerivedVia(p, v1, q);
    var v2 :| DerivedVia(q, v2, r);
    DerivedTransitive(p, v1, q, v2, r);
  }

  lemma EqualOneStep(p: Path, q: Path)
    requires Rewrites(p, q)
    ensures Equal(p, q)
  {
    assert DerivedVia(q, [], q);
    assert DerivedVia(p, [q], q);
  }

  lemma RewritesSymmetric(p: Path, q: Path)
    requires Rewrites(p, q)
    ensures Rewrites(q, p)
  {
    var before, l, r, after :| RewritesAt(p, q, before, l, r, after);
    assert RewritesAt(q, p, before, r, l, after);
  }

  lemma {:induction false} EqualSymmetricVia(p: Path, via: seq<Path>, q: Path)
    requires DerivedVia(p, via, q)
    ensures Equal(q, p)
    decreases |via|
  {
    if via == [] {
      assert DerivedVia(q, [], p);
    } else {
      EqualSymmetricVia(via[0], via[1..], q);
      RewritesSymmetric(p, via[0]);
      EqualOneStep(via[0], p);
      EqualTransitive(q, via[0], p);
    }
  }

  lemma RewritesExtends(p: Path, q: Path, tail: Path)
    requires Rewrites(p, q)
    ensures Rewrites(p + tail, q + tail)
  {
    var before, l, r, after :| RewritesAt(p, q, before, l, r, after);
    assert p + tail == before + l + (after + tail);
    assert q + tail == before + r + (after + tail);
    assert RewritesAt(p + tail, q + tail, before, l, r, after + tail);
  }

  lemma {:induction false} EqualExtends(p: Path, via: seq<Path>, q: Path, tail: Path)
    requires DerivedVia(p, via, q)
    ensures Equal(p + tail, q + tail)
    decreases |via|
  {
    if via == [] {
      assert DerivedVia(p + tail, [], q + tail);
    } else {
      EqualExtends(via[0], via[1..], q, tail);
      RewritesExtends(p, via[0], tail);
      EqualOneStep(p + tail, via[0] + tail);
      EqualTransitive(p + tail, via[0] + tail, q + tail);
    }
  }

  /** `Push` is a use of at most two equations at the end of the path. */
  lemma PushIsEqual(out: Path, seg: Segment)
    ensures Equal(out + [seg], Push(out, seg))
  {
    var p := out + [seg];
    var q := Push(out, seg);
    if p == q {
      assert DerivedVia(p, [], q);
    } else if seg.Offset? && (EndsInValue(out) || EndsInOffset(out)) {
      var l := [Last(out), seg];
      assert p == Init(out) + l + [];
      if EndsInValue(out) {
        assert q == Init(out) + [Value] + [];
        assert RewritesAt(p, q, Init(out), l, [Value], []);
        EqualOneStep(p, q);
      } else {
        var sum := Offset(WrapAdd(Last(out).k, seg.k));
        var mid := Init(out) + [sum];
        assert mid == Init(out) + [sum] + [];
        OnlySum(Last(out).k, seg.k, sum.k);
        assert RewritesAt(p, mid, Init(out), l, [sum], []);
        EqualOneStep(p, mid);
        if mid != q {
          assert q == Init(out) + [] + [];
          assert RewritesAt(mid, q, Init(out), [sum], [], []);
          EqualOneStep(mid, q);
          EqualTransitive(p, mid, q);
        }
      }
    } else if seg.Offset? {
      assert q == out + [] + [];
      assert p == out + [Offset(0)] + [];
      assert RewritesAt(p, q, out, [Offset(0)], [], []);
      EqualOneStep(p, q);
    } else {
      PushValueIsEqual(out);
    }
  }

  lemma PushValueIsEqual(out: Path)
    requires EndsInOffset(out) || EndsInValue(out)
    ensures Equal(out + [Value], Push(out, Value))
  {
    var p := out + [Value];
    var mid := Init(out) + [Value];
    var l := [Last(out), Value];
    assert p == Init(out) + l + [];
    assert mid == Init(out) + [Value] + [];
    assert RewritesAt(p, mid, Init(out), l, [Value], []);
    EqualOneStep(p, mid);
    if EndsInOffset(out) && EndsInValue(Init(out)) {
      var base := Init(out);
      var q := base;
      assert mid == Init(base) + [Value, Value] + [];
      assert q == Init(base) + [Value] + [];
      assert RewritesAt(mid, q, Init(base), [Value, Value], [Value], []);
      EqualOneStep(mid, q);
      EqualTransitive(p, mid, q);
    } else {
      assert Push(out, Value) == mid;
    }
  }

  /** Every path equals its normal form in the theory. */
  lemma {:induction false} EqualsNormalForm(p: Path)
    ensures Equal(p, NormalForm(p))
    decreases |p|
  {
    if p == [] {
      assert DerivedVia(p, [], p);
    } else {
      var out := NormalForm(Init(p));
      EqualsNormalForm(Init(p));
      var via :| DerivedVia(Init(p), via, out);
      EqualExtends(Init(p), via, out, [Last(p)]);
      assert Init(p) + [Last(p)] == p;
      PushIsEqual(out, Last(p));
      PushAllSnoc([], Init(p), Last(p));
      EqualTransitive(p, out + [Last(p)], NormalForm(p));
    }
  }

  lemma PushTwoOffsets(out: Path, i: i64, j: i64)
    requires Normal(out)
    ensures Push(Push(out, Offset(i)), Offset(j)) == Push(out, Offset(WrapAdd(i, j)))
  {
    if EndsInOffset(out) {
      var base := Init(out);
      assert base != [] ==> !Elastic(Last(base));
      var k := Last(out).k;
      assert WrapAdd(WrapAdd(k, i), j) == WrapAdd(k, WrapAdd(i, j));
      if WrapAdd(k, i) == 0 {
        assert Push(out, Offset(i)) == base;
        assert WrapAdd(k, WrapAdd(i, j)) == j;
      } else {
        assert Init(base + [Offset(WrapAdd(k, i))]) == base;
      }
    } else if !EndsInValue(out) && i != 0 {
      assert Init(out + [Offset(i)]) == out;
    }
  }

  lemma PushOffsetValue(out: Path, k: i64)
    requires Normal(out)
    ensures Push(Push(out, Offset(k)), Value) == Push(out, Value)
  {
  }

  lemma PushValueElastic(out: Path, s: Segment)
    requires Normal(out) && Elastic(s)
    ensures Push(Push(out, Value), s) == Push(out, Value)
  {
    assert EndsInValue(Push(out, Value));
  }

  /** Both sides of an equation act alike on every normal path. */
  lemma EquationSound(out: Path, l: Path, r: Path)
    requires Normal(out) && Equation(l, r)
    ensures PushAll(out, l) == PushAll(out, r)
  {
    if |l| == 2 {
      assert l == [l[0], l[1]];
      PushAllTwo(out, l[0], l[1]);
      PushAllOne(out, r[0]);
      assert r == [r[0]];
      if l[0] == Value {
        PushValueElastic(out, l[1]);
      } else if l[1] == Value {
        PushOffsetValue(out, l[0].k);
      } else {
        OnlySum(l[0].k, l[1].k, r[0].k);
        PushTwoOffsets(out, l[0].k, l[1].k);
      }
    } else {
      PushAllOne(out, Offset(0));
      if EndsInOffset(out) {
        assert Init(out) + [Last(out)] == out;
      }
    }
  }

  lemma PushAllOne(out: Path, a: Segment)
    ensures PushAll(out, [a]) == Push(out, a)
  {
    assert [a][1..] == [];
  }

  lemma PushAllTwo(out: Path, a: Segment, b: Segment)
    ensures PushAll(out, [a, b]) == Push(Push(out, a), b)
  {
    PushAllSnoc(out, [a], b);
    assert [a] + [b] == [a, b];
    PushAllOne(out, a);
  }

  lemma RewritesSound(out: Path, p: Path, q: Path)
    requires Normal(out) && Rewrites(p, q)
    ensures PushAll(out, p) == PushAll(out, q)
  {
    var before, l, r, after :| RewritesAt(p, q, before, l, r, after);
    var mid := PushAll(out, before);
    PushAllNormal(out, before);
    if Equation(l, r) {
      EquationSound(mid, l, r);
    } else {
      EquationSound(mid, r, l);
    }
    PushAllSplit(out, before + l, after);
    PushAllSplit(out, before, l);
    PushAllSplit(out, before + r, after);
    PushAllSplit(out, before, r);
  }

  lemma {:induction false} DerivedSound(out: Path, p: Path, via: seq<Path>, q: Path)
    requires Normal(out) && DerivedVia(p, via, q)
    ensures PushAll(out, p) == PushAll(out, q)
    decreases |via|
  {
    if via != [] {
      RewritesSound(out, p, via[0]);
      DerivedSound(out, via[0], via[1..], q);
    }
  }

  /** The normal form decides the theory: soundness and completeness in one statement. */
  lemma NormalFormDecides(p: Path, q: Path)
    ensures Equal(p, q) <==> NormalForm(p) == NormalForm(q)
  {
    if Equal(p, q) {
      var via :| DerivedVia(p, via, q);
      DerivedSound([], p, via, q);
    }
    if NormalForm(p) == NormalForm(q) {
      EqualsNormalForm(p);
      EqualsNormalForm(q);
      var via :| DerivedVia(q, via, NormalForm(q));
      EqualSymmetricVia(q, via, NormalForm(q));
      EqualTransitive(p, NormalForm(q), q);
    }
  }

  /** Normalizing either part first, or neither, gives the same composition. */
  lemma ConcatNormalizes(p: Path, q: Path)
    ensures Concat(NormalForm(p), NormalForm(q)) == NormalForm(p + q)
    ensures Concat(NormalForm(p), q) == NormalForm(p + q)
  {
    PushAllSplit([], p, q);
    EqualsNormalForm(q);
    var via :| DerivedVia(q, via, NormalForm(q));
    NormalFormIsNormal(p);
    DerivedSound(NormalForm(p), q, via, NormalForm(q));
  }

  lemma ConcatOfNormal(p: Path, q: Path)
    requires Normal(p) && Normal(q)
    ensures Concat(p, q) == NormalForm(p + q)
    ensures Normal(Concat(p, q))
  {
    NormalFormOfNormal(p);
    NormalFormOfNormal(q);
    ConcatNormalizes(p, q);
    PushAllNormal(p, q);
  }

  /** Normal paths form a monoid under composition, cancellation and absorption included. */
  lemma ConcatMonoid(a: Path, b: Path, c: Path)
    requires Normal(a) && Normal(b) && Normal(c)
    ensures Normal(Concat(a, b))
    ensures Concat(Concat(a, b), c) == Concat(a, Concat(b, c))
    ensures Concat([], a) == a && Concat(a, []) == a
  {
    ConcatOfNormal(a, b);
    ConcatOfNormal(b, c);
    calc {
      Concat(Concat(a, b), c);
    ==
      Concat(NormalForm(a + b), c);
    == { ConcatNormalizes(a + b, c); }
      NormalForm(a + b + c);
    == { assert a + b + c == a + (b + c); }
      NormalForm(a + (b + c));
    == { ConcatNormalizes(a, b + c); NormalFormOfNormal(a); }
      Concat(a, NormalForm(b + c));
    }
    NormalFormOfNormal(a);
  }
}
