/**
 A shard's bump arena: unsized values are copied into geometrically growing chunks, none of them
 across a chunk's end, and are read back by offset and length without a lock.
 */
module BumpArena {
  import opened Wrappers
  import opened IdArithmetic
  import opened GeometricMemory

  datatype Span = Span(off: nat, len: nat)

  /** A completed store. */
  datatype Stored<U> = Stored(span: Span, contents: seq<U>)

  /** The spans share no unit. */
  predicate Disjoint(a: Span, b: Span) {
    a.off + a.len <= b.off || b.off + b.len <= a.off || a.len == 0 || b.len == 0
  }

  predicate InsideOneChunk(s: Span) {
    var (c, i) := Split(s.off, LOG2_FIRST_CHUNK);
    i + s.len <= Pow2(LOG2_FIRST_CHUNK + c)
  }

  /** A value of `n` units may go to `off`: at the cursor or at the start of a later chunk, inside one chunk. */
  ghost predicate FitsAt(next: nat, n: nat, off: nat) {
    && next <= off < TWO_TO_THE_32
    && InsideOneChunk(Span(off, n))
    && (off == next || Split(off, LOG2_FIRST_CHUNK).1 == 0)
  }

  /** An arena with its cursor at `next` has a place for `n` units. */
  ghost predicate HasRoom(next: nat, n: nat) {
    n < TWO_TO_THE_32 && (n == 0 || exists off :: FitsAt(next, n, off))
  }

  /** Where `n` units go: the first place there is. */
  ghost predicate FirstFit(next: nat, n: nat, off: nat) {
    FitsAt(next, n, off) && forall other :: FitsAt(next, n, other) ==> off <= other
  }

  /** Storing `n` units moves the cursor from `next` to `after`: past the first place, or to the end for want of one. */
  ghost predicate CursorMoves(next: nat, n: nat, after: nat) {
    if n == 0 || n >= TWO_TO_THE_32 then after == next
    else if HasRoom(next, n) then after >= n && FirstFit(next, n, after - n)
    else after >= TWO_TO_THE_32
  }

  /** What does not fit in the rest of the cursor's chunk fits nowhere before the next one. */
  lemma SkipsNoPlace(start: nat, next: nat, n: nat, off: nat)
    requires FitsAt(start, n, off) && next <= off
    requires var (c, i) := Split(next, LOG2_FIRST_CHUNK); i + n > Pow2(LOG2_FIRST_CHUNK + c)
    ensures var (c, i) := Split(next, LOG2_FIRST_CHUNK); next + (Pow2(LOG2_FIRST_CHUNK + c) - i) <= off
  {
    hide Split, Pow2;
    SplitSuccessor(next, off - next, LOG2_FIRST_CHUNK);
  }

  /** The span, which ends at or below the cursor `next`, reads back exactly these contents. */
  ghost predicate Holds<U>(chunks: seq<Block<U>>, next: nat, s: Stored<U>) {
    && s.span.len == |s.contents|
    && s.span.off < TWO_TO_THE_32
    && s.span.off + s.span.len <= next
    && InsideOneChunk(s.span)
    && Contains(chunks, LOG2_FIRST_CHUNK, s.span.off, s.contents)
  }

  class Bump<U> {
    var chunks: seq<Block<U>>
    /** The next free offset. */
    var next: nat
    /** Every store so far, oldest first. */
    ghost var stored: seq<Stored<U>>

    /** No store overlaps another, and every one still reads back what it was given. */
    ghost predicate Valid()
      reads this
    {
      && |chunks| == CHUNKS && WellSized(chunks, LOG2_FIRST_CHUNK)
      && (forall j :: 0 <= j < |stored| ==> Holds(chunks, next, stored[j]))
      && (forall j, k :: 0 <= j < k < |stored| ==> Disjoint(stored[j].span, stored[k].span))
    }

    constructor ()
      ensures Valid() && stored == [] && next == 0
    {
      chunks := seq(CHUNKS, _ => Null);
      next := 0;
      stored := [];
    }

    /**
     `store_slice`: copies `v` to the first place there is, and fails exactly when there is none. A
     failed store loses nothing, but one for want of a place leaves the arena without any.
     */
    method StoreSlice(v: seq<U>) returns (r: Option<Span>)
      requires Valid()
      modifies this
      ensures Valid()
      ensures r.Some? <==> HasRoom(old(next), |v|)
      ensures r.Some? ==> r.value.off < TWO_TO_THE_32 && r.value.len == |v| && InsideOneChunk(r.value)
      ensures r.Some? ==> r.value.off == if v == [] then 0 else next - |v|
      ensures CursorMoves(old(next), |v|, next)
      ensures stored == if r.Some? then old(stored) + [Stored(r.value, v)] else old(stored)
    {
      hide Split, Pow2, CellAt;
      if |v| >= TWO_TO_THE_32 {
        return None;
      }
      if |v| == 0 {
        assert InsideOneChunk(Span(0, 0));
        stored := stored + [Stored(Span(0, 0), v)];
        return Some(Span(0, 0));
      }
      while true
        invariant Valid() && stored == old(stored)
        invariant old(next) <= next && (next == old(next) || Split(next, LOG2_FIRST_CHUNK).1 == 0)
        invariant forall off :: FitsAt(old(next), |v|, off) ==> next <= off
        decreases CHUNKS - Split(next, LOG2_FIRST_CHUNK).0
      {
        var (c, i) := Split(next, LOG2_FIRST_CHUNK);
        if c >= CHUNKS {
          BucketsAndChunksSuffice();
          return None;
        }
        var size := Pow2(LOG2_FIRST_CHUNK + c);
        if i + |v| > size {
          forall off | FitsAt(old(next), |v|, off)
            ensures next + (size - i) <= off
          {
            SkipsNoPlace(old(next), next, |v|, off);
          }
          SplitSuccessor(next, size - i, LOG2_FIRST_CHUNK);
          next := next + (size - i);
          continue;
        }
        if next >= TWO_TO_THE_32 {
          return None;
        }
        assert FitsAt(old(next), |v|, next);
        r := Some(Span(next, |v|));
        WriteUnits(v);
        return;
      }
    }

    /** Writes the units at the cursor, in the chunk it stands in. */
    method WriteUnits(v: seq<U>)
      requires Valid() && next < TWO_TO_THE_32
      requires var (c, i) := Split(next, LOG2_FIRST_CHUNK);
        c < CHUNKS && i + |v| <= Pow2(LOG2_FIRST_CHUNK + c)
      modifies this
      ensures Valid()
      ensures next == old(next) + |v|
      ensures stored == old(stored) + [Stored(Span(old(next), |v|), v)]
    {
      hide Split, Pow2, Contains;
      chunks := Write(chunks, LOG2_FIRST_CHUNK, next, v);
      next := next + |v|;
      stored := stored + [Stored(Span(old(next), |v|), v)];
      WriteIsRead(old(chunks), chunks, LOG2_FIRST_CHUNK, old(next), v);
      forall j | 0 <= j < |old(stored)|
        ensures Holds(chunks, next, stored[j]) && Disjoint(stored[j].span, Span(old(next), |v|))
      {
        assert old(Holds(chunks, next, stored[j]));
        WriteKeepsOlder(old(chunks), chunks, LOG2_FIRST_CHUNK, old(next), v, stored[j].span.off, stored[j].contents);
      }
    }

    /** `load_slice`: an earlier store's span reads back its contents, from one chunk. */
    method LoadSlice(span: Span, ghost contents: seq<U>) returns (v: seq<U>)
      requires Valid() && Stored(span, contents) in stored
      ensures v == contents
    {
      hide Split, Pow2, Contains;
      assert Holds(chunks, next, Stored(span, contents));
      v := Read(chunks, LOG2_FIRST_CHUNK, span.off, span.len, contents);
    }
  }
}
