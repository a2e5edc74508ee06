/**
 Append-only memory in blocks that double in size: a shard's slot buckets and its arena's chunks.
 Cell `n` is at the place `Split` gives it; a block is null until its first cell is written.
 */
module GeometricMemory {
  import opened Wrappers
  import opened IdArithmetic

  datatype Block<T> = Null | Allocated(cells: seq<Option<T>>)

  /** Cell `n` of memory whose first block holds `Pow2(f)` cells, if it was written. */
  ghost function CellAt<T>(blocks: seq<Block<T>>, f: nat, n: nat): Option<T> {
    var (b, i) := Split(n, f);
    if b < |blocks| && blocks[b].Allocated? && i < |blocks[b].cells| then blocks[b].cells[i] else None
  }

  /** The cells from `n` on read `v`. */
  ghost predicate Contains<T>(blocks: seq<Block<T>>, f: nat, n: nat, v: seq<T>) {
    forall k :: 0 <= k < |v| ==> CellAt(blocks, f, n + k) == Some(v[k])
  }

  ghost predicate WellSized<T>(blocks: seq<Block<T>>, f: nat) {
    forall b :: 0 <= b < |blocks| && blocks[b].Allocated? ==> |blocks[b].cells| == Pow2(f + b)
  }

  /** `after` is `before` with `v` written from cell `n` on, inside one block. */
  ghost predicate WroteAt<T>(before: seq<Block<T>>, after: seq<Block<T>>, f: nat, n: nat, v: seq<T>) {
    var (b, i) := Split(n, f);
    && |before| == |after| && WellSized(before, f) && WellSized(after, f)
    && b < |after| && after[b].Allocated? && i + |v| <= |after[b].cells|
    && (forall d :: 0 <= d < |after| && d != b ==> after[d] == before[d])
    && (forall m :: 0 <= m < i && before[b].Allocated? ==> after[b].cells[m] == before[b].cells[m])
    && (forall m :: 0 <= m < |v| ==> after[b].cells[i + m] == Some(v[m]))
  }

  /** What lies below the write keeps its contents. */
  lemma WriteKeepsOlder<T>(before: seq<Block<T>>, after: seq<Block<T>>, f: nat, n: nat, v: seq<T>, m: nat, w: seq<T>)
    requires WroteAt(before, after, f, n, v)
    requires m + |w| <= n && Contains(before, f, m, w)
    ensures Contains(after, f, m, w)
  {
  }

  lemma WriteIsRead<T>(before: seq<Block<T>>, after: seq<Block<T>>, f: nat, n: nat, v: seq<T>)
    requires WroteAt(before, after, f, n, v)
    ensures Contains(after, f, n, v)
  {
    hide Split, Pow2;
    forall k | 0 <= k < |v|
      ensures CellAt(after, f, n + k) == Some(v[k])
    {
      SplitSuccessor(n, k, f);
    }
  }

  /** Allocates the block if this is its first cell, and writes `v` cell by cell. */
  method Write<T>(blocks: seq<Block<T>>, f: nat, n: nat, v: seq<T>) returns (after: seq<Block<T>>)
    requires WellSized(blocks, f)
    requires var (b, i) := Split(n, f); b < |blocks| && i + |v| <= Pow2(f + b)
    ensures WroteAt(blocks, after, f, n, v)
  {
    hide Split, Pow2;
    var (b, i) := Split(n, f);
    var old' := if blocks[b].Null? then seq(Pow2(f + b), _ => None) else blocks[b].cells;
    var cells := old';
    for k := 0 to |v|
      invariant |cells| == |old'|
      invariant forall m :: 0 <= m < k ==> cells[i + m] == Some(v[m])
      invariant forall m :: 0 <= m < |old'| && !(i <= m < i + k) ==> cells[m] == old'[m]
    {
      cells := cells[i + k := Some(v[k])];
    }
    after := blocks[b := Allocated(cells)];
  }

  /** Reads `len` cells from `n` on, which were written with `contents`, in one block. */
  method Read<T>(blocks: seq<Block<T>>, f: nat, n: nat, len: nat, ghost contents: seq<T>) returns (v: seq<T>)
    requires WellSized(blocks, f) && len == |contents|
    requires var (b, i) := Split(n, f); i + len <= Pow2(f + b)
    requires Contains(blocks, f, n, contents)
    ensures v == contents
  {
    hide Split, Pow2;
    v := [];
    if len == 0 {
      return;
    }
    var (b, i) := Split(n, f);
    assert CellAt(blocks, f, n + 0) == Some(contents[0]);
    var cells := blocks[b].cells;
    for k := 0 to len
      invariant v == contents[..k]
    {
      SplitSuccessor(n, k, f);
      assert CellAt(blocks, f, n + k) == Some(contents[k]);
      v := v + [cells[i + k].value];
    }
  }
}
