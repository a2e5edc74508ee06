/**
 Paths as handles: each cons cell is interned, so a path is the id of its first cell, and the
 empty path is a reserved number. Handles are compared instead of paths; this is sound because
 every run of the interner keeps them canonical.
 */
module PathHandles {
  import opened Wrappers
  import opened Ordering
  import opened IdArithmetic
  import opened PathAlgebra
  import opened InternProtocol

  /** `None` is the empty path. */
  type Handle = Option<Id>

  /** One cons cell: the first segment and the handle of the rest. */
  datatype PathNode = PathNode(head: Segment, tail: Handle)

  type Cells = State<PathNode>

  /** `cons` interns a cell only on top of a handle its caller holds. */
  function ConsConfig(log2S: nat, limit: nat, hash: PathNode -> nat): Config<PathNode> {
    Config(log2S, limit, hash, (held: set<Id>, node: PathNode) => node.tail.None? || node.tail.value in held)
  }

  /** The bits of a handle: a reserved value for the empty path, else the id's. */
  function Bits(h: Handle, log2S: nat): nat {
    match h
    case None => 1
    case Some(id) => Encode(id.shard, id.local, log2S)
  }

  /** Following the handle cell by cell reads the path `p`. */
  predicate Denotes(s: Cells, h: Handle, p: Path)
    decreases |p|
  {
    match h
    case None => p == []
    case Some(id) =>
      && Named(s, id) && p != []
      && ValueOf(s, id).head == p[0]
      && Denotes(s, ValueOf(s, id).tail, p[1..])
  }

  // ------------------------------------------------------------------------
  // Well-founded cells
  // ------------------------------------------------------------------------

  ghost predicate TailBefore(s: Cells, i: nat)
    requires i < |s.order|
  {
    && Named(s, s.order[i])
    && var tail := ValueOf(s, s.order[i]).tail;
       tail.None? || tail.value in s.order[..i]
  }

  /** Every cell was written after the cell its tail names. */
  ghost predicate CellsInv(s: Cells) {
    && (forall id :: Named(s, id) ==> id in s.order)
    && (forall i :: 0 <= i < |s.order| ==> TailBefore(s, i))
    && (forall t :: t in s.threads && !s.threads[t].pc.Idle? && s.threads[t].pc.v.tail.Some? ==>
          Named(s, s.threads[t].pc.v.tail.value))
  }

  lemma StepKeepsCells(c: Config<PathNode>, s: Cells, step: Step<PathNode>)
    requires c == ConsConfig(c.log2S, c.limit, c.hash)
    requires Inv(c, s) && CellsInv(s) && Enabled(c, s, step)
    ensures CellsInv(Next(c, s, step))
  {
    hide Inv, Enabled, Next, Extends, TailBefore;
    var s' := Next(c, s, step);
    StepKeepsInv(c, s, step);
    NewNames(c, s, step);
    forall i | 0 <= i < |s'.order|
      ensures TailBefore(s', i)
    {
      StepKeepsOrder(c, s, step, i);
    }
    forall t | t in s'.threads && !s'.threads[t].pc.Idle? && s'.threads[t].pc.v.tail.Some?
      ensures Named(s', s'.threads[t].pc.v.tail.value)
    {
      StepKeepsTails(c, s, step, t);
      ExtendsKeepsNames(s, s', s'.threads[t].pc.v.tail.value);
    }
  }

  /** A new cell's tail is older: its thread held it before it called. */
  lemma StepKeepsOrder(c: Config<PathNode>, s: Cells, step: Step<PathNode>, i: nat)
    requires Inv(c, s) && CellsInv(s) && Enabled(c, s, step) && i < |Next(c, s, step).order|
    ensures TailBefore(Next(c, s, step), i)
  {
    hide Inv, Next, Extends;
    var s' := Next(c, s, step);
    StepKeepsInv(c, s, step);
    NewNames(c, s, step);
    if i < |s.order| {
      assert TailBefore(s, i) && s'.order[i] == s.order[i] && s'.order[..i] == s.order[..i];
      ExtendsKeepsNames(s, s', s.order[i]);
    } else {
      assert s'.order[..i] == s.order;
    }
  }

  /** The value a thread interns has a tail that is named already. */
  lemma StepKeepsTails(c: Config<PathNode>, s: Cells, step: Step<PathNode>, t: Tid)
    requires c == ConsConfig(c.log2S, c.limit, c.hash)
    requires Inv(c, s) && CellsInv(s) && Enabled(c, s, step)
    requires var s' := Next(c, s, step);
      t in s'.threads && !s'.threads[t].pc.Idle? && s'.threads[t].pc.v.tail.Some?
    ensures Named(s, Next(c, s, step).threads[t].pc.v.tail.value)
  {
    hide Pow2, Decode, Config.ShardOf, ShardInv, ThreadInv, ShardAfter, Named, Accepted, TailBefore, OpEnabled, Given;
  }

  /** A step names at most one new id, which it records; it is the next slot of its shard. */
  lemma NewNames(c: Config<PathNode>, s: Cells, step: Step<PathNode>)
    requires Inv(c, s) && Enabled(c, s, step)
    ensures var s' := Next(c, s, step);
      if step.Write? && step.op.WriteSlot? then
        var id := Id(At(c, s, step), s.shards[At(c, s, step)].len);
        && s'.order == s.order + [id]
        && Named(s', id) && ValueOf(s', id) == s.threads[step.t].pc.v
        && forall other :: Named(s', other) ==> other == id || Named(s, other)
      else
        && s'.order == s.order
        && forall other :: Named(s', other) ==> Named(s, other)
  {
    hide Pow2, Decode, Config.ShardOf, ThreadInv, IdsInv;
    assert ShardInv(c, At(c, s, step), s.shards[At(c, s, step)]);
  }

  /** In every reachable state, every cell was written after its tail. */
  lemma {:induction false} RunKeepsCells(c: Config<PathNode>, run: seq<Cells>, steps: seq<Step<PathNode>>, i: nat)
    requires c == ConsConfig(c.log2S, c.limit, c.hash)
    requires IsRun(c, run, steps) && i < |run|
    ensures Inv(c, run[i]) && CellsInv(run[i])
  {
    hide Inv, Enabled, Next, CellsInv;
    RunKeepsInv(c, run, steps, i);
    if i == 0 {
      InitCells(c, run[0]);
    } else {
      RunKeepsCells(c, run, steps, i - 1);
      assert Enabled(c, run[i - 1], steps[i - 1]) && run[i - 1 + 1] == Next(c, run[i - 1], steps[i - 1]);
      StepKeepsCells(c, run[i - 1], steps[i - 1]);
    }
  }

  lemma InitCells(c: Config<PathNode>, s: Cells)
    requires InternProtocol.Init(c, s)
    ensures CellsInv(s)
  {
    hide Pow2;
  }

  // ------------------------------------------------------------------------
  // Canonical handles
  // ------------------------------------------------------------------------

  /** Every handle denotes a path: its cells run out. */
  lemma {:induction false} CellDenotes(s: Cells, i: nat) returns (p: Path)
    requires CellsInv(s) && i < |s.order|
    ensures Denotes(s, Some(s.order[i]), p)
  {
    assert TailBefore(s, i);
    var node := ValueOf(s, s.order[i]);
    var rest: Path := [];
    if node.tail.Some? {
      var j :| 0 <= j < i && s.order[j] == node.tail.value;
      rest := CellDenotes(s, j);
    }
    p := [node.head] + rest;
    assert p[1..] == rest;
  }

  lemma {:induction false} SameCellSamePath(s: Cells, h: Handle, p: Path, q: Path)
    requires Denotes(s, h, p) && Denotes(s, h, q)
    ensures p == q
    decreases |p|
  {
    if h.Some? {
      SameCellSamePath(s, ValueOf(s, h.value).tail, p[1..], q[1..]);
      assert p == [p[0]] + p[1..] && q == [q[0]] + q[1..];
    }
  }

  lemma {:induction false} SamePathSameCell(c: Config<PathNode>, s: Cells, a: Handle, b: Handle, p: Path)
    requires Inv(c, s) && Denotes(s, a, p) && Denotes(s, b, p)
    ensures a == b
    decreases |p|
  {
    hide Inv;
    if p != [] {
      SamePathSameCell(c, s, ValueOf(s, a.value).tail, ValueOf(s, b.value).tail, p[1..]);
      OneSlotPerValue(c, s, a.value, b.value);
    }
  }

  /** Slots are never overwritten, so a handle keeps denoting its path. */
  lemma {:induction false} DenotesLater(s: Cells, s': Cells, h: Handle, p: Path)
    requires Extends(s, s') && Denotes(s, h, p)
    ensures Denotes(s', h, p)
    decreases |p|
  {
    hide Extends;
    if h.Some? {
      ExtendsKeepsNames(s, s', h.value);
      DenotesLater(s, s', ValueOf(s, h.value).tail, p[1..]);
    }
  }

  lemma HandleDenotes(c: Config<PathNode>, s: Cells, a: Handle) returns (p: Path)
    requires Inv(c, s) && CellsInv(s) && (a.Some? ==> Named(s, a.value))
    ensures Denotes(s, a, p)
  {
    hide Inv;
    if a.Some? {
      var j :| 0 <= j < |s.order| && s.order[j] == a.value;
      p := CellDenotes(s, j);
    } else {
      p := [];
    }
  }

  /**
   In every run: a handle that is empty or names a cell denotes exactly one path, now and in every later
   state, and two handles, however far apart in the run, are equal exactly when their paths are.
   */
  lemma HandlesCanonical(
    c: Config<PathNode>, run: seq<Cells>, steps: seq<Step<PathNode>>, i: nat, j: nat, a: Handle, b: Handle)
    requires c == ConsConfig(c.log2S, c.limit, c.hash)
    requires IsRun(c, run, steps) && i <= j < |run|
    requires (a.Some? ==> Named(run[i], a.value)) && (b.Some? ==> Named(run[j], b.value))
    ensures exists p: Path :: Denotes(run[i], a, p) && Denotes(run[j], a, p)
    ensures forall p: Path, q: Path :: Denotes(run[i], a, p) && Denotes(run[j], b, q) ==> (a == b <==> p == q)
  {
    hide Inv, IsRun, CellsInv, Extends;
    RunKeepsCells(c, run, steps, i);
    RunKeepsCells(c, run, steps, j);
    RunExtends(c, run, steps, i, j);
    var known := HandleDenotes(c, run[i], a);
    DenotesLater(run[i], run[j], a, known);
    forall p: Path, q: Path | Denotes(run[i], a, p) && Denotes(run[j], b, q)
      ensures a == b <==> p == q
    {
      DenotesLater(run[i], run[j], a, p);
      if a == b {
        SameCellSamePath(run[j], a, p, q);
      }
      if p == q {
        SamePathSameCell(c, run[j], a, b, p);
      }
    }
  }

  // ------------------------------------------------------------------------
  // Building paths
  // ------------------------------------------------------------------------

  /** `cons`: the id the interner answers for a cell denotes the head in front of the tail's path. */
  lemma ConsDenotes(c: Config<PathNode>, s: Cells, node: PathNode, id: Id, p: Path)
    requires Inv(c, s) && (node, id) in s.answers && Denotes(s, node.tail, p)
    ensures Denotes(s, Some(id), [node.head] + p)
  {
    hide Pow2, Config.ShardOf, ShardInv, ThreadInv;
    assert ([node.head] + p)[1..] == p;
  }

  /**
   A thread that holds the handle of a tail, or starts from the empty path, can `cons` a segment in front
   of it whenever the cell's shard is free and has room, and ends up holding a handle of the longer path.
   */
  lemma ConsCompletes(c: Config<PathNode>, s: Cells, t: Tid, head: Segment, tail: Handle, p: Path)
    returns (run: seq<Cells>, steps: seq<Step<PathNode>>, id: Id)
    requires c == ConsConfig(c.log2S, c.limit, c.hash) && Inv(c, s) && Denotes(s, tail, p)
    requires t in s.threads && s.threads[t].pc.Idle? && (tail.Some? ==> tail.value in s.threads[t].held)
    requires Free(c, s, PathNode(head, tail))
    ensures IsSolo(c, t, run, steps) && run[0] == s
    ensures t in run[|steps|].threads && id in run[|steps|].threads[t].held
    ensures Denotes(run[|steps|], Some(id), [head] + p)
  {
    hide Inv, Free, Enabled, Next, Extends, IsSolo;
    var node := PathNode(head, tail);
    run, steps := InternCompletes(c, s, t, node);
    SoloLength(c, t, run, steps);
    SoloKeeps(c, t, run, steps, |steps|);
    var last := run[|steps|];
    id :| (node, id) in last.answers && id in last.threads[t].held;
    DenotesLater(s, last, tail, p);
    ConsDenotes(c, last, node, id, p);
  }

  /** The handles of a path's suffixes, each the answer to its own `cons`, the empty path's last. */
  ghost predicate Folded(s: Cells, p: Path, handles: seq<Handle>) {
    && |handles| == |p| + 1 && handles[|p|].None?
    && forall k :: 0 <= k < |p| ==>
         handles[k].Some? && (PathNode(p[k], handles[k + 1]), handles[k].value) in s.answers
  }

  lemma {:induction false} FoldDenotes(c: Config<PathNode>, s: Cells, p: Path, handles: seq<Handle>, k: nat)
    requires Inv(c, s) && Folded(s, p, handles) && k <= |p|
    ensures Denotes(s, handles[k], p[k..])
    decreases |p| - k
  {
    hide Inv;
    if k < |p| {
      FoldDenotes(c, s, p, handles, k + 1);
      ConsDenotes(c, s, PathNode(p[k], handles[k + 1]), handles[k].value, p[k + 1..]);
      assert p[k..] == [p[k]] + p[k + 1..];
    }
  }

  /**
   `from_accesses`, end to end: build the handles of two segment sequences, each by normalizing it and
   folding `cons` over it, at any two points of any run. The handles are equal exactly when the sequences
   are equal under the equations on paths.
   */
  lemma HandlesDecideEqual(
    c: Config<PathNode>, run: seq<Cells>, steps: seq<Step<PathNode>>, i: nat, j: nat,
    p: Path, q: Path, a: seq<Handle>, b: seq<Handle>)
    requires c == ConsConfig(c.log2S, c.limit, c.hash)
    requires IsRun(c, run, steps) && i <= j < |run|
    requires Folded(run[i], NormalForm(p), a) && Folded(run[j], NormalForm(q), b)
    ensures Denotes(run[i], a[0], NormalForm(p)) && Denotes(run[j], b[0], NormalForm(q))
    ensures a[0] == b[0] <==> PathAlgebra.Equal(p, q)
  {
    hide Inv, IsRun, NormalForm, PathAlgebra.Equal;
    RunKeepsInv(c, run, steps, i);
    RunKeepsInv(c, run, steps, j);
    FoldDenotes(c, run[i], NormalForm(p), a, 0);
    FoldDenotes(c, run[j], NormalForm(q), b, 0);
    assert NormalForm(p)[0..] == NormalForm(p) && NormalForm(q)[0..] == NormalForm(q);
    HandlesCanonical(c, run, steps, i, j, a[0], b[0]);
    NormalFormDecides(p, q);
  }

  /** With more than one shard, the empty path's bits are no id's, and distinct handles have distinct bits. */
  lemma BitsInjective(c: Config<PathNode>, s: Cells, a: Handle, b: Handle)
    requires c.Valid() && 1 <= c.log2S && Inv(c, s)
    requires (a.Some? ==> Named(s, a.value)) && (b.Some? ==> Named(s, b.value))
    ensures Bits(a, c.log2S) == Bits(b, c.log2S) <==> a == b
    ensures Bits(a, c.log2S) == 1 <==> a.None?
  {
    hide Pow2, Encode, Decode, Config.ShardOf, ThreadInv, IdsInv;
    if a.Some? {
      IdBits(c, s, a.value);
    }
    if b.Some? {
      IdBits(c, s, b.value);
    }
  }

  lemma IdBits(c: Config<PathNode>, s: Cells, id: Id)
    requires c.Valid() && 1 <= c.log2S && Inv(c, s) && Named(s, id)
    ensures Decode(Encode(id.shard, id.local, c.log2S), c.log2S) == (id.shard, id.local)
    ensures Encode(id.shard, id.local, c.log2S) > 1
  {
    hide Decode, Config.ShardOf, ThreadInv, IdsInv, Pow2;
    assert ShardInv(c, id.shard, s.shards[id.shard]);
    EncodeDecode(Encode(id.shard, id.local, c.log2S), id.shard, id.local, c.log2S);
    Pow2Increases(1, c.log2S);
    TwoIsPow2();
    MulGrows(id.local + 1, Pow2(c.log2S));
  }

  lemma TwoIsPow2()
    ensures Pow2(1) == 2
  {
    assert Pow2(0) == 1;
  }

  // ------------------------------------------------------------------------
  // Ordering by content
  // ------------------------------------------------------------------------

  function CompareInts(a: int, b: int): Ordering {
    if a < b then Less else if a > b then Greater else Equal
  }

  function CompareChars(a: char, b: char): Ordering {
    CompareInts(a as int, b as int)
  }

  function Rank(s: Segment): nat {
    match s
    case Field(_) => 0
    case Offset(_) => 1
    case Deref => 2
    case Value => 3
  }

  /** The derived order of segments: by kind, then by contents. */
  function CompareSegments(a: Segment, b: Segment): Ordering {
    if a.Field? && b.Field? then Lex(CompareChars, a.name, b.name)
    else if a.Offset? && b.Offset? then CompareInts(a.k, b.k)
    else CompareInts(Rank(a), Rank(b))
  }

  function ComparePaths(p: Path, q: Path): Ordering {
    Lex(CompareSegments, p, q)
  }

  lemma SegmentsTotal()
    ensures TotalOrder(CompareSegments)
  {
    assert TotalOrder(CompareChars);
    forall a: Segment, b: Segment
      ensures CompareSegments(a, b) == Equal <==> a == b
      ensures CompareSegments(a, b) == Less <==> CompareSegments(b, a) == Greater
    {
      if a.Field? && b.Field? {
        LexEqual(CompareChars, a.name, b.name);
      }
    }
    forall a: Segment, b: Segment, c: Segment | CompareSegments(a, b) == Less && CompareSegments(b, c) == Less
      ensures CompareSegments(a, c) == Less
    {
      if a.Field? && b.Field? && c.Field? {
        LexTransitive(CompareChars, a.name, b.name, c.name);
      }
    }
  }

  /** The order of paths by content is a total order. */
  lemma PathsTotal()
    ensures TotalOrder((p: Path, q: Path) => ComparePaths(p, q))
  {
    SegmentsTotal();
    LexTotal(CompareSegments);
    assert forall p: Path, q: Path ::
      ((a: Path, b: Path) => Lex(CompareSegments, a, b))(p, q) == ComparePaths(p, q);
  }

  // What the order is, without the comparison functions.

  /** The first `i` characters agree; there `a` ends and `b` does not, or `a` has the smaller character. */
  ghost predicate NameFirstLess(a: string, b: string, i: nat) {
    && i <= |a| && i <= |b| && a[..i] == b[..i]
    && (if i < |a| then i < |b| && a[i] < b[i] else i < |b|)
  }

  /** Fields come first, then offsets, then `deref`, then `#value`; names by character, offsets by number. */
  ghost predicate SegmentLess(a: Segment, b: Segment) {
    match a
    case Field(name) => if b.Field? then exists i: nat :: NameFirstLess(name, b.name, i) else true
    case Offset(k) => if b.Offset? then k < b.k else b.Deref? || b.Value?
    case Deref => b.Value?
    case Value => false
  }

  /** The first `i` segments agree; there `p` ends and `q` does not, or `p` has the lesser segment. */
  ghost predicate PathFirstLess(p: Path, q: Path, i: nat) {
    && i <= |p| && i <= |q| && p[..i] == q[..i]
    && (if i < |p| then i < |q| && SegmentLess(p[i], q[i]) else i < |q|)
  }

  lemma NameOrder(a: string, b: string)
    ensures Lex(CompareChars, a, b) == Less <==> exists i: nat :: NameFirstLess(a, b, i)
  {
    assert ComparesBy(CompareChars, (x: char, y: char) => x < y);
    LexPrecedes(CompareChars, (x: char, y: char) => x < y, a, b);
    if Lex(CompareChars, a, b) == Less {
      var i: nat :| PrecedesAt((x: char, y: char) => x < y, a, b, i);
      assert NameFirstLess(a, b, i);
    }
    if i: nat :| NameFirstLess(a, b, i) {
      assert PrecedesAt((x: char, y: char) => x < y, a, b, i);
    }
  }

  lemma SegmentOrder(a: Segment, b: Segment)
    ensures CompareSegments(a, b) == Less <==> SegmentLess(a, b)
  {
    if a.Field? && b.Field? {
      NameOrder(a.name, b.name);
    }
  }

  lemma PathOrder(p: Path, q: Path)
    ensures ComparePaths(p, q) == Less <==> exists i: nat :: PathFirstLess(p, q, i)
  {
    hide Lex, CompareSegments, SegmentLess;
    var less := (x: Segment, y: Segment) => CompareSegments(x, y) == Less;
    SegmentsTotal();
    assert ComparesBy(CompareSegments, less);
    LexPrecedes(CompareSegments, less, p, q);
    if ComparePaths(p, q) == Less {
      var i: nat :| PrecedesAt(less, p, q, i);
      if i < |p| {
        SegmentOrder(p[i], q[i]);
      }
      assert PathFirstLess(p, q, i);
    }
    if i: nat :| PathFirstLess(p, q, i) {
      if i < |p| {
        SegmentOrder(p[i], q[i]);
      }
      assert PrecedesAt(less, p, q, i);
    }
  }

  lemma ContentOrder(p: Path, q: Path)
    ensures ComparePaths(p, q) == Less <==> exists i: nat :: PathFirstLess(p, q, i)
    ensures ComparePaths(p, q) == Greater <==> exists i: nat :: PathFirstLess(q, p, i)
    ensures ComparePaths(p, q) == Equal <==> p == q
  {
    hide Lex, CompareSegments, PathFirstLess;
    SegmentsTotal();
    LexEqual(CompareSegments, p, q);
    LexEqual(CompareSegments, q, p);
    PathOrder(p, q);
    PathOrder(q, p);
  }

  /** `content_cmp`: walks both handles and stops as soon as they share a suffix. */
  method ContentCmp(s: Cells, self: Handle, other: Handle, ghost p: Path, ghost q: Path) returns (r: Ordering)
    requires Denotes(s, self, p) && Denotes(s, other, q)
    ensures r == ComparePaths(p, q)
    ensures r == Less <==> exists i: nat :: PathFirstLess(p, q, i)
    ensures r == Greater <==> exists i: nat :: PathFirstLess(q, p, i)
    ensures r == Equal <==> p == q
  {
    ContentOrder(p, q);
    SegmentsTotal();
    var a, b := self, other;
    ghost var pa, pb := p, q;
    while true
      invariant Denotes(s, a, pa) && Denotes(s, b, pb)
      invariant ComparePaths(p, q) == ComparePaths(pa, pb)
      decreases |pa|
    {
      if a == b {
        SameCellSamePath(s, a, pa, pb);
        LexEqual(CompareSegments, pa, pb);
        return Equal;
      }
      if a.None? {
        return Less;
      }
      if b.None? {
        return Greater;
      }
      var x, y := ValueOf(s, a.value), ValueOf(s, b.value);
      r := CompareSegments(x.head, y.head);
      if r != Equal {
        return;
      }
      a, b := x.tail, y.tail;
      pa, pb := pa[1..], pb[1..];
    }
  }
}
