/**
 The arithmetic of the interner: geometric buckets, and ids that carry a shard in their low bits.
 A left shift by `n` is a multiplication by `Pow2(n)`.
 */
module IdArithmetic {

  const TWO_TO_THE_32: nat := 0x1_0000_0000
  /** Log2 of the slots in a shard's first bucket, and how many buckets there are. */
  const LOG2_FIRST_BUCKET: nat := 6
  const BUCKETS: nat := 27
  /** Log2 of the units in a bump arena's first chunk, and how many chunks there are. */
  const LOG2_FIRST_CHUNK: nat := 10
  const CHUNKS: nat := 23
  /** The most a shard count may be, as a power of two. */
  const MAX_LOG2_SHARDS: nat := 16

  function Pow2(n: nat): (r: nat)
    ensures r >= 1
  {
    if n == 0 then 1 else 2 * Pow2(n - 1)
  }

  function ILog2(x: nat): nat
    requires x > 0
  {
    if x < 2 then 0 else 1 + ILog2(x / 2)
  }

  lemma {:induction false} Pow2Adds(a: nat, b: nat)
    ensures Pow2(a + b) == Pow2(a) * Pow2(b)
  {
    if a > 0 {
      Pow2Adds(a - 1, b);
      assert Pow2(a) == 2 * Pow2(a - 1) && Pow2(a + b) == 2 * Pow2(a - 1 + b);
      hide Pow2;
      TwiceProduct(Pow2(a - 1), Pow2(b));
    }
  }

  lemma TwiceProduct(x: nat, y: nat)
    ensures (2 * x) * y == 2 * (x * y)
  {
  }

  lemma {:induction false} Pow2Increases(a: nat, b: nat)
    ensures a < b ==> 2 * Pow2(a) <= Pow2(b)
    ensures a <= b ==> Pow2(a) <= Pow2(b)
    decreases b
  {
    if a < b {
      Pow2Increases(a, b - 1);
    }
  }

  lemma {:induction false} ILog2Bounds(x: nat)
    requires x > 0
    ensures Pow2(ILog2(x)) <= x < 2 * Pow2(ILog2(x))
  {
    if x >= 2 {
      ILog2Bounds(x / 2);
    }
  }

  lemma ILog2Unique(x: nat, e: nat)
    requires x > 0 && Pow2(e) <= x < 2 * Pow2(e)
    ensures ILog2(x) == e
  {
  }

  lemma Pow2Values()
    ensures Pow2(10) == 1024 && Pow2(6) == 64
    ensures Pow2(16) == 0x1_0000 && Pow2(32) == TWO_TO_THE_32 && Pow2(33) == 2 * TWO_TO_THE_32
  {
    assert Pow2(6) == 64;
    assert Pow2(10) == 1024;
    Pow2Adds(10, 6);
    Pow2Adds(16, 16);
  }

  // ------------------------------------------------------------------------
  // Buckets
  // ------------------------------------------------------------------------

  /** Bucket and index of the `n`th slot, where bucket `b` holds `Pow2(f + b)` slots. */
  function Split(n: nat, f: nat): (r: (nat, nat))
    ensures r.1 < Pow2(f + r.0)
    ensures n == Pow2(f + r.0) - Pow2(f) + r.1
  {
    var x := n + Pow2(f);
    ILog2Bounds(x);
    Pow2Increases(ILog2(x), f);
    Pow2Increases(f, ILog2(x));
    var b := ILog2(x) - f;
    (b, x - Pow2(f + b))
  }

  /** The slot number of a bucket's `i`th slot. */
  function Unsplit(b: nat, i: nat, f: nat): nat {
    Pow2Increases(f, f + b);
    Pow2(f + b) - Pow2(f) + i
  }

  /** `split` is a bijection between slot numbers and places inside buckets. */
  lemma SplitBijection(n: nat, b: nat, i: nat, f: nat)
    requires i < Pow2(f + b)
    ensures Split(n, f) == (b, i) <==> n == Unsplit(b, i, f)
  {
    if n == Unsplit(b, i, f) {
      ILog2Unique(n + Pow2(f), f + b);
    }
  }

  /** The first `k` buckets hold exactly the numbers below `Pow2(f + k) - Pow2(f)`. */
  lemma SplitCovers(n: nat, f: nat, k: nat)
    ensures Split(n, f).0 < k <==> n < Pow2(f + k) - Pow2(f)
  {
    var (b, i) := Split(n, f);
    Pow2Increases(f + b, f + k);
    Pow2Increases(f + k, f + b);
  }

  /** The buckets cover every slot number and the chunks every offset; one fewer would not. */
  lemma BucketsAndChunksSuffice()
    ensures forall n: nat :: n < TWO_TO_THE_32 ==>
      Split(n, LOG2_FIRST_BUCKET).0 < BUCKETS && Split(n, LOG2_FIRST_CHUNK).0 < CHUNKS
    ensures Split(TWO_TO_THE_32 - 1, LOG2_FIRST_BUCKET).0 == BUCKETS - 1
    ensures Split(TWO_TO_THE_32 - 1, LOG2_FIRST_CHUNK).0 == CHUNKS - 1
  {
    Pow2Values();
    forall n: nat | n < TWO_TO_THE_32
      ensures Split(n, LOG2_FIRST_BUCKET).0 < BUCKETS && Split(n, LOG2_FIRST_CHUNK).0 < CHUNKS
    {
      SplitCovers(n, LOG2_FIRST_BUCKET, BUCKETS);
      SplitCovers(n, LOG2_FIRST_CHUNK, CHUNKS);
    }
    SplitCovers(TWO_TO_THE_32 - 1, LOG2_FIRST_BUCKET, BUCKETS - 1);
    SplitCovers(TWO_TO_THE_32 - 1, LOG2_FIRST_CHUNK, CHUNKS - 1);
  }

  lemma SplitSuccessor(n: nat, k: nat, f: nat)
    ensures var (b, i) := Split(n, f);
      && (i + k < Pow2(f + b) ==> Split(n + k, f) == (b, i + k))
      && (i + k == Pow2(f + b) ==> Split(n + k, f) == (b + 1, 0))
  {
    hide Split;
    var (b, i) := Split(n, f);
    if i + k < Pow2(f + b) {
      SplitBijection(n + k, b, i + k, f);
    } else if i + k == Pow2(f + b) {
      assert Pow2(f + (b + 1)) == 2 * Pow2(f + b);
      SplitBijection(n + k, b + 1, 0, f);
    }
  }

  // ------------------------------------------------------------------------
  // Ids
  // ------------------------------------------------------------------------

  /** The id of a shard's `local`th value, with `Pow2(log2S)` shards. */
  function Encode(shard: nat, local: nat, log2S: nat): nat {
    (local + 1) * Pow2(log2S) + shard
  }

  /** The shard and local index an id names; no local bits wraps to the largest `u32`. */
  function Decode(raw: nat, log2S: nat): (nat, nat) {
    DecodeAmong(raw, Pow2(log2S))
  }

  function DecodeAmong(raw: nat, shards: nat): (nat, nat)
    requires shards > 0
  {
    (raw % shards, if raw < shards then TWO_TO_THE_32 - 1 else raw / shards - 1)
  }

  /** The most values a shard may hold when every id must fit in `bits` bits. */
  function Limit(bits: nat, log2S: nat): nat
    requires log2S <= bits
  {
    Pow2(bits - log2S) - 1
  }

  /** The limit is the largest that fits: a slot is below it exactly when its id is below `Pow2(bits)`. */
  lemma LimitIsLargest(shard: nat, local: nat, log2S: nat, bits: nat)
    requires log2S <= bits && shard < Pow2(log2S)
    ensures Encode(shard, local, log2S) < Pow2(bits) <==> local < Limit(bits, log2S)
  {
    var d, room, x := Pow2(log2S), Pow2(bits - log2S), local + 1;
    assert Limit(bits, log2S) == room - 1 && Encode(shard, local, log2S) == x * d + shard;
    hide Pow2, Limit, Encode;
    Pow2Adds(bits - log2S, log2S);
    assert Pow2(bits) == room * d;
    RowsBelow(x, shard, d, room);
  }

  lemma RowsBelow(x: nat, r: nat, d: nat, room: nat)
    requires r < d
    ensures x * d + r < room * d <==> x < room
  {
    if x < room {
      assert (room - x) * d == room * d - x * d;
      MulGrows(room - x, d);
    } else {
      assert (x - room) * d == x * d - room * d;
      MulGrows(x - room, d);
    }
  }

  /** The low bits of an id are its shard. */
  lemma EncodeShard(shard: nat, local: nat, log2S: nat)
    requires shard < Pow2(log2S)
    ensures Encode(shard, local, log2S) % Pow2(log2S) == shard
  {
    hide Pow2;
    DivisionUnique(local + 1, shard, Pow2(log2S));
  }

  lemma MulGrows(x: int, d: nat)
    ensures x >= 1 ==> x * d >= d
    ensures x <= -1 ==> x * d + d <= 0
  {
  }

  lemma DivisionUnique(q: nat, r: nat, d: nat)
    requires r < d
    ensures (q * d + r) / d == q && (q * d + r) % d == r
  {
    var n := q * d + r;
    assert n == n / d * d + n % d;
    MulGrows(n / d - q, d);
    assert (n / d - q) * d == r - n % d;
  }

  lemma EncodeDecodeAmong(raw: nat, shard: nat, local: nat, d: nat)
    requires shard < d && local < TWO_TO_THE_32 - 1
    ensures DecodeAmong(raw, d) == (shard, local) <==> raw == (local + 1) * d + shard
  {
    DivisionUnique(local + 1, shard, d);
    assert raw == raw / d * d + raw % d;
    assert (local + 1) * d >= d;
  }

  /** `decode` inverts the encoding both ways, and never confuses an id with a forged one. */
  lemma EncodeDecode(raw: nat, shard: nat, local: nat, log2S: nat)
    requires shard < Pow2(log2S) && local < TWO_TO_THE_32 - 1
    ensures Decode(raw, log2S) == (shard, local) <==> raw == Encode(shard, local, log2S)
  {
    EncodeDecodeAmong(raw, shard, local, Pow2(log2S));
  }

  lemma EncodeBounds(shard: nat, local: nat, d: nat, room: nat)
    requires shard < d && local + 1 < room
    ensures d <= (local + 1) * d + shard < room * d
  {
    assert (local + 2) * d <= room * d;
    assert (local + 1) * d >= d;
  }

  /** Every id an interner limited to `bits` issues fits, is nonzero, and has local bits. */
  lemma IdsFit(shard: nat, local: nat, log2S: nat, bits: nat)
    requires log2S < bits <= 32
    requires shard < Pow2(log2S) && local < Limit(bits, log2S)
    ensures 0 < Pow2(log2S) <= Encode(shard, local, log2S) < Pow2(bits)
    ensures local < TWO_TO_THE_32 - 1
  {
    hide Pow2;
    Pow2Adds(bits - log2S, log2S);
    EncodeBounds(shard, local, Pow2(log2S), Pow2(bits - log2S));
    LimitFits(bits, log2S);
  }

  lemma LimitFits(bits: nat, log2S: nat)
    requires log2S < bits <= 32
    ensures Limit(bits, log2S) < TWO_TO_THE_32
  {
    Pow2Increases(bits - log2S, 32);
    Pow2Values();
  }

  /** A number with no local bits, zero included, decodes to an index no shard length exceeds. */
  lemma NoLocalBitsRejected(raw: nat, log2S: nat, len: nat)
    requires raw < Pow2(log2S) && len < TWO_TO_THE_32
    ensures !(Decode(raw, log2S).1 < len)
  {
  }
}
