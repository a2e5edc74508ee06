/**
 The split-block Bloom filter of a run: each key sets one bit in each of the eight 32-bit words
 of one block, as the Apache Parquet format specification has it (BloomFilter.md, section
 "Technical Approach").
 */
module Bloom {

  const BITS_PER_KEY: nat := 10
  const BLOCK_BITS: nat := 256
  const TWO_TO_THE_32: nat := 0x1_0000_0000
  const TWO_TO_THE_64: nat := 0x1_0000_0000_0000_0000

  type u32 = n: int | 0 <= n < 0x1_0000_0000

  /** A 64-bit hash by halves: the high one picks a block, the low one a bit per word. */
  datatype Hash = Hash(high: u32, low: bv32)

  type Block = b: seq<bv32> | |b| == 8 witness [0, 0, 0, 0, 0, 0, 0, 0]

  const EMPTY_BLOCK: Block := [0, 0, 0, 0, 0, 0, 0, 0]

  /** One odd multiplier per word of a block. */
  const SALT: Block := [
    0x47b6_137b, 0x4497_4d91, 0x8824_ad5b, 0xa2b7_289d,
    0x7054_95c7, 0x2df1_424b, 0x9efc_4947, 0x5c6b_fb31]

  /** The number of blocks in a filter sized for `keys` keys. */
  function BlocksFor(keys: nat): (n: nat)
    ensures n >= 1
    ensures (n - 1) * BLOCK_BITS < (if keys == 0 then 1 else keys) * BITS_PER_KEY <= n * BLOCK_BITS
  {
    var bits := (if keys == 0 then 1 else keys) * BITS_PER_KEY;
    (bits + BLOCK_BITS - 1) / BLOCK_BITS
  }

  /** Multiply-shift over the block count, in 64-bit arithmetic. */
  function BlockIndex(blocks: nat, hash: Hash): (b: nat)
    requires blocks > 0
    ensures b < blocks
  {
    var product := hash.high * blocks;
    BlockIndexInRange(hash.high, blocks);
    (product % TWO_TO_THE_64) / TWO_TO_THE_32
  }

  lemma BlockIndexInRange(high: u32, blocks: nat)
    requires blocks > 0
    ensures 0 <= high * blocks
    ensures ((high * blocks) % TWO_TO_THE_64) / TWO_TO_THE_32 < blocks
  {
  }

  /** The block is the hash's share of the blocks: its high half as a fraction of 2^32, of them. */
  lemma BlockIsShare(blocks: nat, hash: Hash)
    requires 0 < blocks <= TWO_TO_THE_32
    ensures var b := BlockIndex(blocks, hash);
      b * TWO_TO_THE_32 <= hash.high * blocks < (b + 1) * TWO_TO_THE_32
  {
    ProductFits(hash.high, blocks);
  }

  lemma ProductFits(high: u32, blocks: nat)
    requires blocks <= TWO_TO_THE_32
    ensures 0 <= high * blocks < TWO_TO_THE_64
  {
    assert high * blocks <= high * TWO_TO_THE_32;
  }

  /** The bit the top five bits of a product pick. */
  function Bit(product: bv32): (m: bv32)
    ensures m != 0
  {
    (1 as bv32) << (product >> 27)
  }

  /** Of the 32 bits exactly one is set, the one the product divided by 2^27 numbers. */
  lemma BitIs(product: bv32, k: bv32)
    requires k < 32
    ensures Bit(product) & ((1 as bv32) << k) != 0 <==> product / 0x0800_0000 == k
  {
  }

  /** One bit for each word, by the word's own odd multiplier. */
  lemma MaskIs(low: bv32, word: nat, k: bv32)
    requires word < 8 && k < 32
    ensures Mask(low, word) & ((1 as bv32) << k) != 0 <==> (low * SALT[word]) / 0x0800_0000 == k
  {
    BitIs(low * SALT[word], k);
  }

  function Mask(low: bv32, word: nat): (m: bv32)
    requires word < 8
    ensures m != 0
  {
    Bit(low * SALT[word])
  }

  /** A block with a key's bits set. */
  function Marked(block: Block, low: bv32): (r: Block)
    ensures forall i :: 0 <= i < 8 ==> r[i] == block[i] | Mask(low, i)
  {
    seq(8, i requires 0 <= i < 8 => block[i] | Mask(low, i))
  }

  /** The filter after a key with this hash is added. */
  function Insert(blocks: seq<Block>, hash: Hash): (r: seq<Block>)
    requires blocks != []
    ensures |r| == |blocks|
  {
    var b := BlockIndex(|blocks|, hash);
    blocks[b := Marked(blocks[b], hash.low)]
  }

  /** The block has all bits of the key. */
  predicate HasBits(block: Block, low: bv32) {
    forall i :: 0 <= i < 8 ==> block[i] & Mask(low, i) != 0
  }

  /** False only if no key with this hash was added. */
  predicate MayContain(blocks: seq<Block>, hash: Hash)
    requires blocks != []
  {
    HasBits(blocks[BlockIndex(|blocks|, hash)], hash.low)
  }

  /** `insert`: sets the key's bits in its block, word by word, in place. */
  method InsertInPlace(blocks: array<Block>, hash: Hash)
    requires blocks.Length > 0
    modifies blocks
    ensures blocks[..] == Insert(old(blocks[..]), hash)
  {
    hide Mask, BlockIndex, Marked;
    var b := BlockIndex(blocks.Length, hash);
    var before := blocks[b];
    for i := 0 to 8
      invariant forall j :: 0 <= j < blocks.Length && j != b ==> blocks[j] == old(blocks[j])
      invariant forall j :: 0 <= j < i ==> blocks[b][j] == before[j] | Mask(hash.low, j)
      invariant forall j :: i <= j < 8 ==> blocks[b][j] == before[j]
    {
      blocks[b] := blocks[b][i := blocks[b][i] | Mask(hash.low, i)];
    }
    var expected := Insert(old(blocks[..]), hash);
    assert blocks[b] == expected[b];
    assert forall j :: 0 <= j < blocks.Length ==> blocks[..][j] == expected[j];
  }

  lemma OrKeepsBits(word: bv32, mask: bv32, other: bv32)
    ensures mask != 0 ==> (word | mask) & mask != 0
    ensures word & mask != 0 ==> (word | other) & mask != 0
  {
  }

  lemma MarkedHasBits(block: Block, low: bv32, added: bv32)
    requires low == added || HasBits(block, low)
    ensures HasBits(Marked(block, added), low)
  {
    hide Mask, Marked;
    forall i | 0 <= i < 8
      ensures Marked(block, added)[i] & Mask(low, i) != 0
    {
      OrKeepsBits(block[i], Mask(low, i), Mask(added, i));
    }
  }

  /** No false negatives: a key that was added, before or now, may be contained. */
  lemma InsertIsFound(blocks: seq<Block>, hash: Hash, added: Hash)
    requires blocks != [] && (hash == added || MayContain(blocks, hash))
    ensures MayContain(Insert(blocks, added), hash)
  {
    hide Mask, BlockIndex, HasBits, Marked;
    var b := BlockIndex(|blocks|, hash);
    if b == BlockIndex(|blocks|, added) {
      MarkedHasBits(blocks[b], hash.low, added.low);
    }
  }
}
