/** Byte codecs: how keys and values are written to a run file and read back from a stream. */
module Codecs {
  import opened Wrappers

  type byte = b: int | 0 <= b < 256

  /** Writing a value, and reading one off the front: the value and how many bytes it took. */
  datatype Codec<!T> = Codec(fits: T -> bool, enc: T -> seq<byte>, dec: seq<byte> -> Option<(T, nat)>)

  /** A codec reads its own output back, and takes no byte of what follows. */
  ghost predicate LawfulCodec<T(!new)>(c: Codec<T>) {
    forall x: T, rest: seq<byte> :: c.fits(x) ==> c.dec(c.enc(x) + rest) == Some((x, |c.enc(x)|))
  }

  // ------------------------------------------------------------------------
  // Little-endian integers
  // ------------------------------------------------------------------------

  function Pow256(k: nat): (r: nat)
    ensures r > 0
  {
    if k == 0 then 1 else 256 * Pow256(k - 1)
  }

  /** `to_le_bytes` of an unsigned integer of `k` bytes. */
  function ToLe(n: nat, k: nat): (bs: seq<byte>)
    ensures |bs| == k
  {
    if k == 0 then [] else [n % 256] + ToLe(n / 256, k - 1)
  }

  function FromLe(bs: seq<byte>): nat {
    if bs == [] then 0 else bs[0] + 256 * FromLe(bs[1..])
  }

  lemma {:induction false} LeRoundTrip(n: nat, k: nat)
    requires n < Pow256(k)
    ensures FromLe(ToLe(n, k)) == n
  {
    if k > 0 {
      LeRoundTrip(n / 256, k - 1);
      assert ToLe(n, k)[1..] == ToLe(n / 256, k - 1);
    }
  }

  /** Byte `i` is digit `i` of the number in base 256, the lowest first. */
  lemma {:induction false} ToLeDigit(n: nat, k: nat, i: nat)
    requires i < k
    ensures ToLe(n, k)[i] == (n / Pow256(i)) % 256
  {
    if i > 0 {
      ToLeDigit(n / 256, k - 1, i - 1);
      assert Pow256(i) == 256 * Pow256(i - 1);
      DivTwice(n, Pow256(i - 1));
    }
  }

  lemma DivTwice(n: nat, p: nat)
    requires p > 0
    ensures n / 256 / p == n / (256 * p)
  {
    var m := n / 256;
    var q, r := m / p, m % p;
    assert m == q * p + r;
    Regroup(q, p);
    Quotient(n, q, 256 * r + n % 256, 256 * p);
  }

  lemma Regroup(q: nat, p: nat)
    ensures 256 * (q * p) == q * (256 * p)
  {
  }

  lemma Quotient(n: nat, q: nat, r: nat, d: nat)
    requires r < d && n == q * d + r
    ensures n / d == q
  {
    var x := n / d - q;
    assert x * d == r - n % d;
    MultipleOf(x, d);
  }

  lemma MultipleOf(x: int, d: nat)
    ensures x >= 1 ==> x * d >= d
    ensures x <= -1 ==> x * d + d <= 0
  {
  }

  /** A signed number is written as its residue modulo `Pow256(k)`. */
  lemma SignedIsResidue(n: int, k: nat)
    requires Signed(k).fits(n)
    ensures FromLe(Signed(k).enc(n)) == if n >= 0 then n else n + Pow256(k)
  {
    LeRoundTrip(ToBits(n, k), k);
  }

  lemma {:induction false} FromLeBound(bs: seq<byte>)
    ensures FromLe(bs) < Pow256(|bs|)
  {
    if bs != [] {
      FromLeBound(bs[1..]);
    }
  }

  function DecodeUnsigned(k: nat, bs: seq<byte>): Option<(int, nat)> {
    if |bs| < k then None else Some((FromLe(bs[..k]), k))
  }

  /** The codec of the unsigned integers of `k` bytes. */
  function Unsigned(k: nat): Codec<int> {
    Codec(n => 0 <= n < Pow256(k), n => ToLe(if n >= 0 then n else 0, k), bs => DecodeUnsigned(k, bs))
  }

  /** Two's complement. */
  function ToBits(n: int, k: nat): nat {
    if 0 <= n then n else if n + Pow256(k) >= 0 then n + Pow256(k) else 0
  }

  function FromBits(bits: nat, k: nat): int {
    if 2 * bits < Pow256(k) then bits else bits - Pow256(k)
  }

  function DecodeSigned(k: nat, bs: seq<byte>): Option<(int, nat)> {
    if |bs| < k then None else Some((FromBits(FromLe(bs[..k]), k), k))
  }

  /** The codec of the signed integers of `k` bytes. */
  function Signed(k: nat): Codec<int> {
    Codec(
      (n: int) => 0 <= 2 * n + Pow256(k) && 2 * n < Pow256(k),
      n => ToLe(ToBits(n, k), k),
      bs => DecodeSigned(k, bs))
  }

  lemma IntegersLawful(k: nat)
    ensures LawfulCodec(Unsigned(k)) && LawfulCodec(Signed(k))
  {
    forall n: int, rest: seq<byte> | Unsigned(k).fits(n)
      ensures Unsigned(k).dec(Unsigned(k).enc(n) + rest) == Some((n, |Unsigned(k).enc(n)|))
    {
      LeRoundTrip(n, k);
      assert (ToLe(n, k) + rest)[..k] == ToLe(n, k);
    }
    forall n: int, rest: seq<byte> | Signed(k).fits(n)
      ensures Signed(k).dec(Signed(k).enc(n) + rest) == Some((n, |Signed(k).enc(n)|))
    {
      LeRoundTrip(ToBits(n, k), k);
      assert (ToLe(ToBits(n, k), k) + rest)[..k] == ToLe(ToBits(n, k), k);
    }
  }

  // ------------------------------------------------------------------------
  // Tuples
  // ------------------------------------------------------------------------

  ghost predicate AllLawful<T(!new)>(cs: seq<Codec<T>>) {
    forall i :: 0 <= i < |cs| ==> LawfulCodec(cs[i])
  }

  predicate AllFit<T>(cs: seq<Codec<T>>, xs: seq<T>) {
    |xs| == |cs| && forall i :: 0 <= i < |cs| ==> cs[i].fits(xs[i])
  }

  /** Component after component. */
  function EncodeTuple<T>(cs: seq<Codec<T>>, xs: seq<T>): seq<byte> {
    if cs == [] || xs == [] then [] else cs[0].enc(xs[0]) + EncodeTuple(cs[1..], xs[1..])
  }

  function DecodeTuple<T>(cs: seq<Codec<T>>, bs: seq<byte>): Option<(seq<T>, nat)> {
    if cs == [] then Some(([], 0))
    else
      match cs[0].dec(bs)
      case None => None
      case Some((x, n)) =>
        if n > |bs| then None
        else
          match DecodeTuple(cs[1..], bs[n..])
          case None => None
          case Some((xs, m)) => Some(([x] + xs, n + m))
  }

  /** The codec of tuples of the given components; without any, of the unit. */
  function TupleOf<T>(cs: seq<Codec<T>>): Codec<seq<T>> {
    Codec(xs => AllFit(cs, xs), xs => EncodeTuple(cs, xs), bs => DecodeTuple(cs, bs))
  }

  lemma {:induction false} TupleRoundTrip<T(!new)>(cs: seq<Codec<T>>, xs: seq<T>, rest: seq<byte>)
    requires AllLawful(cs) && AllFit(cs, xs)
    ensures DecodeTuple(cs, EncodeTuple(cs, xs) + rest) == Some((xs, |EncodeTuple(cs, xs)|))
  {
    hide LawfulCodec, EncodeTuple, DecodeTuple;
    if cs == [] {
      NoComponents<T>(rest);
      assert cs == [] && xs == [] && [] + rest == rest;
    } else {
      var first, others := cs[0].enc(xs[0]), EncodeTuple(cs[1..], xs[1..]);
      FirstComponent(cs, xs);
      assert first + others + rest == first + (others + rest);
      assert (first + (others + rest))[|first|..] == others + rest;
      OneComponent(cs[0], xs[0], others + rest);
      TupleRoundTrip(cs[1..], xs[1..], rest);
      DecodeFirst(cs, first + (others + rest), xs[0], |first|, xs[1..], |others|);
      assert xs == [xs[0]] + xs[1..];
    }
  }

  lemma NoComponents<T>(bs: seq<byte>)
    ensures EncodeTuple<T>([], []) == [] && DecodeTuple<T>([], bs) == Some(([], 0))
  {
  }

  lemma FirstComponent<T>(cs: seq<Codec<T>>, xs: seq<T>)
    requires cs != [] && xs != []
    ensures EncodeTuple(cs, xs) == cs[0].enc(xs[0]) + EncodeTuple(cs[1..], xs[1..])
  {
  }

  lemma DecodeFirst<T>(cs: seq<Codec<T>>, bs: seq<byte>, x: T, n: nat, xs: seq<T>, m: nat)
    requires cs != [] && n <= |bs| && cs[0].dec(bs) == Some((x, n)) && DecodeTuple(cs[1..], bs[n..]) == Some((xs, m))
    ensures DecodeTuple(cs, bs) == Some(([x] + xs, n + m))
  {
  }

  lemma OneComponent<T(!new)>(c: Codec<T>, x: T, rest: seq<byte>)
    requires LawfulCodec(c) && c.fits(x)
    ensures c.dec(c.enc(x) + rest) == Some((x, |c.enc(x)|))
  {
  }

  /** Tuples of lawful codecs are lawful. */
  lemma TuplesLawful<T(!new)>(cs: seq<Codec<T>>)
    requires AllLawful(cs)
    ensures LawfulCodec(TupleOf(cs))
  {
    hide AllLawful, EncodeTuple, DecodeTuple;
    forall xs: seq<T>, rest: seq<byte> | TupleOf(cs).fits(xs)
      ensures TupleOf(cs).dec(TupleOf(cs).enc(xs) + rest) == Some((xs, |TupleOf(cs).enc(xs)|))
    {
      TupleRoundTrip(cs, xs, rest);
    }
  }

  // ------------------------------------------------------------------------
  // Reading from a file
  // ------------------------------------------------------------------------

  /** The file has the bytes at the position. */
  ghost predicate Has(file: seq<byte>, pos: nat, bs: seq<byte>) {
    pos + |bs| <= |file| && file[pos..pos + |bs|] == bs
  }

  lemma HasParts(file: seq<byte>, pos: nat, a: seq<byte>, b: seq<byte>)
    requires Has(file, pos, a + b)
    ensures Has(file, pos, a) && Has(file, pos + |a|, b)
  {
    assert file[pos..pos + |a|] == file[pos..pos + |a + b|][..|a|];
    assert file[pos + |a|..pos + |a| + |b|] == file[pos..pos + |a + b|][|a|..];
  }

  lemma HasAll(file: seq<byte>, before: seq<byte>, bs: seq<byte>, after: seq<byte>)
    requires file == before + bs + after
    ensures Has(file, |before|, bs)
  {
  }

  /** Decodes at a position: the value and the position after it. */
  function ReadAt<T>(c: Codec<T>, file: seq<byte>, pos: nat): Option<(T, nat)> {
    if pos > |file| then None
    else
      match c.dec(file[pos..])
      case None => None
      case Some((x, n)) => Some((x, pos + n))
  }

  lemma ReadsBack<T(!new)>(c: Codec<T>, file: seq<byte>, pos: nat, x: T)
    requires LawfulCodec(c) && c.fits(x) && Has(file, pos, c.enc(x))
    ensures ReadAt(c, file, pos) == Some((x, pos + |c.enc(x)|))
  {
    assert file[pos..] == c.enc(x) + file[pos + |c.enc(x)|..];
  }

  function ReadU64(file: seq<byte>, pos: nat): Option<(nat, nat)> {
    if pos + 8 > |file| then None else Some((FromLe(file[pos..pos + 8]), pos + 8))
  }

  const U64: nat := 0x1_0000_0000_0000_0000

  lemma U64Reads(file: seq<byte>, pos: nat, n: nat)
    requires n < U64 && Has(file, pos, ToLe(n, 8))
    ensures ReadU64(file, pos) == Some((n, pos + 8))
  {
    assert Pow256(8) == U64;
    LeRoundTrip(n, 8);
  }
}
