/**
 The write buffer: entries in insertion order in fixed-size chunks, a hash index of their
 positions, and for each prefix length in use a chain through the entries that share a prefix.
 The hash tables are finite maps.
 */
module Memtables {
  import opened Wrappers
  import opened Keys
  import opened Entries
  import opened Runs

  /** No next entry; also one past the largest position. */
  const NO_ENTRY: nat := 0xFFFF_FFFF

  // ------------------------------------------------------------------------
  // Chunks
  // ------------------------------------------------------------------------

  ghost function Flatten<T>(chunks: seq<seq<T>>): seq<T> {
    if chunks == [] then [] else chunks[0] + Flatten(chunks[1..])
  }

  /** Every chunk but the last is full, and none is empty. */
  ghost predicate WellChunked<T>(chunks: seq<seq<T>>, size: nat) {
    size > 0 &&
    if chunks == [] then true
    else if |chunks| == 1 then 1 <= |chunks[0]| <= size
    else |chunks[0]| == size && WellChunked(chunks[1..], size)
  }

  lemma DivStep(i: nat, d: nat)
    requires d > 0
    ensures i < d ==> i / d == 0 && i % d == i
    ensures i >= d ==> i / d == (i - d) / d + 1 && i % d == (i - d) % d
  {
    if i >= d {
      var q, r := (i - d) / d, (i - d) % d;
      assert i == (q + 1) * d + r;
      Quotient(i, q + 1, r, d);
    } else {
      Quotient(i, 0, i, d);
    }
  }

  lemma Quotient(n: nat, q: nat, r: nat, d: nat)
    requires r < d && n == q * d + r
    ensures n / d == q && n % d == r
  {
    var x := n / d - q;
    assert n == n / d * d + n % d;
    assert x * d == r - n % d;
    assert x >= 1 ==> x * d >= d;
    assert x <= -1 ==> x * d + d <= 0;
  }

  /** Position `i` is in chunk `i / size` at index `i % size`. */
  lemma {:induction false} ChunkAt<T>(chunks: seq<seq<T>>, size: nat, i: nat)
    requires WellChunked(chunks, size) && i < |Flatten(chunks)|
    ensures size > 0 && i / size < |chunks| && i % size < |chunks[i / size]|
    ensures chunks[i / size][i % size] == Flatten(chunks)[i]
  {
    DivStep(i, size);
    if i >= |chunks[0]| {
      ChunkAt(chunks[1..], size, i - size);
    }
  }

  lemma OneChunkPush<T>(chunks: seq<seq<T>>, size: nat, x: T)
    requires size > 0 && |chunks| == 1 && 1 <= |chunks[0]| <= size
    ensures Flatten(chunks) == chunks[0] && (|chunks[0]| % size == 0 <==> |chunks[0]| == size)
    ensures |chunks[0]| == size ==>
      WellChunked(chunks + [[x]], size) && Flatten(chunks + [[x]]) == chunks[0] + [x]
    ensures |chunks[0]| < size ==>
      WellChunked(chunks[0 := chunks[0] + [x]], size) && Flatten(chunks[0 := chunks[0] + [x]]) == chunks[0] + [x]
  {
    assert chunks[1..] == [] && chunks[0 := chunks[0] + [x]][1..] == [];
    assert (chunks + [[x]])[1..] == [[x]] && [[x]][1..] == [];
    DivStep(|chunks[0]|, size);
    DivStep(|chunks[0]| - (if |chunks[0]| == size then size else 0), size);
  }

  lemma {:induction false} ChunkUpdate<T>(chunks: seq<seq<T>>, size: nat, i: nat, x: T)
    requires WellChunked(chunks, size) && i < |Flatten(chunks)|
    ensures size > 0 && i / size < |chunks| && i % size < |chunks[i / size]|
    ensures var after := chunks[i / size := chunks[i / size][i % size := x]];
      WellChunked(after, size) && Flatten(after) == Flatten(chunks)[i := x]
  {
    ChunkAt(chunks, size, i);
    ChunkUpdateAt(chunks, size, i, i / size, i % size, x);
  }

  /** Updating offset `o` of chunk `b` updates position `i`, where both lead to the same place. */
  lemma {:induction false} ChunkUpdateAt<T>(chunks: seq<seq<T>>, size: nat, i: nat, b: nat, o: nat, x: T)
    requires WellChunked(chunks, size) && i < |Flatten(chunks)|
    requires i / size == b < |chunks| && i % size == o < |chunks[b]|
    ensures var after := chunks[b := chunks[b][o := x]];
      WellChunked(after, size) && Flatten(after) == Flatten(chunks)[i := x]
    decreases b
  {
    DivStep(i, size);
    var after := chunks[b := chunks[b][o := x]];
    if b == 0 {
      assert after[1..] == chunks[1..];
    } else {
      var rest := chunks[1..];
      ChunkUpdateAt(rest, size, i - size, b - 1, o, x);
      assert after[1..] == rest[b - 1 := rest[b - 1][o := x]] && after[0] == chunks[0];
    }
  }

  /** A new chunk is due exactly when the length is a multiple of the chunk size. */
  lemma {:induction false} ChunkPush<T>(chunks: seq<seq<T>>, size: nat, x: T)
    requires WellChunked(chunks, size)
    ensures size > 0
    ensures |Flatten(chunks)| % size == 0 ==>
      WellChunked(chunks + [[x]], size) && Flatten(chunks + [[x]]) == Flatten(chunks) + [x]
    ensures |Flatten(chunks)| % size != 0 ==>
      var n := |chunks| - 1;
      && chunks != []
      && WellChunked(chunks[n := chunks[n] + [x]], size)
      && Flatten(chunks[n := chunks[n] + [x]]) == Flatten(chunks) + [x]
  {
    DivStep(|Flatten(chunks)|, size);
    if chunks == [] {
      assert chunks + [[x]] == [[x]];
      assert Flatten([[x]]) == [x] by {
        assert [[x]][1..] == [];
      }
    } else if |chunks| == 1 {
      OneChunkPush(chunks, size, x);
    } else {
      var rest := chunks[1..];
      ChunkPush(rest, size, x);
      assert (chunks + [[x]])[1..] == rest + [[x]];
      var n := |chunks| - 1;
      assert chunks[n := chunks[n] + [x]][1..] == rest[n - 1 := rest[n - 1] + [x]];
    }
  }

  // ------------------------------------------------------------------------
  // Prefix chains
  // ------------------------------------------------------------------------

  /** The entries that share a prefix of `len` words, linked from the newest back. */
  datatype PrefixChains = PrefixChains(len: nat, heads: map<Key, nat>, next: seq<nat>)

  /** The prefix lengths there are chains for. */
  function LengthsOf(chains: seq<PrefixChains>): (lens: seq<nat>)
    ensures |lens| == |chains| && forall c :: 0 <= c < |lens| ==> lens[c] == chains[c].len
  {
    seq(|chains|, c requires 0 <= c < |chains| => chains[c].len)
  }

  /** Every link goes to an older entry, so a chain ends. */
  ghost predicate LinksDown(next: seq<nat>) {
    forall i :: 0 <= i < |next| ==> next[i] == NO_ENTRY || next[i] < i
  }

  ghost predicate Linkable(next: seq<nat>, at: nat) {
    LinksDown(next) && |next| <= NO_ENTRY && (at == NO_ENTRY || at < |next|)
  }

  /** The positions along the chain from `at`. */
  ghost function ChainFrom(next: seq<nat>, at: nat): seq<nat>
    requires Linkable(next, at)
    decreases if at == NO_ENTRY then 0 else at + 1
  {
    if at == NO_ENTRY then [] else [at] + ChainFrom(next, next[at])
  }

  function HeadOf(c: PrefixChains, prefix: Key): nat {
    if prefix in c.heads then c.heads[prefix] else NO_ENTRY
  }

  /** The positions below `n` whose keys start with `prefix`, from the newest back. */
  ghost function Descending(keys: seq<Key>, prefix: Key, n: nat): seq<nat>
    requires n <= |keys|
  {
    if n == 0 then []
    else if prefix <= keys[n - 1] then [n - 1] + Descending(keys, prefix, n - 1)
    else Descending(keys, prefix, n - 1)
  }

  /** Each prefix's chain is exactly the positions of its keys. */
  ghost predicate ChainsOk(c: PrefixChains, keys: seq<Key>) {
    && |c.next| == |keys| <= NO_ENTRY
    && LinksDown(c.next)
    && (forall p :: p in c.heads ==> |p| == c.len && c.heads[p] < |keys|)
    && (forall p: Key :: |p| == c.len ==> ChainFrom(c.next, HeadOf(c, p)) == Descending(keys, p, |keys|))
  }

  lemma {:induction false} ChainGrows(next: seq<nat>, at: nat, link: nat)
    requires Linkable(next, at) && |next| < NO_ENTRY && (link == NO_ENTRY || link < |next|)
    ensures Linkable(next + [link], at)
    ensures ChainFrom(next + [link], at) == ChainFrom(next, at)
    decreases if at == NO_ENTRY then 0 else at + 1
  {
    if at != NO_ENTRY {
      ChainGrows(next, next[at], link);
    }
  }

  lemma {:induction false} DescendingGrows(keys: seq<Key>, prefix: Key, n: nat, key: Key)
    requires n <= |keys|
    ensures Descending(keys + [key], prefix, n) == Descending(keys, prefix, n)
  {
    if n > 0 {
      DescendingGrows(keys, prefix, n - 1, key);
    }
  }

  /** The chains after one more key: it heads its prefix's chain, in front of the old head. */
  function LinkIn(c: PrefixChains, prefix: Key, i: nat): PrefixChains {
    PrefixChains(c.len, c.heads[prefix := i], c.next + [HeadOf(c, prefix)])
  }

  lemma LinkInOk(c: PrefixChains, keys: seq<Key>, key: Key)
    requires ChainsOk(c, keys) && c.len <= |key| && |keys| < NO_ENTRY
    ensures ChainsOk(LinkIn(c, key[..c.len], |keys|), keys + [key])
  {
    var prefix := key[..c.len];
    var after, more := LinkIn(c, prefix, |keys|), keys + [key];
    assert LinksDown(after.next);
    forall p: Key | |p| == c.len
      ensures ChainFrom(after.next, HeadOf(after, p)) == Descending(more, p, |more|)
    {
      LinkedChain(c, keys, key, p);
    }
  }

  lemma LinkedChain(c: PrefixChains, keys: seq<Key>, key: Key, p: Key)
    requires ChainsOk(c, keys) && c.len <= |key| && |keys| < NO_ENTRY && |p| == c.len
    ensures var after := LinkIn(c, key[..c.len], |keys|);
      && Linkable(after.next, HeadOf(after, p))
      && ChainFrom(after.next, HeadOf(after, p)) == Descending(keys + [key], p, |keys| + 1)
  {
    hide ChainFrom, Descending, ChainsOk, Linkable;
    var prefix := key[..c.len];
    var link := HeadOf(c, prefix);
    ChainOf(c, keys, p);
    ChainOf(c, keys, prefix);
    MayLink(c.next, link);
    ChainGrows(c.next, HeadOf(c, p), link);
    DescendingGrows(keys, p, |keys|, key);
    NewestFirst(c.next, link, keys + [key], p);
    assert (keys + [key])[|keys|] == key && (p <= key <==> p == prefix);
  }

  lemma MayLink(next: seq<nat>, link: nat)
    requires Linkable(next, link)
    ensures link == NO_ENTRY || link < |next|
  {
  }

  /** The new position starts its chain, and comes first among its prefix's keys. */
  lemma NewestFirst(next: seq<nat>, link: nat, keys: seq<Key>, p: Key)
    requires Linkable(next, link) && |keys| == |next| + 1 <= NO_ENTRY
    ensures Linkable(next + [link], |next|)
    ensures ChainFrom(next + [link], |next|) == [|next|] + ChainFrom(next, link)
    ensures Descending(keys, p, |keys|) ==
      (if p <= keys[|next|] then [|next|] else []) + Descending(keys, p, |next|)
  {
    ChainGrows(next, link, link);
    LastLink(next + [link], keys, p);
  }

  lemma ChainOf(c: PrefixChains, keys: seq<Key>, p: Key)
    requires ChainsOk(c, keys) && |p| == c.len
    ensures Linkable(c.next, HeadOf(c, p)) && |c.next| == |keys|
    ensures ChainFrom(c.next, HeadOf(c, p)) == Descending(keys, p, |keys|)
  {
    hide ChainFrom, Descending;
  }

  /** The newest position starts its chain and comes first among the matches. */
  lemma LastLink(next: seq<nat>, keys: seq<Key>, p: Key)
    requires |next| == |keys| && 0 < |keys| <= NO_ENTRY && Linkable(next, |next| - 1)
    ensures var n := |keys| - 1;
      && ChainFrom(next, n) == [n] + ChainFrom(next, next[n])
      && Descending(keys, p, |keys|) == (if p <= keys[n] then [n] else []) + Descending(keys, p, n)
  {
  }

  // ------------------------------------------------------------------------
  // Sorting
  // ------------------------------------------------------------------------

  function InsertSorted<V>(s: seq<Entry<V>>, e: Entry<V>): seq<Entry<V>> {
    if s == [] || Below(e.key, s[0].key) then [e] + s
    else [s[0]] + InsertSorted(s[1..], e)
  }

  lemma {:induction false} InsertSortedHolds<V>(s: seq<Entry<V>>, e: Entry<V>)
    ensures forall x :: x in InsertSorted(s, e) ==> x in s || x == e
    ensures Bag(InsertSorted(s, e)) == Bag(s) + Pairs(e)
    ensures |InsertSorted(s, e)| == |s| + 1
  {
    hide Below, Pairs;
    var r := InsertSorted(s, e);
    if s == [] || Below(e.key, s[0].key) {
      assert r[1..] == s;
    } else {
      InsertSortedHolds(s[1..], e);
      assert r[0] == s[0] && r[1..] == InsertSorted(s[1..], e);
      assert s == [s[0]] + s[1..];
    }
  }

  lemma {:induction false} InsertSortedKeeps<V>(s: seq<Entry<V>>, e: Entry<V>)
    ensures multiset(InsertSorted(s, e)) == multiset(s) + multiset{e}
  {
    hide Below;
    if s != [] && !Below(e.key, s[0].key) {
      InsertSortedKeeps(s[1..], e);
      assert s == [s[0]] + s[1..];
    }
  }

  lemma SortedCons<V>(e: Entry<V>, rest: seq<Entry<V>>)
    requires Sorted(rest) && forall x :: x in rest ==> Below(e.key, x.key)
    ensures Sorted([e] + rest)
  {
    hide Below;
  }

  lemma SortedParts<V>(s: seq<Entry<V>>)
    requires Sorted(s) && s != []
    ensures Sorted(s[1..]) && forall x :: x in s[1..] ==> Below(s[0].key, x.key)
  {
    hide Below;
  }

  lemma {:induction false} InsertSortedSorts<V>(s: seq<Entry<V>>, e: Entry<V>)
    requires Sorted(s) && forall x :: x in s ==> x.key != e.key
    ensures Sorted(InsertSorted(s, e))
  {
    hide Below, Sorted, Bag;
    if s == [] {
      SortedCons(e, s);
    } else if Below(e.key, s[0].key) {
      SortedParts(s);
      assert s == [s[0]] + s[1..];
      forall x | x in s
        ensures Below(e.key, x.key)
      {
        BelowTransitive(e.key, s[0].key, x.key);
      }
      SortedCons(e, s);
    } else {
      SortedParts(s);
      var rest := InsertSorted(s[1..], e);
      InsertSortedSorts(s[1..], e);
      InsertSortedHolds(s[1..], e);
      BelowTotal(s[0].key, e.key);
      assert s[0] in s;
      SortedCons(s[0], rest);
    }
  }

  /** `sorted`: the entries by ascending key. */
  method SortEntries<V>(es: seq<Entry<V>>) returns (r: seq<Entry<V>>)
    requires DistinctKeys(es)
    ensures Sorted(r) && multiset(r) == multiset(es) && Bag(r) == Bag(es) && |r| == |es|
    ensures forall x :: x in r ==> x in es
  {
    hide Bag, Pairs, InsertSorted, Below, Sorted;
    r := [];
    EmptyEntries(r);
    for i := 0 to |es|
      invariant Sorted(r) && multiset(r) == multiset(es[..i]) && Bag(r) == Bag(es[..i]) && |r| == i
      invariant forall x :: x in r ==> x in es[..i]
    {
      assert es[..i + 1] == es[..i] + [es[i]];
      BagConcat(es[..i], [es[i]]);
      BagSingle(es[i]);
      InsertSortedHolds(r, es[i]);
      InsertSortedKeeps(r, es[i]);
      assert forall x :: x in r ==> x in es[..i];
      InsertSortedSorts(r, es[i]);
      r := InsertSorted(r, es[i]);
    }
    assert es[..|es|] == es;
  }

  lemma EmptyEntries<V>(es: seq<Entry<V>>)
    requires es == []
    ensures Sorted(es) && Bag(es) == multiset{}
  {
  }

  // ------------------------------------------------------------------------
  // The memtable
  // ------------------------------------------------------------------------

  /** The index gives every key its position. */
  ghost predicate IndexOk<V>(index: map<Key, nat>, es: seq<Entry<V>>) {
    && (forall k :: k in index ==> index[k] < |es| && es[index[k]].key == k)
    && (forall i :: 0 <= i < |es| ==> es[i].key in index && index[es[i].key] == i)
  }

  ghost predicate AllChainsOk(ps: Params, prefixes: seq<PrefixChains>, keys: seq<Key>) {
    forall c :: 0 <= c < |prefixes| ==> prefixes[c].len <= ps.width && ChainsOk(prefixes[c], keys)
  }

  ghost predicate EntriesOk<V>(ps: Params, es: seq<Entry<V>>) {
    Inhabited(es) && forall i :: 0 <= i < |es| ==> |es[i].key| == ps.width
  }

  lemma IndexDistinct<V>(index: map<Key, nat>, es: seq<Entry<V>>)
    requires IndexOk(index, es)
    ensures DistinctKeys(es)
  {
  }

  /** One more value under a key that has an entry. */
  lemma MoreAt<V>(es: seq<Entry<V>>, i: nat, v: V)
    requires i < |es|
    ensures var after := es[i := Entry(es[i].key, es[i].vals + [v])];
      && Bag(after) == Bag(es) + multiset{(es[i].key, v)}
      && KeysOf(after) == KeysOf(es)
  {
    hide Bag, Pairs;
    var e, f := es[i], Entry(es[i].key, es[i].vals + [v]);
    var a, b := es[..i], es[i + 1..];
    assert es == a + [e] + b && es[i := f] == a + [f] + b;
    BagConcat(a + [e], b);
    BagConcat(a, [e]);
    BagConcat(a + [f], b);
    BagConcat(a, [f]);
    BagSingle(e);
    BagSingle(f);
    PairsSnoc(e, v);
  }

  lemma {:induction false} PairsSnoc<V>(e: Entry<V>, v: V)
    ensures Pairs(Entry(e.key, e.vals + [v])) == Pairs(e) + multiset{(e.key, v)}
    decreases |e.vals|
  {
    if e.vals == [] {
      assert e.vals + [v] == [v] && [v][1..] == [];
    } else {
      assert (e.vals + [v])[1..] == e.vals[1..] + [v];
      PairsSnoc(Entry(e.key, e.vals[1..]), v);
    }
  }

  /** One more entry. */
  lemma MoreEntries<V>(es: seq<Entry<V>>, key: Key, v: V)
    ensures Bag(es + [Entry(key, [v])]) == Bag(es) + multiset{(key, v)}
    ensures KeysOf(es + [Entry(key, [v])]) == KeysOf(es) + [key]
  {
    hide Bag, Pairs;
    BagConcat(es, [Entry(key, [v])]);
    BagSingle(Entry(key, [v]));
    OnePair(key, v);
  }

  lemma OnePair<V>(key: Key, v: V)
    ensures Pairs(Entry(key, [v])) == multiset{(key, v)}
  {
  }

  /** The entries after one more value: at the end of its key's entry, or as a new entry at the end. */
  ghost function Added<V>(es: seq<Entry<V>>, key: Key, v: V): seq<Entry<V>> {
    if es == [] then [Entry(key, [v])]
    else if es[0].key == key then [Entry(key, es[0].vals + [v])] + es[1..]
    else [es[0]] + Added(es[1..], key, v)
  }

  lemma {:induction false} AddedNew<V>(es: seq<Entry<V>>, key: Key, v: V)
    requires forall i :: 0 <= i < |es| ==> es[i].key != key
    ensures Added(es, key, v) == es + [Entry(key, [v])]
  {
    if es != [] {
      AddedNew(es[1..], key, v);
      assert es == [es[0]] + es[1..];
    }
  }

  lemma {:induction false} AddedAt<V>(es: seq<Entry<V>>, i: nat, v: V)
    requires i < |es| && forall j :: 0 <= j < i ==> es[j].key != es[i].key
    ensures Added(es, es[i].key, v) == es[i := Entry(es[i].key, es[i].vals + [v])]
  {
    if i > 0 {
      AddedAt(es[1..], i - 1, v);
      var e := Entry(es[i].key, es[i].vals + [v]);
      assert es[i := e] == [es[0]] + es[1..][i - 1 := e];
    }
  }

  class Memtable<V> {
    const ps: Params
    /** Entries per chunk. */
    const size: nat
    var index: map<Key, nat>
    var chunks: seq<seq<Entry<V>>>
    var len: nat
    var prefixes: seq<PrefixChains>

    ghost function Entries(): seq<Entry<V>>
      reads this
    {
      Flatten(chunks)
    }

    ghost predicate Valid()
      reads this
    {
      && WellChunked(chunks, size)
      && len == |Entries()| <= NO_ENTRY
      && EntriesOk(ps, Entries())
      && IndexOk(index, Entries())
      && AllChainsOk(ps, prefixes, KeysOf(Entries()))
    }

    constructor (ps: Params, size: nat, prefixLens: seq<nat>)
      requires size > 0 && forall f :: 0 <= f < |prefixLens| ==> prefixLens[f] <= ps.width
      ensures Valid() && Entries() == [] && len == 0
      ensures this.ps == ps && this.size == size
      ensures LengthsOf(prefixes) == prefixLens
    {
      this.ps, this.size := ps, size;
      index, chunks, len := map[], [], 0;
      prefixes := seq(|prefixLens|, f requires 0 <= f < |prefixLens| => PrefixChains(prefixLens[f], map[], []));
    }

    lemma Length()
      requires Valid()
      ensures len == |Entries()| == |KeysOf(Entries())| <= NO_ENTRY
    {
      hide WellChunked, EntriesOk, IndexOk, AllChainsOk;
    }

    /** The entry at a position. */
    method At(i: nat) returns (e: Entry<V>)
      requires Valid() && i < len
      ensures i < |Entries()| && e == Entries()[i]
    {
      hide WellChunked, EntriesOk, IndexOk, AllChainsOk, Flatten;
      ChunkAt(chunks, size, i);
      e := chunks[i / size][i % size];
    }

    /** `get`: the values of a key, if it has an entry. */
    method Get(key: Key) returns (r: Option<seq<V>>)
      requires Valid()
      ensures r.Some? <==> key in KeysOf(Entries())
      ensures (if r.Some? then r.value else []) == ValuesAt(Entries(), key)
      ensures r.Some? ==> r.value != []
    {
      hide ValuesAt, AllChainsOk, WellChunked, Flatten;
      IndexDistinct(index, Entries());
      ValuesAtPresent(Entries(), key);
      if key !in index {
        return None;
      }
      ValuesAtIndex(Entries(), index[key]);
      assert KeysOf(Entries())[index[key]] == key;
      var e := At(index[key]);
      r := Some(e.vals);
    }

    /** `insert`: appends the value to its key's entry, or starts one and links it into the chains. */
    method Insert(key: Key, value: V)
      requires Valid() && |key| == ps.width && len < NO_ENTRY
      modifies this
      ensures Valid() && Entries() == Added(old(Entries()), key, value)
      ensures Bag(Entries()) == old(Bag(Entries())) + multiset{(key, value)}
      ensures len == old(len) + (if key in old(KeysOf(Entries())) then 0 else 1)
      ensures LengthsOf(prefixes) == old(LengthsOf(prefixes))
    {
      hide *;
      PositionOf(key);
      if key in index {
        AppendAt(index[key], value);
      } else {
        Push(key, value);
      }
    }

    lemma PositionOf(key: Key)
      requires Valid()
      ensures key in index <==> key in KeysOf(Entries())
      ensures key in index ==> index[key] < len && Entries()[index[key]].key == key
    {
      hide Flatten, AllChainsOk, WellChunked, EntriesOk;
      if key in index {
        assert KeysOf(Entries())[index[key]] == key;
      } else {
        assert forall i :: 0 <= i < |Entries()| ==> KeysOf(Entries())[i] == Entries()[i].key;
      }
    }

    method AppendAt(i: nat, value: V)
      requires Valid() && i < len
      modifies `chunks
      ensures Valid() && Entries() == Added(old(Entries()), old(Entries())[i].key, value)
      ensures Bag(Entries()) == old(Bag(Entries())) + multiset{(old(Entries())[i].key, value)}
    {
      hide Bag, Flatten, AllChainsOk, WellChunked, KeysOf, Added;
      ghost var es := Entries();
      FirstOfKey(index, es, i);
      AddedAt(es, i, value);
      var e := At(i);
      ChunkUpdate(chunks, size, i, Entry(e.key, e.vals + [value]));
      MoreAt(es, i, value);
      chunks := chunks[i / size := chunks[i / size][i % size := Entry(e.key, e.vals + [value])]];
    }

    method Push(key: Key, value: V)
      requires Valid() && |key| == ps.width && len < NO_ENTRY && key !in index
      modifies this
      ensures Valid() && Entries() == Added(old(Entries()), key, value)
      ensures Bag(Entries()) == old(Bag(Entries())) + multiset{(key, value)}
      ensures len == old(len) + 1
      ensures LengthsOf(prefixes) == old(LengthsOf(prefixes))
    {
      hide Bag, Flatten, AllChainsOk, WellChunked, KeysOf, IndexOk, EntriesOk, Added;
      ghost var es := Entries();
      KeyIsNew(index, es, key);
      AddedNew(es, key, value);
      var e := Entry(key, [value]);
      ChunkSize(chunks, size);
      ChunkPush(chunks, size, e);
      MoreEntries(es, key, value);
      PushOk(ps, index, es, e);
      if len % size == 0 {
        chunks := chunks + [[e]];
      } else {
        chunks := chunks[|chunks| - 1 := chunks[|chunks| - 1] + [e]];
      }
      index := index[key := len];
      KeysLength(es);
      LinkAll(key, KeysOf(es));
      len := len + 1;
    }

    /** Links the new entry into the chains of every prefix length. */
    method LinkAll(key: Key, ghost keys: seq<Key>)
      requires AllChainsOk(ps, prefixes, keys) && |key| == ps.width && len == |keys| < NO_ENTRY
      modifies `prefixes
      ensures AllChainsOk(ps, prefixes, keys + [key])
      ensures LengthsOf(prefixes) == old(LengthsOf(prefixes))
    {
      hide ChainsOk, LengthsOf;
      for c := 0 to |prefixes|
        invariant |prefixes| == |old(prefixes)| && LengthsOf(prefixes) == old(LengthsOf(prefixes))
        invariant forall d :: c <= d < |prefixes| ==> prefixes[d] == old(prefixes)[d]
        invariant forall d :: 0 <= d < c ==> prefixes[d].len <= ps.width && ChainsOk(prefixes[d], keys + [key])
      {
        LinkInOk(prefixes[c], keys, key);
        prefixes := prefixes[c := LinkIn(prefixes[c], key[..prefixes[c].len], len)];
      }
    }

    /** The chains for a prefix length, if the memtable keeps them. */
    method FindChains(n: nat) returns (r: Option<PrefixChains>)
      requires Valid()
      ensures r.Some? <==> n in LengthsOf(prefixes)
      ensures r.Some? ==> r.value in prefixes && r.value.len == n && ChainsOk(r.value, KeysOf(Entries()))
    {
      hide ChainsOk, Flatten, WellChunked;
      for c := 0 to |prefixes|
        invariant n !in LengthsOf(prefixes)[..c]
      {
        if prefixes[c].len == n {
          return Some(prefixes[c]);
        }
      }
      r := None;
    }

    lemma KeysLongEnough(n: nat)
      requires Valid() && exists c :: 0 <= c < |prefixes| && prefixes[c].len == n
      ensures forall i :: 0 <= i < |KeysOf(Entries())| ==> n <= |KeysOf(Entries())[i]|
    {
      hide ChainsOk, Flatten, WellChunked, IndexOk;
    }

    lemma KeyWidths()
      requires Valid()
      ensures forall i :: 0 <= i < |KeysOf(Entries())| ==> |KeysOf(Entries())[i]| == ps.width
    {
      hide AllChainsOk, Flatten, WellChunked, IndexOk;
    }

    /** `sorted`: every entry, by ascending key. */
    method SortedEntries() returns (r: seq<Entry<V>>)
      requires Valid()
      ensures Sorted(r) && EntriesOk(ps, r) && Bag(r) == Bag(Entries()) && |r| == len
      ensures multiset(r) == multiset(Entries())
    {
      hide Bag, Sorted, AllChainsOk, WellChunked, Flatten;
      var es := All();
      IndexDistinct(index, es);
      r := SortEntries(es);
      forall i | 0 <= i < |r|
        ensures r[i].vals != [] && |r[i].key| == ps.width
      {
        assert r[i] in es;
      }
    }

    /** Every entry, in insertion order. */
    method All() returns (es: seq<Entry<V>>)
      requires Valid()
      ensures es == Entries()
    {
      hide AllChainsOk, IndexOk, EntriesOk;
      es := [];
      for c := 0 to |chunks|
        invariant es == Flatten(chunks[..c])
      {
        assert chunks[..c + 1] == chunks[..c] + [chunks[c]];
        FlattenSnoc(chunks[..c], chunks[c]);
        es := es + chunks[c];
      }
      assert chunks[..|chunks|] == chunks;
    }
  }

  lemma FirstOfKey<V>(index: map<Key, nat>, es: seq<Entry<V>>, i: nat)
    requires IndexOk(index, es) && i < |es|
    ensures forall j :: 0 <= j < i ==> es[j].key != es[i].key
  {
    IndexDistinct(index, es);
  }

  lemma KeyIsNew<V>(index: map<Key, nat>, es: seq<Entry<V>>, key: Key)
    requires IndexOk(index, es) && key !in index
    ensures forall i :: 0 <= i < |es| ==> es[i].key != key
  {
  }

  lemma PushOk<V>(ps: Params, index: map<Key, nat>, es: seq<Entry<V>>, e: Entry<V>)
    requires IndexOk(index, es) && EntriesOk(ps, es)
    requires e.key !in index && e.vals != [] && |e.key| == ps.width
    ensures IndexOk(index[e.key := |es|], es + [e]) && EntriesOk(ps, es + [e])
  {
  }

  lemma ChunkSize<T>(chunks: seq<seq<T>>, size: nat)
    requires WellChunked(chunks, size)
    ensures size > 0
  {
  }

  lemma KeysLength<V>(es: seq<Entry<V>>)
    ensures |KeysOf(es)| == |es|
  {
  }

  lemma {:induction false} FlattenSnoc<T>(a: seq<seq<T>>, b: seq<T>)
    ensures Flatten(a + [b]) == Flatten(a) + b
  {
    if a == [] {
      assert a + [b] == [b] && [b][1..] == [];
    } else {
      assert (a + [b])[1..] == a[1..] + [b];
      FlattenSnoc(a[1..], b);
    }
  }
}
