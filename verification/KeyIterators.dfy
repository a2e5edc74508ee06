/**
 Key iterators: the keys of a write buffer, by range, by prefix chain or by list, and then the
 keys of a list of run slices.
 */
module KeyIterators {
  import opened Wrappers
  import opened Keys
  import opened Entries
  import opened Memtables

  /** Which of the memtable's entries an iterator yields. */
  datatype MemKeys =
    | Range(lo: nat, hi: nat)
    | Chain(next: seq<nat>, at: nat)
    | List(list: seq<nat>, at: nat)

  ghost predicate MemKeysOk(mem: MemKeys, n: nat) {
    match mem
    case Range(lo, hi) => lo <= hi <= n
    case Chain(next, at) => Linkable(next, at) && |next| == n
    case List(list, at) => at <= |list| && forall i :: 0 <= i < |list| ==> list[i] < n
  }

  /** The positions still to come. */
  ghost function Positions(mem: MemKeys, n: nat): seq<nat>
    requires MemKeysOk(mem, n)
  {
    match mem
    case Range(lo, hi) => seq(hi - lo, i requires 0 <= i < hi - lo => lo + i)
    case Chain(next, at) => ChainFrom(next, at)
    case List(list, at) => list[at..]
  }

  lemma {:induction false} ChainInRange(next: seq<nat>, at: nat)
    requires Linkable(next, at)
    ensures forall i :: 0 <= i < |ChainFrom(next, at)| ==> ChainFrom(next, at)[i] < |next|
    decreases if at == NO_ENTRY then 0 else at + 1
  {
    if at != NO_ENTRY {
      ChainInRange(next, next[at]);
    }
  }

  lemma PositionsInRange(mem: MemKeys, n: nat)
    requires MemKeysOk(mem, n)
    ensures forall i :: 0 <= i < |Positions(mem, n)| ==> Positions(mem, n)[i] < n
  {
    if mem.Chain? {
      ChainInRange(mem.next, mem.at);
    }
  }

  /** The keys at the given positions, in their order. */
  ghost function KeysAt(keys: seq<Key>, positions: seq<nat>): seq<Key>
    requires forall i :: 0 <= i < |positions| ==> positions[i] < |keys|
  {
    seq(|positions|, i requires 0 <= i < |positions| => keys[positions[i]])
  }

  lemma KeysAtCons(keys: seq<Key>, p: nat, rest: seq<nat>)
    requires p < |keys| && forall i :: 0 <= i < |rest| ==> rest[i] < |keys|
    ensures KeysAt(keys, [p] + rest) == [keys[p]] + KeysAt(keys, rest)
  {
  }

  /** The step of `MemKeys::next`. */
  function Advance(mem: MemKeys, n: nat): (r: (Option<nat>, MemKeys))
    requires MemKeysOk(mem, n)
    ensures MemKeysOk(r.1, n)
    ensures r.0.None? ==> Positions(mem, n) == [] && r.1 == mem
    ensures r.0.Some? ==> r.0.value < n && Positions(mem, n) == [r.0.value] + Positions(r.1, n)
  {
    match mem
    case Range(lo, hi) => if lo < hi then (Some(lo), Range(lo + 1, hi)) else (None, mem)
    case Chain(next, at) => if at == NO_ENTRY then (None, mem) else (Some(at), Chain(next, next[at]))
    case List(list, at) => if at < |list| then (Some(list[at]), List(list, at + 1)) else (None, mem)
  }

  class KeysIter<V> {
    const memtable: Memtable<V>
    var mem: MemKeys
    var runs: seq<seq<Key>>
    var nextRun: nat
    var current: seq<Key>

    ghost predicate Valid()
      reads this, memtable
    {
      memtable.Valid() && MemKeysOk(mem, memtable.len) && nextRun <= |runs|
    }

    /** The buffered keys still to come. */
    ghost function Buffered(): seq<Key>
      requires Valid()
      reads this, memtable
    {
      PositionsInRange(mem, memtable.len);
      KeysLength(memtable.Entries());
      KeysAt(KeysOf(memtable.Entries()), Positions(mem, memtable.len))
    }

    /** All keys still to come. */
    ghost function Remaining(): seq<Key>
      requires Valid()
      reads this, memtable
    {
      Buffered() + current + Flatten(runs[nextRun..])
    }

    constructor (memtable: Memtable<V>, mem: MemKeys, runs: seq<seq<Key>>)
      requires memtable.Valid() && MemKeysOk(mem, memtable.len)
      ensures Valid() && this.memtable == memtable && this.mem == mem
      ensures Remaining() == Buffered() + Flatten(runs)
    {
      this.memtable, this.mem, this.runs := memtable, mem, runs;
      nextRun, current := 0, [];
      assert runs[0..] == runs;
    }

    /** `next`: yields the remaining keys one by one. */
    method Next() returns (r: Option<Key>)
      requires Valid()
      modifies this
      ensures Valid()
      ensures r.None? <==> old(Remaining()) == []
      ensures r.Some? ==> old(Remaining()) == [r.value] + Remaining()
    {
      hide Memtable.Valid, Positions, MemKeysOk;
      var (i, after) := Advance(mem, memtable.len);
      PositionsInRange(mem, memtable.len);
      if i.Some? {
        PositionsInRange(after, memtable.len);
        mem := after;
        var e := memtable.At(i.value);
        r := Some(e.key);
        memtable.Length();
        KeysAtCons(KeysOf(memtable.Entries()), i.value, Positions(after, memtable.len));
        assert old(Buffered()) == [e.key] + Buffered();
        return;
      }
      assert Buffered() == [];
      while current == []
        invariant Valid() && mem == old(mem) && nextRun >= old(nextRun)
        invariant Remaining() == old(Remaining())
        decreases |runs| - nextRun
      {
        if nextRun == |runs| {
          return None;
        }
        current := runs[nextRun];
        nextRun := nextRun + 1;
      }
      r := Some(current[0]);
      current := current[1..];
    }
  }
}
