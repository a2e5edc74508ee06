/**
 The sharded interner, run by one thread: each distinct value gets one id, which names it for
 ever. Values are slices in a shard's bump arena; a slot holds a value's span.
 */
module Interner {
  import opened Wrappers
  import opened IdArithmetic
  import opened GeometricMemory
  import opened BumpArena

  /** The halves of a value's 64-bit hash: one picks the shard, the other is stored. */
  datatype Hash = Hash(high: nat, low: nat)

  /** A hash-table entry: an id beside the stored half of its value's hash. */
  datatype Entry = Entry(raw: nat, h32: nat)

  /** What `intern` returns, or why it panics. */
  datatype Outcome = Issued(id: nat) | ShardFull | ArenaFull

  /** Where a value's entry comes from: its shard, the shard count, and the hash. */
  datatype Scheme<!U> = Scheme(index: nat, log2S: nat, hash: seq<U> -> Hash) {
    function EntryOf(local: nat, value: seq<U>): Entry {
      Entry(Encode(index, local, log2S), hash(value).low)
    }
  }

  /** The table has one entry per value and no others. */
  ghost predicate TableLists<U>(sch: Scheme<U>, table: set<Entry>, values: seq<seq<U>>) {
    && (forall l :: 0 <= l < |values| ==> sch.EntryOf(l, values[l]) in table)
    && (forall e :: e in table ==> exists l :: 0 <= l < |values| && e == sch.EntryOf(l, values[l]))
  }

  /** The slot of each local index leads to its value. */
  ghost predicate SlotsLead<U>(slots: seq<Block<Span>>, values: seq<seq<U>>, stored: seq<Stored<U>>) {
    forall l :: 0 <= l < |values| ==>
      var slot := CellAt(slots, LOG2_FIRST_BUCKET, l);
      slot.Some? && Stored(slot.value, values[l]) in stored
  }

  ghost predicate Distinct<U>(values: seq<seq<U>>) {
    forall i, j :: 0 <= i < j < |values| ==> values[i] != values[j]
  }

  lemma EntriesDiffer<U>(sch: Scheme<U>, values: seq<seq<U>>, l: nat, m: nat)
    requires sch.index < Pow2(sch.log2S) && l < |values| < TWO_TO_THE_32 && m < |values|
    requires sch.EntryOf(l, values[l]) == sch.EntryOf(m, values[m])
    ensures l == m
  {
  }

  lemma TableAppends<U>(sch: Scheme<U>, table: set<Entry>, values: seq<seq<U>>, value: seq<U>)
    requires TableLists(sch, table, values)
    ensures TableLists(sch, table + {sch.EntryOf(|values|, value)}, values + [value])
  {
    hide Scheme.EntryOf;
    var bigger, more := table + {sch.EntryOf(|values|, value)}, values + [value];
    forall e | e in bigger
      ensures exists l :: 0 <= l < |more| && e == sch.EntryOf(l, more[l])
    {
      if e in table {
        var l :| 0 <= l < |values| && e == sch.EntryOf(l, values[l]);
        assert more[l] == values[l];
      } else {
        assert more[|values|] == value;
      }
    }
  }

  lemma SlotsAppend<U>(before: seq<Block<Span>>, after: seq<Block<Span>>, values: seq<seq<U>>, value: seq<U>,
                       stored: seq<Stored<U>>, span: Span)
    requires SlotsLead(before, values, stored) && Stored(span, value) in stored
    requires WroteAt(before, after, LOG2_FIRST_BUCKET, |values|, [span])
    ensures SlotsLead(after, values + [value], stored)
  {
    hide Split, Pow2, CellAt, WroteAt;
    WriteIsRead(before, after, LOG2_FIRST_BUCKET, |values|, [span]);
    assert CellAt(after, LOG2_FIRST_BUCKET, |values| + 0) == Some([span][0]);
    forall l | 0 <= l < |values|
      ensures CellAt(after, LOG2_FIRST_BUCKET, l) == CellAt(before, LOG2_FIRST_BUCKET, l)
    {
      var w := [CellAt(before, LOG2_FIRST_BUCKET, l).value];
      WriteKeepsOlder(before, after, LOG2_FIRST_BUCKET, |values|, [span], l, w);
      assert CellAt(after, LOG2_FIRST_BUCKET, l + 0) == Some(w[0]);
    }
  }

  /**
   Panics exactly for a new value whose shard is full, or whose arena, with its cursor at `next`, has no room
   for `n` units; the cursor moves for a value that is stored, or was to be.
   */
  ghost predicate Settles(r: Outcome, known: bool, full: bool, next: nat, n: nat, after: nat) {
    && (r.ShardFull? <==> !known && full)
    && (r.ArenaFull? <==> !known && !full && !HasRoom(next, n))
    && (if known || full then after == next else CursorMoves(next, n, after))
  }

  class Shard<U(==)> {
    const scheme: Scheme<U>
    const arena: Bump<U>
    var table: set<Entry>
    var len: nat
    var published: nat
    var slots: seq<Block<Span>>
    /** The values by local index. */
    ghost var values: seq<seq<U>>

    ghost predicate Valid()
      reads this, arena
    {
      && arena.Valid()
      && scheme.index < Pow2(scheme.log2S)
      && len == published == |values| < TWO_TO_THE_32
      && |slots| == BUCKETS && WellSized(slots, LOG2_FIRST_BUCKET)
      && SlotsLead(slots, values, arena.stored)
      && TableLists(scheme, table, values)
      && Distinct(values)
    }

    constructor (scheme: Scheme<U>)
      requires scheme.index < Pow2(scheme.log2S)
      ensures Valid() && fresh(arena) && values == [] && arena.next == 0 && this.scheme == scheme
    {
      this.scheme := scheme;
      arena := new Bump();
      table, len, published, values := {}, 0, 0, [];
      slots := seq(BUCKETS, _ => Null);
    }

    /** `value`: follows an issued id to its slot, and the slot to the arena. */
    method Value(raw: nat, ghost local: nat) returns (v: seq<U>)
      requires Valid() && local < |values| && raw == Encode(scheme.index, local, scheme.log2S)
      ensures v == values[local]
    {
      hide Split, Pow2, Encode, Decode, TableLists, Distinct, Bump.Valid;
      EncodeDecode(raw, scheme.index, local, scheme.log2S);
      var n := Decode(raw, scheme.log2S).1;
      ghost var span := CellAt(slots, LOG2_FIRST_BUCKET, n).value;
      var (b, i) := Split(n, LOG2_FIRST_BUCKET);
      var slot := slots[b].cells[i].value;
      v := arena.LoadSlice(slot, values[local]);
    }

    /** `find`: the id of `value`, if the shard holds it. */
    method Find(h32: nat, value: seq<U>) returns (r: Option<nat>)
      requires Valid() && h32 == scheme.hash(value).low
      ensures r.Some? <==> value in values
      ensures r.Some? ==> exists l ::
        0 <= l < |values| && values[l] == value && r.value == Encode(scheme.index, l, scheme.log2S)
    {
      hide Split, Pow2, Encode, SlotsLead, Bump.Valid, WellSized, Distinct;
      var rest := table;
      while rest != {}
        invariant rest <= table
        invariant forall l :: 0 <= l < |values| && values[l] == value ==> scheme.EntryOf(l, values[l]) in rest
        decreases rest
      {
        var e :| e in rest;
        ghost var l :| 0 <= l < |values| && e == scheme.EntryOf(l, values[l]);
        if e.h32 == h32 {
          var v := Value(e.raw, l);
          if v == value {
            return Some(e.raw);
          }
        }
        rest := rest - {e};
        forall m | 0 <= m < |values| && values[m] == value
          ensures scheme.EntryOf(m, values[m]) in rest
        {
          if scheme.EntryOf(m, values[m]) == e {
            EntriesDiffer(scheme, values, l, m);
          }
        }
      }
      r := None;
    }

    /**
     `intern` on one shard. The code looks the value up again under the write lock; with no other
     thread in between that finds what the first look-up found (`InternProtocol` has the rest).
     */
    method Intern(value: seq<U>, limit: nat) returns (r: Outcome)
      requires Valid() && |values| <= limit < TWO_TO_THE_32
      modifies this, arena
      ensures Valid()
      ensures values == if r.Issued? && value !in old(values) then old(values) + [value] else old(values)
      ensures r.Issued? ==> exists l ::
        0 <= l < |values| && values[l] == value && r.id == Encode(scheme.index, l, scheme.log2S)
      ensures |values| <= limit && (value in old(values) ==> r.Issued?)
      ensures Settles(r, value in old(values), |old(values)| == limit, old(arena.next), |value|, arena.next)
    {
      hide Split, Pow2, Encode, CellAt, Bump.Valid, WellSized, InsideOneChunk, TableLists, Distinct, HasRoom, FirstFit;
      hide CursorMoves;
      var h32 := scheme.hash(value).low;
      var hit := Find(h32, value);
      if hit.Some? {
        return Issued(hit.value);
      }
      if len >= limit {
        return ShardFull;
      }
      var span := arena.StoreSlice(value);
      if span.None? {
        return ArenaFull;
      }
      r := Issued(Encode(scheme.index, len, scheme.log2S));
      Append(span.value, value, h32);
    }

    /** Writes the slot, inserts the table entry, and publishes the new length. */
    method Append(span: Span, value: seq<U>, h32: nat)
      requires Valid() && value !in values && |values| + 1 < TWO_TO_THE_32
      requires Stored(span, value) in arena.stored && h32 == scheme.hash(value).low
      modifies this
      ensures Valid()
      ensures values == old(values) + [value]
    {
      hide Split, Pow2, Encode, SlotsLead, TableLists, Bump.Valid;
      BucketsAndChunksSuffice();
      slots := Write(slots, LOG2_FIRST_BUCKET, len, [span]);
      SlotsAppend(old(slots), slots, values, value, arena.stored, span);
      table := table + {Entry(Encode(scheme.index, len, scheme.log2S), h32)};
      TableAppends(scheme, old(table), values, value);
      values := values + [value];
      len := len + 1;
      published := len;
    }
  }
  /** How an interner places values: `Pow2(log2S)` shards, and ids that fit in `bits` bits. */
  datatype Layout<!U> = Layout(log2S: nat, bits: nat, hash: seq<U> -> Hash) {
    predicate Valid() {
      log2S <= MAX_LOG2_SHARDS && log2S < bits <= 32
    }

    function ShardOf(value: seq<U>): (s: nat)
      ensures s < Pow2(log2S)
    {
      hash(value).high % Pow2(log2S)
    }

    /** Each value is in the shard its hash picks, within the limit, under the id of its place. */
    ghost predicate Names(values: seq<seq<seq<U>>>, ids: map<seq<U>, nat>)
      requires Valid()
    {
      && |values| == Pow2(log2S)
      && (forall s :: 0 <= s < |values| ==> |values[s]| <= Limit(bits, log2S))
      && (forall s, l :: 0 <= s < |values| && 0 <= l < |values[s]| ==>
            && ShardOf(values[s][l]) == s
            && values[s][l] in ids && ids[values[s][l]] == Encode(s, l, log2S))
      && (forall v :: v in ids ==> v in values[ShardOf(v)])
    }

    /** Two values never share an id. */
    lemma NamesInjective(values: seq<seq<seq<U>>>, ids: map<seq<U>, nat>, v: seq<U>, w: seq<U>)
      requires Valid() && Names(values, ids)
      requires v in ids && w in ids && ids[v] == ids[w]
      ensures v == w
    {
      hide Pow2, Encode, Decode, Limit, ShardOf;
      var s, t := ShardOf(v), ShardOf(w);
      var i :| 0 <= i < |values[s]| && values[s][i] == v;
      var j :| 0 <= j < |values[t]| && values[t][j] == w;
      LimitFits(bits, log2S);
      EncodeDecode(ids[v], s, i, log2S);
      EncodeDecode(ids[v], t, j, log2S);
    }

    /** Appending a new value to its shard gives it the next id there, and disturbs no other. */
    lemma NamesAppend(values: seq<seq<seq<U>>>, ids: map<seq<U>, nat>, value: seq<U>)
      requires Valid() && Names(values, ids) && value !in ids
      requires var s := ShardOf(value); |values[s]| < Limit(bits, log2S)
      ensures var s := ShardOf(value);
        Names(values[s := values[s] + [value]], ids[value := Encode(s, |values[s]|, log2S)])
    {
      hide Pow2, Encode, Limit, ShardOf;
    }

    /** A value is interned exactly when its shard lists it, and then under the id of its place. */
    lemma NamesFinds(values: seq<seq<seq<U>>>, ids: map<seq<U>, nat>, value: seq<U>)
      requires Valid() && Names(values, ids)
      ensures |values| == Pow2(log2S)
      ensures value in ids <==> value in values[ShardOf(value)]
      ensures forall l :: 0 <= l < |values[ShardOf(value)]| && values[ShardOf(value)][l] == value ==>
        ids[value] == Encode(ShardOf(value), l, log2S)
    {
      hide Pow2, Encode, Limit, ShardOf;
    }

    /** The numbers `from_raw` accepts are exactly the ids that were issued. */
    lemma NamesDecode(values: seq<seq<seq<U>>>, ids: map<seq<U>, nat>, raw: nat)
      requires Valid() && Names(values, ids)
      ensures var (s, l) := Decode(raw, log2S);
        && s < |values|
        && (l < |values[s]| <==> raw in ids.Values)
        && (l < |values[s]| ==> ids[values[s][l]] == raw)
    {
      hide Pow2, Encode, Limit, ShardOf;
      var (s, l) := Decode(raw, log2S);
      LimitFits(bits, log2S);
      assert s < Pow2(log2S) by {
        assert Pow2(log2S) > 0;
      }
      if l < |values[s]| {
        hide Decode;
        EncodeDecode(raw, s, l, log2S);
        assert values[s][l] in ids && ids[values[s][l]] == raw;
      }
      if raw in ids.Values {
        hide Decode;
        var v :| v in ids && ids[v] == raw;
        var t := ShardOf(v);
        var m :| 0 <= m < |values[t]| && values[t][m] == v;
        EncodeDecode(raw, t, m, log2S);
      }
    }
  }

  lemma NamesIntern<U>(layout: Layout<U>, values: seq<seq<seq<U>>>, ids: map<seq<U>, nat>, value: seq<U>,
                       after: seq<seq<U>>, l: nat)
    requires layout.Valid() && layout.Names(values, ids)
    requires var s := layout.ShardOf(value);
      && after == (if value in values[s] then values[s] else values[s] + [value])
      && |after| <= Limit(layout.bits, layout.log2S)
    requires l < |after| && after[l] == value
    ensures var s := layout.ShardOf(value);
      var id := Encode(s, l, layout.log2S);
      && layout.Names(values[s := after], ids[value := id])
      && Pow2(layout.log2S) <= id < Pow2(layout.bits)
      && (if value in ids then ids[value] == id else id !in ids.Values)
  {
    hide Pow2, Encode, Decode, Limit, Layout.Names, Layout.ShardOf;
    var s := layout.ShardOf(value);
    var id := Encode(s, l, layout.log2S);
    layout.NamesFinds(values, ids, value);
    IdsFit(s, l, layout.log2S, layout.bits);
    if value in ids {
      assert values[s := after] == values && ids[value := id] == ids;
    } else {
      layout.NamesAppend(values, ids, value);
      EncodeDecode(id, s, l, layout.log2S);
      layout.NamesDecode(values, ids, id);
    }
  }

  lemma NothingNamed<U>(layout: Layout<U>, values: seq<seq<seq<U>>>)
    requires layout.Valid() && |values| == Pow2(layout.log2S) && forall s :: 0 <= s < |values| ==> values[s] == []
    ensures layout.Names(values, map[])
  {
    hide Pow2, Limit, Layout.ShardOf;
  }

  /** One empty shard for each shard number. */
  method MakeShards<U(==)>(layout: Layout<U>) returns (made: seq<Shard<U>>)
    ensures |made| == Pow2(layout.log2S)
    ensures forall i :: 0 <= i < |made| ==> fresh(made[i]) && fresh(made[i].arena)
    ensures forall i :: 0 <= i < |made| ==>
      && made[i].Valid() && made[i].values == [] && made[i].arena.next == 0
      && made[i].scheme == Scheme(i, layout.log2S, layout.hash)
    ensures forall i, j :: 0 <= i < j < |made| ==> made[i] != made[j] && made[i].arena != made[j].arena
  {
    hide Pow2, Shard.Valid;
    made := [];
    var n := Pow2(layout.log2S);
    while |made| < n
      invariant |made| <= n
      invariant forall i :: 0 <= i < |made| ==> fresh(made[i]) && fresh(made[i].arena)
      invariant forall i :: 0 <= i < |made| ==>
        && made[i].Valid() && made[i].values == [] && made[i].arena.next == 0
        && made[i].scheme == Scheme(i, layout.log2S, layout.hash)
      invariant forall i, j :: 0 <= i < j < |made| ==> made[i] != made[j] && made[i].arena != made[j].arena
    {
      var shard := new Shard(Scheme(|made|, layout.log2S, layout.hash));
      made := made + [shard];
    }
  }

  class IdInterner<U(==)> {
    const layout: Layout<U>
    const shards: seq<Shard<U>>
    /** The id of every interned value. */
    ghost var ids: map<seq<U>, nat>

    ghost function Values(): seq<seq<seq<U>>>
      reads shards
    {
      seq(|shards|, k requires 0 <= k < |shards| reads shards => shards[k].values)
    }

    /** One sound shard for each shard number, each on its own. */
    ghost predicate ShardsOk()
      reads shards, set k | 0 <= k < |shards| :: shards[k].arena
    {
      && |shards| == Pow2(layout.log2S)
      && (forall i, j :: 0 <= i < j < |shards| ==> shards[i] != shards[j] && shards[i].arena != shards[j].arena)
      && (forall s :: 0 <= s < |shards| ==>
            shards[s].Valid() && shards[s].scheme == Scheme(s, layout.log2S, layout.hash))
    }

    ghost predicate Valid()
      reads this, shards, set k | 0 <= k < |shards| :: shards[k].arena
    {
      layout.Valid() && ShardsOk() && layout.Names(Values(), ids)
    }

    /** `with_id_bits`. */
    constructor (layout: Layout<U>)
      requires layout.Valid()
      ensures Valid() && ids == map[] && this.layout == layout
      ensures forall s :: 0 <= s < |shards| ==> fresh(shards[s]) && fresh(shards[s].arena) && shards[s].arena.next == 0
    {
      hide Pow2, Shard.Valid, Limit, Layout.Names;
      var made := MakeShards(layout);
      this.layout, shards := layout, made;
      ids := map[];
      new;
      NothingNamed(layout, Values());
    }

    /** The next id of a shard with these values would not fit in the bits. */
    ghost predicate ShardIsFull(shard: nat, values: seq<seq<U>>) {
      Encode(shard, |values|, layout.log2S) >= Pow2(layout.bits)
    }

    lemma FullAtLimit(shard: nat, values: seq<seq<U>>)
      requires layout.Valid() && shard < Pow2(layout.log2S) && |values| <= Limit(layout.bits, layout.log2S)
      ensures ShardIsFull(shard, values) <==> |values| == Limit(layout.bits, layout.log2S)
    {
      hide Pow2, Encode, Limit;
      LimitIsLargest(shard, |values|, layout.log2S, layout.bits);
    }

    /** The shard a value belongs to, by the high half of its hash; it shows in the low bits of the value's id. */
    lemma HomeShard(value: seq<U>, local: nat)
      ensures layout.ShardOf(value) == layout.hash(value).high % Pow2(layout.log2S)
      ensures Encode(layout.ShardOf(value), local, layout.log2S) % Pow2(layout.log2S) == layout.ShardOf(value)
    {
      hide Encode, Pow2;
      EncodeShard(layout.ShardOf(value), local, layout.log2S);
    }

    /**
     `intern`: one id per value, for ever; a new value's id is new and fits. It panics exactly for a
     new value whose shard is full, or whose shard's arena has no place for it.
     */
    method Intern(value: seq<U>) returns (r: Outcome)
      requires Valid()
      modifies this, shards, set k | 0 <= k < |shards| :: shards[k].arena
      ensures Valid()
      ensures ids == if r.Issued? then old(ids)[value := r.id] else old(ids)
      ensures value in old(ids) ==> r == Issued(old(ids)[value])
      ensures r.Issued? ==> Pow2(layout.log2S) <= r.id < Pow2(layout.bits)
      ensures r.Issued? && value !in old(ids) ==> r.id !in old(ids).Values
      ensures |shards| == Pow2(layout.log2S) && (r.Issued? ==> r.id % |shards| == layout.ShardOf(value))
      ensures var s := layout.ShardOf(value);
        Settles(r, value in old(ids), ShardIsFull(s, old(shards[s].values)),
                old(shards[s].arena.next), |value|, shards[s].arena.next)
      ensures forall k :: 0 <= k < |shards| && k != layout.ShardOf(value) ==>
        shards[k].arena.next == old(shards[k].arena.next)
    {
      hide Pow2, Encode, Limit, ShardsOk, Layout.Names, Layout.ShardOf, Settles, ShardIsFull;
      var s := layout.ShardOf(value);
      ghost var before := Values();
      layout.NamesFinds(before, ids, value);
      Bounded(s);
      FullAtLimit(s, before[s]);
      ghost var l;
      r, l := InternAt(s, value);
      if r.Issued? {
        NamesIntern(layout, before, ids, value, shards[s].values, l);
        HomeShard(value, l);
        ids := ids[value := r.id];
      } else {
        assert Values() == before;
      }
    }

    /** Interns in one shard, at the slot `l`, and touches no other. */
    method InternAt(s: nat, value: seq<U>) returns (r: Outcome, ghost l: nat)
      requires layout.Valid() && ShardsOk() && s < |shards|
      requires |shards[s].values| <= Limit(layout.bits, layout.log2S)
      modifies shards, set k | 0 <= k < |shards| :: shards[k].arena
      ensures ShardsOk() && Values() == old(Values())[s := shards[s].values]
      ensures shards[s].values ==
        if r.Issued? && value !in old(shards[s].values) then old(shards[s].values) + [value] else old(shards[s].values)
      ensures |shards[s].values| <= Limit(layout.bits, layout.log2S) && (value in old(shards[s].values) ==> r.Issued?)
      ensures r.Issued? ==>
        l < |shards[s].values| && shards[s].values[l] == value && r.id == Encode(s, l, layout.log2S)
      ensures Settles(r, value in old(shards[s].values), |old(shards[s].values)| == Limit(layout.bits, layout.log2S),
                      old(shards[s].arena.next), |value|, shards[s].arena.next)
      ensures forall k :: 0 <= k < |shards| && k != s ==> shards[k].arena.next == old(shards[k].arena.next)
    {
      hide Pow2, Encode, Limit, Shard.Valid, Settles;
      LimitFits(layout.bits, layout.log2S);
      r := shards[s].Intern(value, Limit(layout.bits, layout.log2S));
      if r.Issued? {
        l :| 0 <= l < |shards[s].values| && shards[s].values[l] == value && r.id == Encode(s, l, layout.log2S);
      } else {
        l := 0;
      }
    }

    /** `try_get`: the id of `value`, if it was interned. */
    method TryGet(value: seq<U>) returns (r: Option<nat>)
      requires Valid()
      ensures r == if value in ids then Some(ids[value]) else None
    {
      hide Pow2, Encode, Decode, Limit, Bump.Valid, Layout.Names, Layout.ShardOf, SlotsLead, TableLists;
      var s := layout.ShardOf(value);
      layout.NamesFinds(Values(), ids, value);
      assert Values()[s] == shards[s].values;
      r := shards[s].Find(layout.hash(value).low, value);
    }

    /** `get`: the value an issued id names. */
    method Get(id: nat) returns (v: seq<U>)
      requires Valid() && id in ids.Values
      ensures v in ids && ids[v] == id
    {
      hide Pow2, Encode, Decode, Limit, Bump.Valid, Layout.ShardOf, SlotsLead, TableLists;
      layout.NamesDecode(Values(), ids, id);
      var (s, l) := Decode(id, layout.log2S);
      assert Values()[s] == shards[s].values;
      v := shards[s].Value(id, l);
    }

    /** `from_raw`: accepts exactly the ids that were issued. */
    method FromRaw(raw: nat) returns (r: Option<nat>)
      requires Valid()
      ensures r == if raw in ids.Values then Some(raw) else None
    {
      hide Pow2, Encode, Decode, Limit, Bump.Valid, Layout.Names, Layout.ShardOf, SlotsLead, TableLists;
      layout.NamesDecode(Values(), ids, raw);
      var (s, l) := Decode(raw, layout.log2S);
      assert Values()[s] == shards[s].values;
      r := if l < shards[s].published then Some(raw) else None;
    }

    lemma Bounded(s: nat)
      requires Valid() && s < |shards|
      ensures |shards[s].values| <= Limit(layout.bits, layout.log2S)
    {
      assert Values()[s] == shards[s].values;
    }
  }
}
