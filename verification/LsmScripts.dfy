/**
 Whole histories: any sequence of inserts, flushes, absorbs and clears over any number of maps that
 share one memory budget. Each map ends up as the plain multiset the history describes.
 */
module LsmScripts {
  import opened Keys
  import opened Runs
  import opened Levels
  import opened Memtables
  import opened MemoryPools
  import opened LsmShapes
  import opened LsmMaps

  datatype Command<V> =
    | Insert(at: nat, key: Key, value: V)
    | Flush(at: nat)
    | Absorb(at: nat, from: nat)
    | Clear(at: nat)

  /** What a caller has to respect: existing maps, keys as wide as the map's, and absorbing another map of its kind. */
  ghost predicate Allowed<V>(c: Command<V>, kinds: seq<Params>) {
    && c.at < |kinds|
    && (c.Insert? ==> |c.key| == kinds[c.at].width)
    && (c.Absorb? ==> c.from < |kinds| && c.from != c.at && kinds[c.from] == kinds[c.at])
  }

  /** What a command on one map means for its plain multiset. */
  ghost function Effect<V>(bag: multiset<(Key, V)>, c: Command<V>): multiset<(Key, V)>
    requires !c.Absorb?
  {
    match c
    case Insert(_, key, value) => bag + multiset{(key, value)}
    case Flush(_) => bag
    case Clear(_) => multiset{}
  }

  ghost function Meaning<V>(bags: seq<multiset<(Key, V)>>, c: Command<V>): (r: seq<multiset<(Key, V)>>)
    requires c.at < |bags| && (c.Absorb? ==> c.from < |bags|)
    ensures |r| == |bags|
  {
    if c.Absorb? then bags[c.at := bags[c.at] + bags[c.from]][c.from := multiset{}]
    else bags[c.at := Effect(bags[c.at], c)]
  }

  ghost function History<V>(bags: seq<multiset<(Key, V)>>, script: seq<Command<V>>, kinds: seq<Params>)
    : (r: seq<multiset<(Key, V)>>)
    requires |kinds| == |bags| && forall n :: 0 <= n < |script| ==> Allowed(script[n], kinds)
    ensures |r| == |bags|
  {
    if script == [] then bags
    else
      var last := |script| - 1;
      assert Allowed(script[last], kinds);
      Meaning(History(bags, script[..last], kinds), script[last])
  }

  /** The maps are sound, share the pool, and own their buffers. */
  ghost predicate Together<V(!new)>(maps: seq<LsmMap<V>>, pool: MemoryPool)
    reads maps, set m | m in maps :: m.memtable, set m | m in maps :: m.pool
  {
    && (forall i :: 0 <= i < |maps| ==> maps[i].Valid() && maps[i].pool == pool)
    && (forall i, j :: 0 <= i < j < |maps| ==> maps[i] != maps[j] && maps[i].memtable != maps[j].memtable)
  }

  ghost function Kinds<V(!new)>(maps: seq<LsmMap<V>>): (r: seq<Params>)
    ensures |r| == |maps| && forall i :: 0 <= i < |r| ==> r[i] == maps[i].ps
  {
    seq(|maps|, i requires 0 <= i < |maps| => maps[i].ps)
  }

  ghost function Bags<V(!new)>(maps: seq<LsmMap<V>>): (r: seq<multiset<(Key, V)>>)
    reads maps, set m | m in maps :: m.memtable
    ensures |r| == |maps| && forall i :: 0 <= i < |r| ==> r[i] == maps[i].Contents()
  {
    seq(|maps|, i requires 0 <= i < |maps| reads maps, set m | m in maps :: m.memtable => maps[i].Contents())
  }

  /** Every map has its old buffer or a new one, so the maps still share none with anyone else. */
  twostate predicate KeptBuffers<V(!new)>(maps: seq<LsmMap<V>>)
    reads maps
  {
    forall i :: 0 <= i < |maps| ==> maps[i].memtable == old(maps[i].memtable) || fresh(maps[i].memtable)
  }

  /** Everything an operation on the maps may change. */
  ghost function Footprint<V(!new)>(pool: MemoryPool, maps: seq<LsmMap<V>>): set<object>
    reads maps
  {
    var shared: set<object> := {pool};
    var owners: set<object> := set m | m in maps;
    var buffers: set<object> := set m | m in maps :: m.memtable;
    shared + owners + buffers
  }

  /** A map an operation on other maps leaves alone stays as it was, but for the others' shares. */
  twostate lemma LeftAlone<V(!new)>(m: LsmMap<V>)
    requires old(m.Valid()) && unchanged(m) && unchanged(m.memtable)
    requires m in m.pool.shares && m.pool.shares[m] == old(m.pool.shares)[m]
    ensures m.Valid() && m.Contents() == old(m.Contents())
  {
    hide LsmMap.Settings, LsmMap.BufferOk, LevelsOk, LsmMap.Contents;
  }

  method Perform<V(==, !new)>(m: LsmMap<V>, c: Command<V>)
    requires m.Valid() && m.pool.Valid() && m.pool.Bounded() && !c.Absorb? && (c.Insert? ==> |c.key| == m.ps.width)
    modifies m, m.memtable, m.pool
    ensures m.Valid() && m.pool.Valid() && m.pool.Bounded()
    ensures m.Contents() == Effect(old(m.Contents()), c)
    ensures m.pool.shares == old(m.pool.shares)[m := m.memory]
    ensures m.memtable == old(m.memtable) || fresh(m.memtable)
  {
    hide LsmMap.Settings, LsmMap.BufferOk, LevelsOk, LsmMap.Contents, MemoryPool.Valid, MemoryPool.Bounded;
    match c
    case Insert(_, key, value) => m.Insert(key, value);
    case Flush(_) => m.Flush();
    case Clear(_) => m.Clear();
  }

  method ExecuteOne<V(==, !new)>(maps: seq<LsmMap<V>>, pool: MemoryPool, c: Command<V>)
    requires Together(maps, pool) && pool.Valid() && pool.Bounded() && Allowed(c, Kinds(maps)) && !c.Absorb?
    modifies pool, maps, set m | m in maps :: m.memtable
    ensures Together(maps, pool) && pool.Valid() && pool.Bounded()
    ensures Bags(maps) == Meaning(old(Bags(maps)), c)
    ensures pool.shares.Keys == old(pool.shares).Keys
    ensures KeptBuffers(maps)
  {
    hide LsmMap.Usable, LsmMap.Contents, MemoryPool.Valid, MemoryPool.Bounded, Effect;
    forall i | 0 <= i < |maps|
      ensures maps[i] in pool.shares
    {
      Registered(maps[i]);
    }
    var m := maps[c.at];
    Perform(m, c);
    forall i | 0 <= i < |maps| && i != c.at
      ensures maps[i].Valid() && maps[i].Contents() == old(maps[i].Contents())
    {
      LeftAlone(maps[i]);
    }
  }

  method ExecuteAbsorb<V(==, !new)>(maps: seq<LsmMap<V>>, pool: MemoryPool, c: Command<V>)
    requires Together(maps, pool) && pool.Valid() && pool.Bounded() && Allowed(c, Kinds(maps)) && c.Absorb?
    modifies pool, maps, set m | m in maps :: m.memtable
    ensures Together(maps, pool) && pool.Valid() && pool.Bounded()
    ensures Bags(maps) == Meaning(old(Bags(maps)), c)
    ensures pool.shares.Keys == old(pool.shares).Keys
    ensures KeptBuffers(maps)
  {
    hide LsmMap.Usable, LsmMap.Contents, MemoryPool.Valid, MemoryPool.Bounded, Effect, LsmMap.Shaped, LsmMap.Room;
    hide Tuning.Gives, Tuning.TakesIn, LsmMap.Tuned;
    forall i | 0 <= i < |maps|
      ensures maps[i] in pool.shares
    {
      Registered(maps[i]);
    }
    var m, other := maps[c.at], maps[c.from];
    m.Absorb(other);
    forall i | 0 <= i < |maps| && i != c.at && i != c.from
      ensures maps[i].Valid() && maps[i].Contents() == old(maps[i].Contents())
    {
      LeftAlone(maps[i]);
    }
  }

  method Execute<V(==, !new)>(maps: seq<LsmMap<V>>, pool: MemoryPool, c: Command<V>)
    requires Together(maps, pool) && pool.Valid() && pool.Bounded() && Allowed(c, Kinds(maps))
    modifies Footprint(pool, maps)
    ensures Together(maps, pool) && pool.Valid() && pool.Bounded()
    ensures Bags(maps) == Meaning(old(Bags(maps)), c)
    ensures pool.shares.Keys == old(pool.shares).Keys
    ensures fresh(Footprint(pool, maps) - old(Footprint(pool, maps)))
  {
    hide Together, LsmMap.Contents, MemoryPool.Valid, MemoryPool.Bounded, Meaning, Allowed, Kinds, Bags;
    if c.Absorb? {
      ExecuteAbsorb(maps, pool, c);
    } else {
      ExecuteOne(maps, pool, c);
    }
    forall o | o in Footprint(pool, maps) && o !in old(Footprint(pool, maps))
      ensures fresh(o)
    {
      var i :| 0 <= i < |maps| && maps[i].memtable == o;
    }
  }

  lemma Registered<V(!new)>(m: LsmMap<V>)
    requires m.Valid()
    ensures m in m.pool.shares
  {
    hide LsmMap.Settings, LsmMap.BufferOk, LevelsOk, LsmMap.Contents;
  }

  /** What the maps' buffers hold together, each by its own measure. */
  ghost function BufferBytes<V(!new)>(maps: seq<LsmMap<V>>, n: nat): nat
    requires n <= |maps|
    reads maps, set m | m in maps :: m.memtable
  {
    if n == 0 then 0 else BufferBytes(maps, n - 1) + maps[n - 1].footprint(maps[n - 1].memtable.Entries())
  }

  /** The counter is what the buffers hold, if only these maps are live. */
  lemma {:induction false} CounterIsBuffers<V(!new)>(
    maps: seq<LsmMap<V>>, pool: MemoryPool, shares: map<object, nat>, n: nat)
    requires Together(maps, pool) && n <= |maps|
    requires forall o :: o in shares ==> exists i :: 0 <= i < n && maps[i] == o
    requires forall i :: 0 <= i < n ==>
      maps[i] in shares && maps[i] in pool.shares && shares[maps[i]] == pool.shares[maps[i]]
    ensures Sum(shares) == BufferBytes(maps, n)
  {
    hide LsmMap.Usable, Sum, Together;
    if n == 0 {
      assert shares == map[];
      NoShares();
    } else {
      var m: object := maps[n - 1];
      ShareIsBuffer(maps, pool, n - 1);
      SumWithout(shares, m);
      ApartFromLast(maps, pool, n);
      CounterIsBuffers(maps, pool, shares - {m}, n - 1);
    }
  }

  lemma ApartFromLast<V(!new)>(maps: seq<LsmMap<V>>, pool: MemoryPool, n: nat)
    requires Together(maps, pool) && 0 < n <= |maps|
    ensures forall i :: 0 <= i < n - 1 ==> maps[i] != maps[n - 1]
  {
    hide LsmMap.Usable;
  }

  lemma ShareIsBuffer<V(!new)>(maps: seq<LsmMap<V>>, pool: MemoryPool, i: nat)
    requires Together(maps, pool) && i < |maps| && maps[i] in pool.shares
    ensures pool.shares[maps[i]] == maps[i].footprint(maps[i].memtable.Entries())
  {
    hide LsmMap.Settings, LsmMap.BufferOk, LevelsOk, LsmMap.Contents, Memtable.Entries;
    assert maps[i].Valid();
  }

  /** Only these maps are live. */
  ghost predicate OnlyThese<V(!new)>(maps: seq<LsmMap<V>>, shares: map<object, nat>) {
    && (forall o :: o in shares ==> exists i :: 0 <= i < |maps| && maps[i] == o)
    && (forall i :: 0 <= i < |maps| ==> maps[i] in shares)
  }

  lemma CounterIsExact<V(!new)>(maps: seq<LsmMap<V>>, pool: MemoryPool)
    requires Together(maps, pool) && pool.Valid() && OnlyThese(maps, pool.shares)
    ensures pool.inUse == BufferBytes(maps, |maps|)
  {
    hide Together, Sum, BufferBytes;
    CounterIsBuffers(maps, pool, pool.shares, |maps|);
  }

  lemma LevelsBounded<V(!new)>(m: LsmMap<V>)
    requires m.Valid()
    ensures forall l :: 0 <= l < |m.levels| ==> |m.levels[l]| <= m.levelFanout
  {
    hide LsmMap.BufferOk, LsmMap.Contents;
  }

  /**
   Every history is right: each map holds exactly the pairs the plain multisets hold, its length is
   their number, no level has more runs than the map's fanout, the counter is what the buffers hold, and
   that stays within the budget and one threshold for each live map.
   */
  method RunScript<V(==, !new)>(maps: seq<LsmMap<V>>, pool: MemoryPool, script: seq<Command<V>>)
    requires Together(maps, pool) && pool.Valid() && pool.Bounded()
    requires forall n :: 0 <= n < |script| ==> Allowed(script[n], Kinds(maps))
    modifies Footprint(pool, maps)
    ensures Together(maps, pool) && pool.Valid() && pool.Bounded()
    ensures Bags(maps) == History(old(Bags(maps)), script, Kinds(maps))
    ensures forall i :: 0 <= i < |maps| ==> maps[i].len == |History(old(Bags(maps)), script, Kinds(maps))[i]|
    ensures pool.shares.Keys == old(pool.shares).Keys
    ensures pool.inUse <= pool.budget + MIN_BUDGET_FLUSH_BYTES * |pool.shares|
    ensures forall i, l :: 0 <= i < |maps| && 0 <= l < |maps[i].levels| ==> |maps[i].levels[l]| <= maps[i].levelFanout
    ensures OnlyThese(maps, old(pool.shares)) ==> pool.inUse == BufferBytes(maps, |maps|)
  {
    hide MemoryPool.Valid, MemoryPool.Bounded, LsmMap.Usable, Meaning, LsmMap.Contents;
    ghost var bags := Bags(maps);
    for n := 0 to |script|
      invariant Together(maps, pool) && pool.Valid() && pool.Bounded()
      invariant Bags(maps) == History(bags, script[..n], Kinds(maps))
      invariant pool.shares.Keys == old(pool.shares).Keys
      invariant fresh(Footprint(pool, maps) - old(Footprint(pool, maps)))
    {
      assert script[..n + 1][..n] == script[..n];
      Execute(maps, pool, script[n]);
    }
    assert script[..|script|] == script;
    pool.TotalBounded();
    forall i | 0 <= i < |maps|
      ensures maps[i].len == |Bags(maps)[i]|
      ensures forall l :: 0 <= l < |maps[i].levels| ==> |maps[i].levels[l]| <= maps[i].levelFanout
    {
      LengthIsSize(maps[i]);
      LevelsBounded(maps[i]);
    }
    if OnlyThese(maps, old(pool.shares)) {
      assert OnlyThese(maps, pool.shares);
      CounterIsExact(maps, pool);
    }
  }

  lemma LengthIsSize<V(!new)>(m: LsmMap<V>)
    requires m.Valid()
    ensures m.len == |m.Contents()|
  {
    hide LsmMap.BufferOk, LevelsOk, LsmMap.Contents;
  }
}
