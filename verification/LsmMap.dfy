/**
 The LSM multi-map: a write buffer in front of levels of immutable runs. Whatever it does inside,
 it is a plain multiset of (key, value) pairs.
 */
module LsmMaps {
  import opened Wrappers
  import opened Keys
  import opened Entries
  import opened Bloom
  import opened Runs
  import opened RunWriting
  import opened Compaction
  import opened Levels
  import opened Memtables
  import opened MemoryPools
  import opened Merge
  import opened KeyIterators
  import opened Reads
  import opened LsmShapes

  /** `max(1)`. */
  function AtLeastOne(n: nat): (r: nat)
    ensures r >= 1 && r >= n && (r == n || (r == 1 && n == 0))
  {
    if n == 0 then 1 else n
  }

  class LsmMap<V(==, !new)> {
    const ps: Params
    /** Entries per memtable chunk. */
    const chunk: nat
    const memtableLimit: nat
    const levelFanout: nat
    const prefixLens: seq<nat>
    /** The heap a write buffer with these entries holds. */
    const footprint: seq<Entry<V>> -> nat
    const pool: MemoryPool

    var memtable: Memtable<V>
    var levels: seq<seq<Run<V>>>
    var memtableLen: nat
    var len: nat
    /** This map's share of the pool. */
    var memory: nat

    /** What was fixed when the map was made. */
    ghost predicate Settings() {
      && chunk > 0 && 0 < memtableLimit <= NO_ENTRY && levelFanout > 0
      && (forall f :: 0 <= f < |prefixLens| ==> prefixLens[f] <= ps.width)
      && footprint([]) == 0
    }

    /** The buffer and the counters about it agree. */
    ghost predicate BufferOk()
      reads `memtable, `memtableLen, memtable
    {
      && memtable.Valid() && memtable.ps == ps && memtable.size == chunk && LengthsOf(memtable.prefixes) == prefixLens
      && memtableLen == |Bag(memtable.Entries())|
    }

    /** The share is what the buffer holds, and the pool knows it. */
    ghost predicate ShareOk()
      reads `memory, `memtable, memtable, pool
    {
      memory == footprint(memtable.Entries()) && this in pool.shares && pool.shares[this] == memory
    }

    /** Sound, with a buffer that may have just become full. */
    ghost predicate Usable()
      reads this, memtable, pool
    {
      && Settings() && BufferOk() && ShareOk()
      && LevelsOk(ps, levels, levelFanout)
      && len == |Contents()|
    }

    ghost predicate Valid()
      reads this, memtable, pool
    {
      Usable() && memtableLen < memtableLimit
    }

    /** The pairs in the map. */
    ghost function Contents(): multiset<(Key, V)>
      reads `memtable, `levels, memtable
    {
      Bag(memtable.Entries()) + LevelsBag(levels)
    }

    ghost function Tuned(): Tuning<V> {
      Tuning(ps, prefixLens, memtableLimit, levelFanout, footprint)
    }

    ghost function Shaped(): Shape<V>
      reads this, memtable
    {
      Shape(memtable.Entries(), memtableLen, levels)
    }

    /** The bytes of the budget that the other maps leave. */
    ghost function Room(): int
      reads `memory, pool
    {
      pool.budget - (pool.inUse - memory)
    }

    constructor (ps: Params, chunk: nat, memtableLimit: nat, levelFanout: nat, prefixLens: seq<nat>,
                 footprint: seq<Entry<V>> -> nat, pool: MemoryPool)
      requires chunk > 0 && memtableLimit <= NO_ENTRY && footprint([]) == 0
      requires forall f :: 0 <= f < |prefixLens| ==> prefixLens[f] <= ps.width
      requires pool.Valid() && pool.Bounded()
      modifies pool
      ensures Valid() && pool.Valid() && pool.Bounded() && fresh(memtable)
      ensures Contents() == multiset{}
      ensures this.pool == pool && this.ps == ps && this.prefixLens == prefixLens
      ensures this.chunk == chunk && this.footprint == footprint
      ensures this.memtableLimit == AtLeastOne(memtableLimit) && this.levelFanout == AtLeastOne(levelFanout)
      ensures Shaped() == Shape([], 0, [])
      ensures pool.shares == old(pool.shares)[this := 0]
    {
      this.ps, this.chunk, this.pool, this.footprint := ps, chunk, pool, footprint;
      this.memtableLimit := AtLeastOne(memtableLimit);
      this.levelFanout := AtLeastOne(levelFanout);
      this.prefixLens := prefixLens;
      memtable := new Memtable(ps, chunk, prefixLens);
      levels, memtableLen, len, memory := [], 0, 0, 0;
      new;
      pool.Enter(this);
    }

    /** `count_memory`: brings the share up to date with the buffer. */
    method CountMemory()
      requires Settings() && BufferOk()
      requires pool.Valid() && this in pool.shares && pool.shares[this] == memory
      modifies `memory, pool
      ensures pool.Valid() && ShareOk()
      ensures pool.shares == old(pool.shares)[this := memory]
      ensures pool.inUse == old(pool.inUse) - old(memory) + memory
    {
      hide Memtable.Valid, Bag;
      var es := memtable.All();
      var now := footprint(es);
      pool.Account(this, memory, now);
      memory := now;
    }

    /** `push_disk_run`: adds a run to a level, and merges the level into the next one when it is over full. */
    method PushDiskRun(level: nat, run: Run<V>)
      requires Settings() && LevelsOk(ps, levels, levelFanout) && ValidRun(ps, run)
      modifies `levels
      ensures LevelsOk(ps, levels, levelFanout)
      ensures LevelsBag(levels) == old(LevelsBag(levels)) + RunBag(run)
      ensures Tuned().Pushes(old(levels), level, run, levels)
      decreases CountRuns(levels)
    {
      hide LevelsOk, ValidRun, ValidRuns, RunBag, RunsBag, LevelsBag, CountRuns, MergedEntries, ExactFilters;
      hide Tuning.Pushes;
      if |levels| <= level {
        Tuned().PushesPast(levels, level, run);
        EmptyLevelsAdded(levels, level + 1 - |levels|);
        EmptyLevelsOk(ps, levels, levelFanout, level + 1 - |levels|);
        levels := levels + seq(level + 1 - |levels|, _ => []);
      } else if |levels[level]| < levelFanout {
        Tuned().PushesLast(levels, level, run);
      }
      var runs := levels[level] + [run];
      if |runs| <= levelFanout {
        PushFits(ps, levels, level, run, levelFanout);
        levels := levels[level := runs];
      } else {
        PushSpills(ps, levels, level, run, levelFanout);
        levels := levels[level := []];
        var merged := MergeRuns(ps, runs, prefixLens);
        MergedBag(ps, runs, merged);
        PushDiskRun(level + 1, merged);
        Tuned().PushesMerged(old(levels), level, run, merged, levels);
      }
    }

    /** `flush`: the buffer becomes a run; the pairs stay the same. */
    method Flush()
      requires Usable() && pool.Valid()
      modifies this, pool
      ensures Valid() && pool.Valid()
      ensures Contents() == old(Contents()) && memtableLen == 0 && memory == 0
      ensures pool.shares == old(pool.shares)[this := 0]
      ensures pool.inUse == old(pool.inUse) - old(memory)
      ensures memtable == old(memtable) || fresh(memtable)
      ensures Tuned().WritesOut(old(Shaped()), Shaped())
      ensures old(pool.Bounded()) ==> pool.Bounded()
    {
      hide BufferOk, LevelsOk, Bag, LevelsBag, RunBag, MemoryPool.Valid, Big, Sum, Memtable.Entries, ValidRun;
      hide IsRunOf, Tuning.Pushes;
      if memtableLen == 0 {
        EmptyBuffer();
        assert pool.shares == pool.shares[this := 0];
      } else {
        var run := TakeRun();
        ghost var rest := LevelsBag(levels);
        PushDiskRun(0, run);
        FlushedContents(rest, RunBag(run));
      }
      if old(pool.Bounded()) {
        pool.StaysBounded(old(pool.shares), this, 0);
      }
    }

    /** Takes the buffer out and writes it as a run. */
    method TakeRun() returns (run: Run<V>)
      requires Settings() && BufferOk() && ShareOk() && pool.Valid()
      modifies this, pool
      ensures Settings() && BufferOk() && ShareOk() && pool.Valid()
      ensures ValidRun(ps, run) && RunBag(run) == old(Bag(memtable.Entries()))
      ensures IsRunOf(ps, prefixLens, old(memtable.Entries()), run)
      ensures memtable.Entries() == [] && memtableLen == 0 && memory == 0
      ensures levels == old(levels) && len == old(len) && fresh(memtable)
      ensures pool.shares == old(pool.shares)[this := 0] && pool.inUse == old(pool.inUse) - old(memory)
    {
      hide Memtable.Valid, Memtable.Entries, Bag, ValidRun, EntriesOk, MemoryPool.Valid, Total, RunBag, ExactFilters;
      hide EntriesOf, IsRunOf;
      ghost var entries := memtable.Entries();
      var es := memtable.SortedEntries();
      BagSize(es);
      EntriesReady(ps, es);
      run := WriteRun(ps, es, memtableLen, prefixLens);
      RunBagIs(ps, run, es);
      WrittenIsRun(ps, prefixLens, entries, es, run);
      NewMemtable();
      CountMemory();
    }

    lemma FlushedContents(rest: multiset<(Key, V)>, run: multiset<(Key, V)>)
      requires memtable.Entries() == [] && LevelsBag(levels) == rest + run
      ensures Contents() == run + rest
    {
      hide LevelsBag;
    }

    /** `keep_to_budget`: writes the buffer out if it is worth a run and all buffers are over the budget. */
    method KeepToBudget()
      requires Valid() && pool.Valid()
      modifies this, pool
      ensures Valid() && pool.Valid()
      ensures Contents() == old(Contents())
      ensures pool.shares == old(pool.shares)[this := memory]
      ensures memory < MIN_BUDGET_FLUSH_BYTES || pool.inUse <= pool.budget
      ensures Tuned().KeepsTo(old(Room()), old(Shaped()), Shaped()) && Room() == old(Room())
      ensures memtable == old(memtable) || fresh(memtable)
    {
      hide Memtable.Valid, Memtable.Entries, Bag, LevelsBag, LevelsOk, MemoryPool.Valid, Tuning.WritesOut;
      if memory >= MIN_BUDGET_FLUSH_BYTES && pool.inUse > pool.budget {
        Flush();
      } else {
        assert pool.shares == pool.shares[this := memory];
      }
    }

    /**
     `insert`: adds exactly one pair, and writes the buffer out exactly if it has reached the limit, or is
     worth a run while the buffers are over the budget.
     */
    method Insert(key: Key, value: V)
      requires Valid() && pool.Valid() && pool.Bounded() && |key| == ps.width
      modifies this, memtable, pool
      ensures Valid() && pool.Valid() && pool.Bounded()
      ensures Contents() == old(Contents()) + multiset{(key, value)}
      ensures pool.shares == old(pool.shares)[this := memory]
      ensures memtable == old(memtable) || fresh(memtable)
      ensures Tuned().Inserts(old(Room()), old(Shaped()), key, value, Shaped()) && Room() == old(Room())
    {
      hide Settings, BufferOk, ShareOk, LevelsOk, Contents, MemoryPool.Valid, Big, Sum;
      hide Added, Tuning.WritesOut, Tuning.KeepsTo, Memtable.Entries;
      ghost var shares := pool.shares;
      BufferPair(key, value);
      if memtableLen >= memtableLimit {
        Flush();
      } else {
        KeepToBudget();
      }
      assert pool.shares == shares[this := memory];
      pool.StaysBounded(shares, this, memory);
    }

    /** Puts one pair in the buffer, and counts it. */
    method BufferPair(key: Key, value: V)
      requires Valid() && pool.Valid() && |key| == ps.width
      modifies this, memtable, pool
      ensures Usable() && pool.Valid()
      ensures Contents() == old(Contents()) + multiset{(key, value)}
      ensures pool.shares == old(pool.shares)[this := memory]
      ensures pool.inUse == old(pool.inUse) - old(memory) + memory
      ensures memtable == old(memtable)
      ensures Shaped() == Shape(Added(old(memtable.Entries()), key, value), old(memtableLen) + 1, old(levels))
      ensures Room() == old(Room())
    {
      hide Memtable.Valid, Bag, LevelsBag, LevelsOk, MemoryPool.Valid, Added;
      BufferCount();
      ghost var buffered := Bag(memtable.Entries());
      memtable.Insert(key, value);
      memtableLen := memtableLen + 1;
      len := len + 1;
      MovePair(buffered, LevelsBag(levels), (key, value));
      CountMemory();
    }

    /** `clear`: empties the map. */
    method Clear()
      requires Valid() && pool.Valid() && pool.Bounded()
      modifies this, pool
      ensures Valid() && pool.Valid() && pool.Bounded()
      ensures Contents() == multiset{} && len == 0
      ensures pool.shares == old(pool.shares)[this := 0]
      ensures fresh(memtable) && Shaped() == Shape([], 0, [])
    {
      hide *;
      StartOver();
    }

    /** An empty buffer, no runs, and no share. */
    method StartOver()
      requires Valid() && pool.Valid() && pool.Bounded()
      modifies this, pool
      ensures Valid() && pool.Valid() && pool.Bounded()
      ensures Contents() == multiset{} && len == 0
      ensures pool.shares == old(pool.shares)[this := 0]
      ensures fresh(memtable) && Shaped() == Shape([], 0, [])
      ensures pool.inUse == old(pool.inUse) - old(memory)
    {
      hide Memtable.Valid, Memtable.Entries, MemoryPool.Valid, Big, Sum, Bag, LevelsBag, ValidRuns;
      NewMemtable();
      levels, len := [], 0;
      NoLevels<V>();
      CountMemory();
      pool.StaysBounded(old(pool.shares), this, 0);
    }

    /** `drop`: gives the share back. */
    method Drop()
      requires Valid() && pool.Valid() && pool.Bounded()
      modifies pool
      ensures pool.Valid() && pool.Bounded() && pool.shares == old(pool.shares) - {this}
    {
      hide LevelsOk, Contents, BufferOk;
      pool.Leave(this, memory);
    }

    /** The other map can be absorbed: another object over the same keys and the same pool. */
    ghost predicate Absorbable(other: LsmMap<V>)
      reads this, other
    {
      other != this && other.memtable != memtable && other.ps == ps && other.pool == pool
    }

    /** `absorb`: moves every pair of `other` here, and leaves `other` empty. */
    method Absorb(other: LsmMap<V>)
      requires Valid() && other.Valid() && Absorbable(other) && pool.Valid() && pool.Bounded()
      modifies this, memtable, other, other.memtable, pool
      ensures Valid() && other.Valid() && Absorbable(other) && pool.Valid() && pool.Bounded()
      ensures Contents() == old(Contents()) + old(other.Contents())
      ensures other.Contents() == multiset{} && other.len == 0 && other.Shaped() == Shape([], 0, [])
      ensures exists given ::
        && other.Tuned().Gives(memtableLimit / 4, old(other.Shaped()), given)
        && Tuned().TakesIn(old(Room() + other.memory), old(Shaped()), given, Shaped())
      ensures pool.shares == old(pool.shares)[other := 0][this := memory]
      ensures memtable == old(memtable) || fresh(memtable)
      ensures other.memtable == old(other.memtable) || fresh(other.memtable)
    {
      hide Settings, BufferOk, LevelsOk, Contents, MemoryPool.Valid, MemoryPool.Bounded, Bag, LevelsBag;
      hide ValidLevels, EntriesOk, Tuning.Gives, Tuning.TakesIn;
      ghost var shares: map<object, nat> := pool.shares;
      var entries, runs, moved, values := other.Surrender(memtableLimit / 4);
      TakeIn(entries, runs, moved, values);
      assert pool.shares == shares[other := 0][this := memory];
    }

    /** Takes another map's entries into the buffer and its runs into the levels, and keeps to the budget. */
    method TakeIn(entries: seq<Entry<V>>, runs: seq<seq<Run<V>>>, moved: nat, ghost values: nat)
      requires Valid() && pool.Valid() && pool.Bounded()
      requires EntriesOk(ps, entries) && ValidLevels(ps, runs) && moved == |LevelsBag(runs)|
      modifies this, memtable, pool
      ensures Valid() && pool.Valid() && pool.Bounded()
      ensures Contents() == old(Contents()) + (Bag(entries) + LevelsBag(runs))
      ensures pool.shares == old(pool.shares)[this := memory]
      ensures Tuned().TakesIn(old(Room()), old(Shaped()), Shape(entries, values, runs), Shaped())
      ensures memtable == old(memtable) || fresh(memtable)
    {
      hide Settings, BufferOk, ShareOk, LevelsOk, Contents, MemoryPool.Valid, MemoryPool.Bounded, Bag, LevelsBag;
      hide ValidLevels, EntriesOk, Big, Sum, Tuning.InsertsAll, Tuning.PushesLevels, Tuning.KeepsTo, Tuning.TakesIn;
      ghost var shares: map<object, nat> := pool.shares;
      InsertAll(entries);
      ghost var filled := Shaped();
      PushLevels(runs, moved);
      ghost var taken := levels;
      SumAssociates(old(Contents()), Bag(entries), LevelsBag(runs));
      ghost var before: map<object, nat> := pool.shares;
      BoundedIs();
      KeepToBudget();
      Tuned().TookIn(old(Room()), old(Shaped()), Shape(entries, values, runs), filled, taken, Shaped());
      pool.StaysBounded(before, this, memory);
      assert pool.shares == shares[this := memory];
    }

    lemma BoundedIs()
      requires pool.Bounded()
      ensures Sum(Big(pool.shares)) <= pool.budget
    {
    }

    /** Writes a large buffer out as a run first, and then gives everything away. */
    method Surrender(threshold: nat)
      returns (entries: seq<Entry<V>>, runs: seq<seq<Run<V>>>, moved: nat, ghost values: nat)
      requires Valid() && pool.Valid() && pool.Bounded()
      modifies this, pool
      ensures Valid() && pool.Valid() && pool.Bounded()
      ensures Contents() == multiset{} && len == 0 && fresh(memtable)
      ensures pool.shares == old(pool.shares)[this := 0]
      ensures old(Contents()) == Bag(entries) + LevelsBag(runs)
      ensures EntriesOk(ps, entries) && ValidLevels(ps, runs) && moved == |LevelsBag(runs)|
      ensures Shaped() == Shape([], 0, []) && pool.inUse == old(pool.inUse) - old(memory)
      ensures Tuned().Gives(threshold, old(Shaped()), Shape(entries, values, runs))
    {
      hide Usable, Contents, MemoryPool.Valid, Big, Sum, Bag, LevelsBag, ValidLevels, EntriesOk, Tuning.WritesOut;
      if memtableLen >= threshold {
        Flush();
      }
      values := memtableLen;
      entries, runs, moved := TakeAll();
    }

    /** Empties the map into its buffered entries, its levels, and how many values those have. */
    method TakeAll() returns (entries: seq<Entry<V>>, runs: seq<seq<Run<V>>>, moved: nat)
      requires Valid() && pool.Valid() && pool.Bounded()
      modifies this, pool
      ensures Valid() && pool.Valid() && pool.Bounded()
      ensures Contents() == multiset{} && len == 0 && fresh(memtable)
      ensures pool.shares == old(pool.shares)[this := 0]
      ensures old(Contents()) == Bag(entries) + LevelsBag(runs)
      ensures EntriesOk(ps, entries) && ValidLevels(ps, runs) && moved == |LevelsBag(runs)|
      ensures entries == old(memtable.Entries()) && runs == old(levels)
      ensures Shaped() == Shape([], 0, []) && pool.inUse == old(pool.inUse) - old(memory)
    {
      hide *;
      GivenAway();
      entries := memtable.All();
      runs, moved := levels, len - memtableLen;
      StartOver();
    }

    lemma GivenAway()
      requires Valid()
      ensures memtable.Valid() && Contents() == Bag(memtable.Entries()) + LevelsBag(levels)
      ensures EntriesOk(ps, memtable.Entries()) && ValidLevels(ps, levels)
      ensures memtableLen <= len && len - memtableLen == |LevelsBag(levels)|
    {
      hide Memtable.Entries, Bag, LevelsBag, ValidRuns, ShareOk, WellChunked, IndexOk, AllChainsOk, EntriesOk;
    }

    /** Inserts every value of every entry. */
    method InsertAll(entries: seq<Entry<V>>)
      requires Valid() && pool.Valid() && pool.Bounded() && EntriesOk(ps, entries)
      modifies this, memtable, pool
      ensures Valid() && pool.Valid() && pool.Bounded()
      ensures Contents() == old(Contents()) + Bag(entries)
      ensures pool.shares == old(pool.shares)[this := memory]
      ensures Tuned().InsertsAll(old(Room()), old(Shaped()), entries, Shaped()) && Room() == old(Room())
      ensures memtable == old(memtable) || fresh(memtable)
    {
      hide Usable, Contents, MemoryPool.Valid, Big, Sum, Bag, Pairs, Tuning.InsertsAll, Tuning.InsertsValues;
      EmptyBag<V>();
      ShareKnown();
      Tuned().NoEntries(Room(), Shaped());
      for i := 0 to |entries|
        invariant Valid() && pool.Valid() && pool.Bounded()
        invariant Contents() == old(Contents()) + Bag(entries[..i])
        invariant pool.shares == old(pool.shares)[this := memory]
        invariant Tuned().InsertsAll(old(Room()), old(Shaped()), entries[..i], Shaped()) && Room() == old(Room())
        invariant memtable == old(memtable) || fresh(memtable)
      {
        ghost var u := Shaped();
        InsertEntry(entries[i]);
        Tuned().OneMoreEntry(Room(), old(Shaped()), entries[..i], u, entries[i], Shaped());
        assert entries[..i + 1] == entries[..i] + [entries[i]];
        BagConcat(entries[..i], [entries[i]]);
        BagSingle(entries[i]);
        SumAssociates(old(Contents()), Bag(entries[..i]), Pairs(entries[i]));
      }
      assert entries[..|entries|] == entries;
    }

    method InsertEntry(e: Entry<V>)
      requires Valid() && pool.Valid() && pool.Bounded() && |e.key| == ps.width
      modifies this, memtable, pool
      ensures Valid() && pool.Valid() && pool.Bounded()
      ensures Contents() == old(Contents()) + Pairs(e)
      ensures pool.shares == old(pool.shares)[this := memory]
      ensures Tuned().InsertsValues(old(Room()), old(Shaped()), e.key, e.vals, Shaped()) && Room() == old(Room())
      ensures memtable == old(memtable) || fresh(memtable)
    {
      hide Usable, Contents, MemoryPool.Valid, Big, Sum, Pairs, Tuning.InsertsValues, Tuning.Inserts;
      NoPairs<V>(e.key);
      ShareKnown();
      Tuned().NoValues(Room(), Shaped(), e.key);
      for j := 0 to |e.vals|
        invariant Valid() && pool.Valid() && pool.Bounded()
        invariant Contents() == old(Contents()) + Pairs(Entry(e.key, e.vals[..j]))
        invariant pool.shares == old(pool.shares)[this := memory]
        invariant Tuned().InsertsValues(old(Room()), old(Shaped()), e.key, e.vals[..j], Shaped())
        invariant Room() == old(Room())
        invariant memtable == old(memtable) || fresh(memtable)
      {
        ghost var u := Shaped();
        Insert(e.key, e.vals[j]);
        Tuned().OneMoreValue(Room(), old(Shaped()), e.key, e.vals[..j], u, e.vals[j], Shaped());
        assert e.vals[..j + 1] == e.vals[..j] + [e.vals[j]];
        PairsSnoc(Entry(e.key, e.vals[..j]), e.vals[j]);
        SumAssociates(old(Contents()), Pairs(Entry(e.key, e.vals[..j])), multiset{(e.key, e.vals[j])});
      }
      assert e.vals[..|e.vals|] == e.vals;
    }

    lemma ShareKnown()
      requires Valid()
      ensures pool.shares == pool.shares[this := memory]
    {
      hide LevelsOk, Contents, BufferOk;
    }

    /** Takes another map's runs over, level by level, as they are. */
    method PushLevels(runs: seq<seq<Run<V>>>, moved: nat)
      requires Valid() && ValidLevels(ps, runs) && moved == |LevelsBag(runs)|
      modifies `levels, `len
      ensures Valid()
      ensures Contents() == old(Contents()) + LevelsBag(runs)
      ensures Tuned().PushesLevels(old(levels), runs, levels)
    {
      hide Memtable.Valid, LevelsOk, LevelsBag, RunsBag, RunBag, ValidRun, Bag, MemoryPool.Valid, BufferOk, ShareOk;
      hide Tuning.PushesLevels, Tuning.PushesRuns;
      len := len + moved;
      NoLevels<V>();
      Tuned().NoLevel(levels);
      for l := 0 to |runs|
        invariant LevelsOk(ps, levels, levelFanout)
        invariant LevelsBag(levels) == old(LevelsBag(levels)) + LevelsBag(runs[..l])
        invariant len == old(len) + moved
        invariant Tuned().PushesLevels(old(levels), runs[..l], levels)
      {
        ghost var mid := levels;
        PushRuns(l, runs[l]);
        Tuned().OneMoreLevel(old(levels), runs[..l], mid, runs[l], levels);
        assert runs[..l + 1] == runs[..l] + [runs[l]];
        LevelsBagSnoc(runs[..l], runs[l]);
        SumAssociates(old(LevelsBag(levels)), LevelsBag(runs[..l]), RunsBag(runs[l]));
      }
      assert runs[..|runs|] == runs;
      SumAssociates(Bag(memtable.Entries()), old(LevelsBag(levels)), LevelsBag(runs));
      assert Contents() == old(Contents()) + LevelsBag(runs);
    }

    method PushRuns(level: nat, runs: seq<Run<V>>)
      requires Settings() && LevelsOk(ps, levels, levelFanout) && ValidRuns(ps, runs)
      modifies `levels
      ensures LevelsOk(ps, levels, levelFanout)
      ensures LevelsBag(levels) == old(LevelsBag(levels)) + RunsBag(runs)
      ensures Tuned().PushesRuns(old(levels), level, runs, levels)
    {
      hide LevelsOk, LevelsBag, RunsBag, RunBag, ValidRun, Tuning.PushesRuns, Tuning.Pushes;
      EmptyRuns<V>();
      Tuned().NoRuns(levels, level);
      for r := 0 to |runs|
        invariant LevelsOk(ps, levels, levelFanout)
        invariant LevelsBag(levels) == old(LevelsBag(levels)) + RunsBag(runs[..r])
        invariant Tuned().PushesRuns(old(levels), level, runs[..r], levels)
      {
        ghost var mid := levels;
        PushDiskRun(level, runs[r]);
        Tuned().OneMoreRun(old(levels), level, runs[..r], mid, runs[r], levels);
        assert runs[..r + 1] == runs[..r] + [runs[r]];
        RunsBagSnoc(runs[..r], runs[r]);
        SumAssociates(old(LevelsBag(levels)), RunsBag(runs[..r]), RunBag(runs[r]));
      }
      assert runs[..|runs|] == runs;
    }

    // ----------------------------------------------------------------------
    // Reads
    // ----------------------------------------------------------------------

    /** Every run, level by level. */
    method AllRuns() returns (runs: seq<Run<V>>)
      requires LevelsOk(ps, levels, levelFanout)
      ensures runs == Flatten(levels) && ValidRuns(ps, runs) && RunsBag(runs) == LevelsBag(levels)
    {
      hide LevelsOk, ValidRuns, RunsBag, LevelsBag;
      runs := [];
      for l := 0 to |levels|
        invariant runs == Flatten(levels[..l])
      {
        assert levels[..l + 1] == levels[..l] + [levels[l]];
        FlattenSnoc(levels[..l], levels[l]);
        runs := runs + levels[l];
      }
      assert levels[..|levels|] == levels;
      FlatLevels(ps, levels, levelFanout);
    }

    lemma BufferDistinct()
      requires BufferOk()
      ensures DistinctKeys(memtable.Entries()) && EntriesOk(ps, memtable.Entries())
    {
    }

    /** The key's values in reading order: the buffer's, and then each run's, level by level. */
    ghost function ValuesInOrder(key: Key): seq<V>
      reads this, memtable
    {
      ValuesAt(memtable.Entries(), key) +
      if ValidRuns(ps, Flatten(levels)) then Gather(Sources(ps, Flatten(levels)), key) else []
    }

    /** `get_refs`: the key's values in every source that has it, as non-empty slices. */
    method GetRefs(key: Key) returns (r: Option<seq<seq<V>>>)
      requires Valid() && |key| == ps.width
      ensures r.None? <==> !HasKeyIn(Contents(), key)
      ensures r.Some? ==> AreValues(Contents(), key, Flatten(r.value))
      ensures r.Some? ==> Flatten(r.value) == ValuesInOrder(key)
    {
      hide Memtable.Valid, Memtable.Entries, Bag, LevelsBag, RunsBag, ValuesAt, Gather, LevelsOk, ValidRuns;
      hide HasKeyIn, AreValues;
      ghost var es := memtable.Entries();
      BufferDistinct();
      var slices: seq<seq<V>> := [];
      var hash := ps.hash(key);
      var mine := memtable.Get(key);
      if mine.Some? {
        slices := [mine.value];
        OneSlice(mine.value);
      }
      var runs := AllRuns();
      slices := AddSlices(runs, key, hash, slices);
      AcrossAreValues(ps, es, runs, key);
      r := if slices == [] then None else Some(slices);
    }

    method AddSlices(runs: seq<Run<V>>, key: Key, hash: Hash, before: seq<seq<V>>) returns (slices: seq<seq<V>>)
      requires ValidRuns(ps, runs) && |key| == ps.width && hash == ps.hash(key)
      ensures Flatten(slices) == Flatten(before) + Gather(Sources(ps, runs), key)
      ensures slices == [] <==> before == [] && Gather(Sources(ps, runs), key) == []
    {
      hide ValuesAt, Gather, ValidRun, Flatten;
      slices := before;
      NoSources<V>(key);
      for r := 0 to |runs|
        invariant ValidRuns(ps, runs[..r])
        invariant Flatten(slices) == Flatten(before) + Gather(Sources(ps, runs[..r]), key)
        invariant slices == [] <==> before == [] && Gather(Sources(ps, runs[..r]), key) == []
      {
        assert ValidRun(ps, runs[r]);
        assert runs[..r + 1] == runs[..r] + [runs[r]];
        RunOf(ps, runs, r);
        assert Sources(ps, runs[..r + 1]) == Sources(ps, runs[..r]) + [EntriesOf(runs[r])];
        GatherSnoc(Sources(ps, runs[..r]), EntriesOf(runs[r]), key);
        var vals := Find(ps, runs[r], key, hash);
        if vals.Some? {
          FlattenSnoc(slices, vals.value);
          slices := slices + [vals.value];
        }
      }
      assert runs[..|runs|] == runs;
    }

    /** `contains_key`: asks the buffer, then every run until one has the key. */
    method ContainsKey(key: Key) returns (r: bool)
      requires Valid() && |key| == ps.width
      ensures r <==> HasKeyIn(Contents(), key)
    {
      hide Memtable.Valid, Memtable.Entries, Bag, LevelsBag, RunsBag, ValuesAt, Gather, LevelsOk, ValidRun;
      hide HasKeyIn, AreValues;
      ghost var es := memtable.Entries();
      BufferDistinct();
      var runs := AllRuns();
      AcrossAreValues(ps, es, runs, key);
      var mine := memtable.Get(key);
      if mine.Some? {
        return true;
      }
      NoSources<V>(key);
      for i := 0 to |runs|
        invariant ValidRuns(ps, runs[..i]) && Gather(Sources(ps, runs[..i]), key) == []
      {
        PrefixSources(ps, runs, i, key);
        assert ValidRun(ps, runs[i]);
        r := HasKey(ps, runs[i], key, ps.hash(key));
        KeyHasValues(ps, runs[i], key);
        if r {
          RunOf(ps, runs, i);
          assert ValuesAt(EntriesOf(runs[i]), key)[0] in Gather(Sources(ps, runs), key);
          return;
        }
      }
      assert runs[..|runs|] == runs;
      r := false;
    }

    /** `contains_value`: whether the pair is in the map. */
    method ContainsValue(key: Key, value: V) returns (r: bool)
      requires Valid() && |key| == ps.width
      ensures r <==> (key, value) in Contents()
    {
      hide Memtable.Valid, Memtable.Entries, Bag, LevelsBag, RunsBag, ValuesAt, Gather, LevelsOk, ValidRun;
      ghost var es := memtable.Entries();
      BufferDistinct();
      var runs := AllRuns();
      ValuesAcross(ps, es, runs, key, value);
      var mine := memtable.Get(key);
      if mine.Some? && value in mine.value {
        assert value in ValuesAt(es, key) + Gather(Sources(ps, runs), key);
        return true;
      }
      NoSources<V>(key);
      for i := 0 to |runs|
        invariant ValidRuns(ps, runs[..i]) && value !in Gather(Sources(ps, runs[..i]), key)
      {
        PrefixSources(ps, runs, i, key);
        assert ValidRun(ps, runs[i]);
        var vals := Find(ps, runs[i], key, ps.hash(key));
        if vals.Some? && value in vals.value {
          assert value in ValuesAt(es, key) + Gather(Sources(ps, runs), key);
          return true;
        }
      }
      assert runs[..|runs|] == runs;
      r := false;
    }

    /** `iter_all_refs`: every key once, ascending, with all its values, buffer first and then run order. */
    method IterAllRefs() returns (es: seq<Entry<V>>)
      requires Valid()
      ensures Sorted(es) && Inhabited(es) && Bag(es) == Contents()
      ensures forall k: Key :: ValuesAt(es, k) == ValuesInOrder(k)
    {
      hide Memtable.Valid, Memtable.Entries, Bag, LevelsBag, RunsBag, LevelsOk, Sorted, BagAll, MergedEntries;
      hide EntriesOk, MergeOf;
      var mine := memtable.SortedEntries();
      EntriesReady(ps, mine);
      var runs := AllRuns();
      var sources := [mine] + Sources(ps, runs);
      SourcesSorted(ps, runs);
      SourcesAscend(sources);
      var visits := MergeKeys(KeyLists(sources));
      VisitsArePlaces(sources, visits);
      VisitsMerge(sources, visits);
      es := CollectVisits(sources, visits);
      MergeKeepsBag(sources, es);
      MergedParts(sources, es);
      BagOfTwo(mine, Sources(ps, runs));
      RunsBagIsBagAll(ps, runs);
      forall k: Key
        ensures ValuesAt(es, k) == ValuesInOrder(k)
      {
        MergedInOrder(mine, runs, es, k);
      }
    }

    lemma MergedInOrder(mine: seq<Entry<V>>, runs: seq<Run<V>>, es: seq<Entry<V>>, k: Key)
      requires BufferOk() && Sorted(mine) && multiset(mine) == multiset(memtable.Entries())
      requires runs == Flatten(levels) && ValidRuns(ps, runs) && MergedEntries([mine] + Sources(ps, runs), es)
      ensures ValuesAt(es, k) == ValuesInOrder(k)
    {
      hide Memtable.Valid, Memtable.Entries, Bag, ValuesAt, Sorted, Flatten, ValidRuns, DistinctKeys;
      BufferDistinct();
      SortedDistinct(mine);
      SameEntriesSameValues(mine, memtable.Entries(), k);
      assert ([mine] + Sources(ps, runs))[1..] == Sources(ps, runs);
    }

    /** `keys`: every key occurrence, the buffer's first. */
    method Keys() returns (it: KeysIter<V>)
      requires Valid()
      ensures fresh(it) && it.Valid() && it.memtable == memtable
      ensures it.Remaining() == KeysOf(memtable.Entries()) + Flatten(RunKeys(Flatten(levels)))
    {
      hide Memtable.Valid, Memtable.Entries, Bag, LevelsBag, RunsBag, LevelsOk, Flatten, ValidRuns;
      var runs := AllRuns();
      it := new KeysIter(memtable, Range(0, memtable.len), RunKeys(runs));
      memtable.Length();
      assert it.Buffered() == KeysOf(memtable.Entries());
    }

    /** `keys_with_prefix`: each source's matching keys, each once, whether by chain, scan or search. */
    method KeysWithPrefix(prefix: Key) returns (it: KeysIter<V>)
      requires Valid()
      ensures fresh(it) && it.Valid() && it.memtable == memtable
      ensures multiset(it.Remaining()) ==
        multiset(MatchingKeys(KeysOf(memtable.Entries()), prefix)) + multiset(RunMatches(Flatten(levels), prefix))
      ensures it.mem.Chain? <==> |prefix| in prefixLens
    {
      hide Memtable.Valid, Memtable.Entries, Bag, LevelsBag, RunsBag, LevelsOk, Flatten, MatchingKeys;
      hide RunMatches, ValidRuns;
      var mem := BufferMatches(prefix);
      var runs := AllRuns();
      var slices := RunSlices(runs, prefix);
      it := new KeysIter(memtable, mem, slices);
      assert it.Remaining() == it.Buffered() + Flatten(slices);
    }

    /** The buffer's matches: along the prefix's chain if the buffer keeps one, else by a scan. */
    method BufferMatches(prefix: Key) returns (mem: MemKeys)
      requires BufferOk()
      ensures MemKeysOk(mem, memtable.len) && (mem.Chain? <==> |prefix| in prefixLens)
      ensures var keys := KeysOf(memtable.Entries());
        && (forall i :: 0 <= i < |Positions(mem, memtable.len)| ==> Positions(mem, memtable.len)[i] < |keys|)
        && multiset(KeysAt(keys, Positions(mem, memtable.len))) == multiset(MatchingKeys(keys, prefix))
    {
      hide Memtable.Valid, Memtable.Entries, Bag, MatchingKeys, ChainsOk, Linkable;
      ghost var keys := KeysOf(memtable.Entries());
      memtable.Length();
      var chains := memtable.FindChains(|prefix|);
      if chains.Some? {
        var c := chains.value;
        ChainOf(c, keys, prefix);
        mem := Chain(c.next, HeadOf(c, prefix));
        ChainInRange(c.next, HeadOf(c, prefix));
        memtable.KeysLongEnough(|prefix|);
        assert keys[..|keys|] == keys;
        ChainKeysMatch(keys, prefix, |keys|);
      } else {
        var list := ScanBuffer(prefix);
        mem := List(list, 0);
        assert Positions(mem, memtable.len) == list;
      }
    }

    method ScanBuffer(prefix: Key) returns (list: seq<nat>)
      requires BufferOk()
      ensures forall i :: 0 <= i < |list| ==> list[i] < memtable.len == |KeysOf(memtable.Entries())|
      ensures KeysAt(KeysOf(memtable.Entries()), list) == MatchingKeys(KeysOf(memtable.Entries()), prefix)
    {
      hide Memtable.Valid, Memtable.Entries, Bag, MatchingKeys, Matches, PrefixOrder;
      ghost var keys := KeysOf(memtable.Entries());
      memtable.Length();
      list := [];
      NoMatches(prefix);
      for i := 0 to memtable.len
        invariant forall j :: 0 <= j < |list| ==> list[j] < memtable.len
        invariant KeysAt(keys, list) == MatchingKeys(keys[..i], prefix)
      {
        var e := memtable.At(i);
        assert keys[i] == e.key;
        var order := CmpPrefix(e.key, prefix);
        assert keys[..i + 1] == keys[..i] + [keys[i]];
        MatchingConcat(keys[..i], [keys[i]], prefix);
        MatchingOne(keys[i], prefix);
        if order.Equal? {
          list := list + [i];
        }
      }
      assert keys[..memtable.len] == keys;
    }

    /** Each run's matching range; a run its filter rules out has none. */
    method RunSlices(runs: seq<Run<V>>, prefix: Key) returns (slices: seq<seq<Key>>)
      requires ValidRuns(ps, runs)
      ensures Flatten(slices) == RunMatches(runs, prefix)
    {
      hide MatchingKeys, RunMatches, Flatten, Matches, OffsetsClimb, FiltersCover, Below;
      slices := [];
      NoRunMatches<V>(prefix);
      for r := 0 to |runs|
        invariant Flatten(slices) == RunMatches(runs[..r], prefix)
      {
        assert ValidRun(ps, runs[r]);
        assert runs[..r + 1] == runs[..r] + [runs[r]];
        RunMatchesSnoc(runs[..r], runs[r], prefix);
        var maybe := MayHavePrefix(ps, runs[r], prefix, ps.hash(prefix));
        if !maybe {
          MatchingAll(runs[r].keys, prefix);
        } else {
          var found := PrefixRange(runs[r].keys, prefix, ps.width);
          if found != [] {
            FlattenSnoc(slices, found);
            slices := slices + [found];
          }
        }
      }
      assert runs[..|runs|] == runs;
    }

    /** `take`: an empty buffer that chains the same prefixes. */
    method NewMemtable()
      requires Settings()
      modifies `memtable, `memtableLen
      ensures BufferOk() && fresh(memtable) && memtableLen == 0
      ensures memtable.Entries() == [] && Bag(memtable.Entries()) == multiset{}
    {
      memtable := new Memtable(ps, chunk, prefixLens);
      memtableLen := 0;
    }

    lemma EmptyBuffer()
      requires Usable() && memtableLen == 0
      ensures memtable.Entries() == [] && memory == 0
    {
    }

    /** There are no more keys in the buffer than values. */
    lemma BufferCount()
      requires BufferOk()
      ensures memtable.len <= memtableLen
    {
      hide Bag, Flatten, WellChunked, IndexOk, AllChainsOk;
      BagSize(memtable.Entries());
      CountAtMostTotal(memtable.Entries());
    }
  }

  ghost predicate ValidLevels<V>(ps: Params, levels: seq<seq<Run<V>>>) {
    forall l :: 0 <= l < |levels| ==> ValidRuns(ps, levels[l])
  }

  lemma SumAssociates<T>(a: multiset<T>, b: multiset<T>, c: multiset<T>)
    ensures a + b + c == a + (b + c)
  {
  }

  lemma EmptyBag<V>()
    ensures Bag<V>([]) == multiset{}
  {
  }

  lemma NoPairs<V>(key: Key)
    ensures Pairs<V>(Entry(key, [])) == multiset{}
  {
  }

  lemma NoLevels<V>()
    ensures LevelsBag<V>([]) == multiset{}
  {
  }

  lemma MovePair<T>(a: multiset<T>, b: multiset<T>, x: T)
    ensures a + multiset{x} + b == a + b + multiset{x}
  {
  }

  lemma {:induction false} CountAtMostTotal<V>(es: seq<Entry<V>>)
    requires Inhabited(es)
    ensures |es| <= Total(es)
  {
    if es != [] {
      CountAtMostTotal(es[1..]);
    }
  }

  lemma EntriesReady<V>(ps: Params, es: seq<Entry<V>>)
    requires EntriesOk(ps, es)
    ensures Inhabited(es) && forall i :: 0 <= i < |es| ==> |es[i].key| == ps.width
  {
  }

  lemma RunBagIs<V>(ps: Params, run: Run<V>, es: seq<Entry<V>>)
    requires ValidRun(ps, run) && EntriesOf(run) == es
    ensures RunBag(run) == Bag(es)
  {
    hide Bag, Ascending, FiltersCover;
  }

  /** One more run adds its own values of the key, and they are among all runs' values of it. */
  lemma PrefixSources<V>(ps: Params, runs: seq<Run<V>>, i: nat, key: Key)
    requires ValidRuns(ps, runs) && i < |runs|
    ensures ValidRuns(ps, runs[..i]) && ValidRuns(ps, runs[..i + 1])
    ensures Gather(Sources(ps, runs[..i + 1]), key) ==
      Gather(Sources(ps, runs[..i]), key) + ValuesAt(EntriesOf(runs[i]), key)
    ensures forall v :: v in ValuesAt(EntriesOf(runs[i]), key) ==> v in Gather(Sources(ps, runs), key)
  {
    hide ValidRun, ValuesAt, Gather;
    RunOf(ps, runs, i);
    assert Sources(ps, runs[..i + 1]) == Sources(ps, runs[..i]) + [EntriesOf(runs[i])];
    GatherSnoc(Sources(ps, runs[..i]), EntriesOf(runs[i]), key);
    GatherMember(Sources(ps, runs), key, i);
  }

  lemma {:induction false} GatherMember<V>(sources: seq<seq<Entry<V>>>, k: Key, r: nat)
    requires r < |sources|
    ensures forall v :: v in ValuesAt(sources[r], k) ==> v in Gather(sources, k)
  {
    hide ValuesAt;
    if r > 0 {
      GatherMember(sources[1..], k, r - 1);
    }
  }

  lemma KeyHasValues<V>(ps: Params, run: Run<V>, key: Key)
    requires ValidRun(ps, run)
    ensures key in run.keys <==> ValuesAt(EntriesOf(run), key) != []
  {
    hide ValuesAt, Ascending, FiltersCover, Sorted;
    RunEntries(ps, run);
    ValuesAtPresent(EntriesOf(run), key);
  }

  /** The key sections of the runs. */
  function RunKeys<V>(runs: seq<Run<V>>): seq<seq<Key>> {
    seq(|runs|, r requires 0 <= r < |runs| => runs[r].keys)
  }

  lemma NoMatches(prefix: Key)
    ensures MatchingKeys([], prefix) == []
  {
  }

  lemma NoRunMatches<V>(prefix: Key)
    ensures RunMatches<V>([], prefix) == [] && Flatten<Key>([]) == []
  {
  }

  lemma OneSlice<T>(s: seq<T>)
    ensures Flatten([s]) == s
  {
    assert [s][1..] == [];
  }

  lemma NoSources<V>(key: Key)
    ensures Gather<V>([], key) == []
  {
  }

  lemma BagOfTwo<V>(first: seq<Entry<V>>, rest: seq<seq<Entry<V>>>)
    ensures BagAll([first] + rest) == Bag(first) + BagAll(rest)
  {
  }

  /** Yields each visited key with its values, source after source. */
  method CollectVisits<V>(sources: seq<seq<Entry<V>>>, visits: seq<Visit>) returns (es: seq<Entry<V>>)
    requires forall j :: 0 <= j < |visits| ==> Places(sources, visits[j].holders)
    ensures es == VisitEntries(sources, visits)
  {
    hide HeldValues, Places;
    es := [];
    for j := 0 to |visits|
      invariant |es| == j
      invariant forall i :: 0 <= i < j ==> es[i] == Entry(visits[i].key, HeldValues(sources, visits[i].holders))
    {
      var vals := CollectHolders(sources, visits[j].holders);
      es := es + [Entry(visits[j].key, vals)];
    }
  }

  method CollectHolders<V>(sources: seq<seq<Entry<V>>>, holders: seq<(nat, nat)>) returns (vals: seq<V>)
    requires Places(sources, holders)
    ensures vals == HeldValues(sources, holders)
  {
    vals := [];
    for h := 0 to |holders|
      invariant Places(sources, holders[..h]) && vals == HeldValues(sources, holders[..h])
    {
      var (r, i) := holders[h];
      assert holders[..h + 1] == holders[..h] + [holders[h]];
      HeldSnoc(sources, holders[..h], holders[h]);
      vals := vals + sources[r][i].vals;
    }
    assert holders[..|holders|] == holders;
  }
}
