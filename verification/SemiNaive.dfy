/**
 A relation under semi-naive evaluation: the rows derived this round, those of the last round and
 all earlier ones, each with the relation's indices, in maps that share one memory budget.
 */
module SemiNaive {
  import opened Keys
  import opened Entries
  import opened Bloom
  import opened Runs
  import opened Memtables
  import opened MemoryPools
  import opened LsmMaps
  import opened LsmScripts
  import opened Tuples
  import opened Representation
  import opened Stores
  import opened Indices

  // ------------------------------------------------------------------------
  // One version: a store and its indices
  // ------------------------------------------------------------------------

  /** The first layout is the store's, the others are indices. */
  ghost predicate SchemaOk<C(!new)>(cols: seq<Column<C>>, layouts: seq<Layout>) {
    && cols != [] && Lawful(cols)
    && layouts != [] && layouts[0] == Stored
    && forall j :: 0 <= j < |layouts| ==> LayoutOk(layouts[j], |cols|) && (j > 0 ==> layouts[j].Indexed?)
  }

  /** Each map holds exactly the rows, in its layout. */
  ghost predicate Tracks<C>(
    cols: seq<Column<C>>, layouts: seq<Layout>, bags: seq<multiset<(Key, Blob)>>, rows: set<seq<C>>)
  {
    && |bags| == |layouts|
    && forall j :: 0 <= j < |layouts| ==>
         LayoutOk(layouts[j], |cols|) && Represents(cols, layouts[j], bags[j], multiset(rows))
  }

  lemma TracksNone<C>(cols: seq<Column<C>>, layouts: seq<Layout>, bags: seq<multiset<(Key, Blob)>>)
    requires |bags| == |layouts|
    requires forall j :: 0 <= j < |layouts| ==> LayoutOk(layouts[j], |cols|) && bags[j] == multiset{}
    ensures Tracks(cols, layouts, bags, {})
  {
  }

  /** One more row in every map. */
  lemma TracksMore<C(!new)>(
    cols: seq<Column<C>>, layouts: seq<Layout>, bags: seq<multiset<(Key, Blob)>>, rows: set<seq<C>>, t: seq<C>,
    after: seq<multiset<(Key, Blob)>>)
    requires Lawful(cols) && Tracks(cols, layouts, bags, rows) && Typed(cols, t) && t !in rows
    requires |after| == |bags|
    requires forall j :: 0 <= j < |layouts| ==> after[j] == bags[j] + multiset{RowPair(cols, layouts[j], t)}
    ensures Tracks(cols, layouts, after, rows + {t})
  {
    hide Represents, LayoutOk, Lawful, RowPair, Typed;
    assert multiset(rows) + multiset{t} == multiset(rows + {t});
    TypedLength(cols, t);
    forall j | 0 <= j < |layouts|
      ensures Represents(cols, layouts[j], after[j], multiset(rows + {t}))
    {
      RepresentsOne(cols, layouts[j], t);
      RepresentsSum(cols, layouts[j], bags[j], multiset(rows), multiset{RowPair(cols, layouts[j], t)}, multiset{t});
    }
  }

  /** Two versions' rows together, if they share none. */
  lemma TracksBoth<C(!new)>(
    cols: seq<Column<C>>, layouts: seq<Layout>, a: seq<multiset<(Key, Blob)>>, rows: set<seq<C>>,
    b: seq<multiset<(Key, Blob)>>, more: set<seq<C>>, after: seq<multiset<(Key, Blob)>>)
    requires Lawful(cols) && Tracks(cols, layouts, a, rows) && Tracks(cols, layouts, b, more) && rows !! more
    requires |after| == |a| && forall j :: 0 <= j < |after| ==> after[j] == a[j] + b[j]
    ensures Tracks(cols, layouts, after, rows + more)
  {
    hide Represents, LayoutOk, Lawful;
    JoinedOnceIff(rows, more);
    forall j | 0 <= j < |layouts|
      ensures Represents(cols, layouts[j], after[j], multiset(rows + more))
    {
      RepresentsSum(cols, layouts[j], a[j], multiset(rows), b[j], multiset(more));
    }
  }

  // ------------------------------------------------------------------------
  // Three versions, one after the other
  // ------------------------------------------------------------------------

  /** New, delta and total, of the same kinds, with keys as wide as their layouts say. */
  ghost predicate Shapes<C>(cols: seq<Column<C>>, layouts: seq<Layout>, kinds: seq<Params>) {
    var n := |layouts|;
    && |kinds| == 3 * n
    && forall j :: 0 <= j < n ==>
         && LayoutOk(layouts[j], |cols|)
         && kinds[j].width == BlobWidth(KeyColumns(cols, layouts[j]))
         && kinds[n + j] == kinds[j] && kinds[2 * n + j] == kinds[j]
  }

  /** Every delta map has moved into its total map. */
  ghost function Moved(bags: seq<multiset<(Key, Blob)>>, n: nat, upTo: nat): (r: seq<multiset<(Key, Blob)>>)
    requires |bags| == 3 * n && upTo <= n
    ensures |r| == |bags|
  {
    if upTo == 0 then bags
    else Meaning(Moved(bags, n, upTo - 1), Absorb(2 * n + upTo - 1, n + upTo - 1))
  }

  lemma {:induction false} MovedAt(bags: seq<multiset<(Key, Blob)>>, n: nat, upTo: nat, i: nat)
    requires |bags| == 3 * n && upTo <= n && i < 3 * n
    ensures Moved(bags, n, upTo)[i] ==
      if n <= i < n + upTo then multiset{}
      else if 2 * n <= i < 2 * n + upTo then bags[i] + bags[i - n]
      else bags[i]
    decreases upTo
  {
    hide Meaning, Moved;
    if upTo == 0 {
      NothingMoved(bags, n);
    } else {
      var into, from := 2 * n + upTo - 1, n + upTo - 1;
      MovedStep(bags, n, upTo - 1);
      AbsorbAt(Moved(bags, n, upTo - 1), into, from, i);
      MovedAt(bags, n, upTo - 1, i);
      MovedAt(bags, n, upTo - 1, into);
      MovedAt(bags, n, upTo - 1, from);
    }
  }

  /** An absorb changes the two maps it names and no other. */
  lemma AbsorbAt(bags: seq<multiset<(Key, Blob)>>, into: nat, from: nat, i: nat)
    requires into < |bags| && from < |bags| && into != from && i < |bags|
    ensures Meaning(bags, Absorb(into, from))[i] ==
      if i == from then multiset{} else if i == into then bags[into] + bags[from] else bags[i]
  {
  }

  lemma NothingMoved(bags: seq<multiset<(Key, Blob)>>, n: nat)
    requires |bags| == 3 * n
    ensures Moved(bags, n, 0) == bags
  {
  }

  lemma MovedStep(bags: seq<multiset<(Key, Blob)>>, n: nat, j: nat)
    requires |bags| == 3 * n && j < n
    ensures Moved(bags, n, j + 1) == Meaning(Moved(bags, n, j), Absorb(2 * n + j, n + j))
  {
  }

  lemma MoveAllowed(kinds: seq<Params>, n: nat, j: nat)
    requires |kinds| == 3 * n && j < n && forall i :: n <= i < 2 * n ==> kinds[i] == kinds[n + i]
    ensures Allowed<Blob>(Absorb(2 * n + j, n + j), kinds)
  {
  }

  /** `move_index_contents` for every map: each delta map is absorbed by its total map. */
  method MoveDelta(maps: seq<LsmMap<Blob>>, pool: MemoryPool, n: nat)
    requires |maps| == 3 * n && Together(maps, pool) && pool.Valid() && pool.Bounded()
    requires forall j :: n <= j < 2 * n ==> maps[j].ps == maps[n + j].ps
    modifies Footprint(pool, maps)
    ensures Together(maps, pool) && pool.Valid() && pool.Bounded()
    ensures Bags(maps) == Moved(old(Bags(maps)), n, n)
    ensures pool.shares.Keys == old(pool.shares).Keys
    ensures fresh(Footprint(pool, maps) - old(Footprint(pool, maps)))
  {
    hide Together, MemoryPool.Valid, MemoryPool.Bounded, LsmMap.Contents, Meaning, Allowed, Moved;
    NothingMoved(Bags(maps), n);
    for j := 0 to n
      invariant Together(maps, pool) && pool.Valid() && pool.Bounded()
      invariant Bags(maps) == Moved(old(Bags(maps)), n, j)
      invariant pool.shares.Keys == old(pool.shares).Keys
      invariant fresh(Footprint(pool, maps) - old(Footprint(pool, maps)))
    {
      MoveAllowed(Kinds(maps), n, j);
      MovedStep(old(Bags(maps)), n, j);
      Execute(maps, pool, Absorb(2 * n + j, n + j));
    }
  }

  ghost predicate LayoutsOk(layouts: seq<Layout>, n: nat) {
    forall j :: 0 <= j < |layouts| ==> LayoutOk(layouts[j], n)
  }

  /** The insert that adds a row to the map of a layout. */
  function InsertRow<C>(cols: seq<Column<C>>, layouts: seq<Layout>, t: seq<C>, j: nat): Command<Blob>
    requires |t| == |cols| && j < |layouts| && LayoutOk(layouts[j], |cols|)
  {
    var (key, value) := RowPair(cols, layouts[j], t);
    Insert(j, key, value)
  }

  /** The row written to the index maps 1 up to `upTo`, behind the store at 0. */
  ghost function Written<C>(
    cols: seq<Column<C>>, layouts: seq<Layout>, bags: seq<multiset<(Key, Blob)>>, t: seq<C>, upTo: nat)
    : (r: seq<multiset<(Key, Blob)>>)
    requires |t| == |cols| && upTo < |layouts| <= |bags| && LayoutsOk(layouts, |cols|)
    ensures |r| == |bags|
  {
    if upTo == 0 then bags
    else Meaning(Written(cols, layouts, bags, t, upTo - 1), InsertRow(cols, layouts, t, upTo))
  }

  lemma {:induction false} WrittenAt<C>(
    cols: seq<Column<C>>, layouts: seq<Layout>, bags: seq<multiset<(Key, Blob)>>, t: seq<C>, upTo: nat, j: nat)
    requires |t| == |cols| && upTo < |layouts| <= |bags| && LayoutsOk(layouts, |cols|) && j < |bags|
    ensures Written(cols, layouts, bags, t, upTo)[j] ==
      if 0 < j <= upTo then bags[j] + multiset{RowPair(cols, layouts[j], t)} else bags[j]
    decreases upTo
  {
    hide RowPair;
    if upTo > 0 {
      WrittenAt(cols, layouts, bags, t, upTo - 1, j);
      var p := RowPair(cols, layouts[upTo], t);
      assert p == (p.0, p.1);
    }
  }

  lemma InsertAllowed<C(!new)>(cols: seq<Column<C>>, layouts: seq<Layout>, kinds: seq<Params>, t: seq<C>, j: nat)
    requires Lawful(cols) && Typed(cols, t) && Shapes(cols, layouts, kinds) && j < |layouts|
    ensures Allowed(InsertRow(cols, layouts, t, j), kinds)
  {
    hide RowPair, Lawful, LayoutOk, KeyColumns;
    PairWidth(cols, layouts[j], t);
  }

  /** The index writes that follow a new row: one in each index of the version. */
  method WriteIndices<C(!new)>(
    maps: seq<LsmMap<Blob>>, pool: MemoryPool, cols: seq<Column<C>>, layouts: seq<Layout>, t: seq<C>)
    requires Together(maps, pool) && pool.Valid() && pool.Bounded()
    requires layouts != [] && Lawful(cols) && Typed(cols, t) && Shapes(cols, layouts, Kinds(maps))
    requires LayoutsOk(layouts, |cols|) && |layouts| <= |maps|
    modifies Footprint(pool, maps)
    ensures Together(maps, pool) && pool.Valid() && pool.Bounded()
    ensures Bags(maps) == Written(cols, layouts, old(Bags(maps)), t, |layouts| - 1)
    ensures pool.shares.Keys == old(pool.shares).Keys
    ensures fresh(Footprint(pool, maps) - old(Footprint(pool, maps)))
  {
    hide Together, MemoryPool.Valid, MemoryPool.Bounded, LsmMap.Contents, Lawful, LayoutOk, Typed, Meaning, Shapes;
    hide Allowed, Written, Kinds, InsertRow, Bags;
    TypedLength(cols, t);
    NothingWritten(cols, layouts, Bags(maps), t);
    for j := 1 to |layouts|
      invariant Together(maps, pool) && pool.Valid() && pool.Bounded()
      invariant Bags(maps) == Written(cols, layouts, old(Bags(maps)), t, j - 1)
      invariant pool.shares.Keys == old(pool.shares).Keys
      invariant fresh(Footprint(pool, maps) - old(Footprint(pool, maps)))
    {
      InsertAllowed(cols, layouts, Kinds(maps), t, j);
      OneMoreWritten(cols, layouts, old(Bags(maps)), t, j);
      Execute(maps, pool, InsertRow(cols, layouts, t, j));
    }
  }

  lemma NothingWritten<C>(cols: seq<Column<C>>, layouts: seq<Layout>, bags: seq<multiset<(Key, Blob)>>, t: seq<C>)
    requires |t| == |cols| && 0 < |layouts| <= |bags| && LayoutsOk(layouts, |cols|)
    ensures Written(cols, layouts, bags, t, 0) == bags
  {
    hide LayoutOk;
  }

  lemma OneMoreWritten<C>(
    cols: seq<Column<C>>, layouts: seq<Layout>, bags: seq<multiset<(Key, Blob)>>, t: seq<C>, j: nat)
    requires |t| == |cols| && 0 < j < |layouts| <= |bags| && LayoutsOk(layouts, |cols|)
    ensures var insert := InsertRow(cols, layouts, t, j);
      && insert.Insert? && insert.at == j
      && Written(cols, layouts, bags, t, j) == Meaning(Written(cols, layouts, bags, t, j - 1), insert)
  {
    hide LayoutOk, RowPair, Meaning;
  }

  /** `insert_if_not_present` on the new version's store, the first of the maps. */
  method WriteStore<C(==, !new)>(
    maps: seq<LsmMap<Blob>>, pool: MemoryPool, cols: seq<Column<C>>, t: seq<C>, ghost rows: set<seq<C>>)
    returns (added: bool)
    requires maps != [] && Together(maps, pool) && pool.Valid() && pool.Bounded()
    requires LsmStore(cols, maps[0]).Holds(rows) && Typed(cols, t)
    modifies Footprint(pool, maps)
    ensures Together(maps, pool) && pool.Valid() && pool.Bounded()
    ensures added <==> t !in rows
    ensures |t| == |cols| && Bags(maps) ==
      if added then old(Bags(maps))[0 := old(Bags(maps))[0] + multiset{RowPair(cols, Stored, t)}] else old(Bags(maps))
    ensures pool.shares.Keys == old(pool.shares).Keys
    ensures fresh(Footprint(pool, maps) - old(Footprint(pool, maps)))
  {
    hide LsmMap.Usable, LsmMap.Contents, MemoryPool.Valid, MemoryPool.Bounded, Represents, Lawful, WidthOf;
    hide Typed, Encode;
    forall i | 0 <= i < |maps|
      ensures maps[i] in pool.shares
    {
      Registered(maps[i]);
    }
    var store := LsmStore(cols, maps[0]);
    TypedLength(cols, t);
    added := store.InsertIfNotPresent(t, rows);
    forall i | 1 <= i < |maps|
      ensures maps[i].Valid() && maps[i].Contents() == old(maps[i].Contents())
    {
      LeftAlone(maps[i]);
    }
    ghost var before := old(Bags(maps));
    assert added ==> Bags(maps) == before[0 := before[0] + multiset{RowPair(cols, Stored, t)}];
    assert !added ==> Bags(maps) == before;
    forall o | o in Footprint(pool, maps) && o !in old(Footprint(pool, maps))
      ensures fresh(o)
    {
      var i :| 0 <= i < |maps| && maps[i].memtable == o;
    }
  }

  // ------------------------------------------------------------------------
  // The three versions as one sequence of maps
  // ------------------------------------------------------------------------

  lemma SwapTogether<V(!new)>(a: seq<LsmMap<V>>, b: seq<LsmMap<V>>, c: seq<LsmMap<V>>, pool: MemoryPool)
    requires Together(a + b + c, pool)
    ensures Together(b + a + c, pool)
  {
    hide LsmMap.Valid;
    var before, after := a + b + c, b + a + c;
    var place := (i: int) => if i < |b| then |a| + i else if i < |a| + |b| then i - |b| else i;
    forall i | 0 <= i < |after|
      ensures 0 <= place(i) < |before| && after[i] == before[place(i)]
    {
    }
    forall i, j | 0 <= i < j < |after|
      ensures after[i] != after[j] && after[i].memtable != after[j].memtable
    {
      assert place(i) != place(j);
      assert after[i] == before[place(i)] && after[j] == before[place(j)];
    }
  }

  /** After a new row was written to the store and to the indices, the new version has it, the others are the same. */
  lemma RowEntered<C(!new)>(
    cols: seq<Column<C>>, layouts: seq<Layout>, bags: seq<multiset<(Key, Blob)>>, stored: seq<multiset<(Key, Blob)>>,
    after: seq<multiset<(Key, Blob)>>, rows: set<seq<C>>, t: seq<C>)
    requires SchemaOk(cols, layouts) && Typed(cols, t) && t !in rows && LayoutsOk(layouts, |cols|)
    requires |bags| == 3 * |layouts| && Tracks(cols, layouts, bags[..|layouts|], rows)
    requires stored == bags[0 := bags[0] + multiset{RowPair(cols, Stored, t)}]
    requires after == Written(cols, layouts, stored, t, |layouts| - 1)
    ensures Tracks(cols, layouts, after[..|layouts|], rows + {t})
    ensures after[|layouts|..] == bags[|layouts|..]
  {
    hide Represents, LayoutOk, Lawful, RowPair, Typed, Written;
    TypedLength(cols, t);
    var n := |layouts|;
    forall j | 0 <= j < |bags|
      ensures after[j] == if j < n then bags[j] + multiset{RowPair(cols, layouts[j], t)} else bags[j]
    {
      WrittenAt(cols, layouts, stored, t, n - 1, j);
    }
    TracksMore(cols, layouts, bags[..n], rows, t, after[..n]);
  }

  /** After the round, the delta version is empty and the total version has its rows. */
  lemma DeltaEntered<C(!new)>(
    cols: seq<Column<C>>, layouts: seq<Layout>, bags: seq<multiset<(Key, Blob)>>, rows: set<seq<C>>, more: set<seq<C>>)
    requires Lawful(cols) && rows !! more && LayoutsOk(layouts, |cols|)
    requires |bags| == 3 * |layouts|
    requires Tracks(cols, layouts, bags[|layouts|..2 * |layouts|], more)
    requires Tracks(cols, layouts, bags[2 * |layouts|..], rows)
    ensures var n := |layouts|;
      var after := Moved(bags, n, n);
      && after[..n] == bags[..n]
      && Tracks(cols, layouts, after[n..2 * n], {})
      && Tracks(cols, layouts, after[2 * n..], rows + more)
  {
    hide Represents, LayoutOk, Lawful, Moved;
    var n := |layouts|;
    var after := Moved(bags, n, n);
    forall j | 0 <= j < n
      ensures after[..n][j] == bags[..n][j]
    {
      MovedAt(bags, n, n, j);
    }
    forall j | 0 <= j < n
      ensures after[n..2 * n][j] == multiset{}
    {
      MovedAt(bags, n, n, n + j);
    }
    forall j | 0 <= j < n
      ensures after[2 * n..][j] == bags[2 * n..][j] + bags[n..2 * n][j]
    {
      MovedAt(bags, n, n, 2 * n + j);
    }
    TracksNone(cols, layouts, after[n..2 * n]);
    TracksBoth(cols, layouts, bags[2 * n..], rows, bags[n..2 * n], more, after[2 * n..]);
  }

  // ------------------------------------------------------------------------
  // New maps
  // ------------------------------------------------------------------------

  lemma HeldNone<C>(cols: seq<Column<C>>, layouts: seq<Layout>, bags: seq<multiset<(Key, Blob)>>)
    requires |bags| == 3 * |layouts| && Empties(bags) && LayoutsOk(layouts, |cols|)
    ensures HeldBy(cols, layouts, bags, {}, {}, {})
  {
  }

  /** How every map of a process is set up. */
  datatype Settings = Settings(
    chunk: nat, memtableLimit: nat, levelFanout: nat, footprint: seq<Entry<Blob>> -> nat, hash: Key -> Hash)

  ghost predicate SettingsOk(s: Settings) {
    s.chunk > 0 && s.memtableLimit <= NO_ENTRY && s.footprint([]) == 0
  }

  /** The map counts its memory, fills its buffer and merges its runs as the settings say. */
  ghost predicate MadeWith(m: LsmMap<Blob>, s: Settings) {
    && m.chunk == s.chunk && m.footprint == s.footprint
    && m.memtableLimit == AtLeastOne(s.memtableLimit) && m.levelFanout == AtLeastOne(s.levelFanout)
  }

  /** What to make: a kind of map, and the prefix lengths it chains. */
  datatype Plan = Plan(kind: Params, lens: seq<nat>)

  ghost predicate PlanOk(p: Plan) {
    forall f :: 0 <= f < |p.lens| ==> p.lens[f] <= p.kind.width
  }

  ghost predicate AsPlanned(m: LsmMap<Blob>, p: Plan, s: Settings) {
    m.ps == p.kind && m.prefixLens == p.lens && MadeWith(m, s)
  }

  method AddMap(maps: seq<LsmMap<Blob>>, pool: MemoryPool, p: Plan, s: Settings) returns (m: LsmMap<Blob>)
    requires Together(maps, pool) && pool.Valid() && pool.Bounded() && SettingsOk(s) && PlanOk(p)
    modifies pool
    ensures Together(maps + [m], pool) && pool.Valid() && pool.Bounded()
    ensures Bags(maps + [m]) == old(Bags(maps)) + [multiset{}]
    ensures AsPlanned(m, p, s) && fresh(m) && fresh(m.memtable)
    ensures forall i :: 0 <= i < |maps| ==> maps[i].memtable == old(maps[i].memtable)
  {
    hide LsmMap.Usable, LsmMap.Contents, MemoryPool.Valid, MemoryPool.Bounded;
    forall i | 0 <= i < |maps|
      ensures maps[i] in pool.shares
    {
      Registered(maps[i]);
    }
    m := new LsmMap<Blob>(p.kind, s.chunk, s.memtableLimit, s.levelFanout, p.lens, s.footprint, pool);
    forall i | 0 <= i < |maps|
      ensures maps[i].Valid() && maps[i].Contents() == old(maps[i].Contents())
    {
      LeftAlone(maps[i]);
    }
  }

  ghost predicate Empties(bags: seq<multiset<(Key, Blob)>>) {
    forall j :: 0 <= j < |bags| ==> bags[j] == multiset{}
  }

  /** Empty maps as planned. */
  method AddMaps(pool: MemoryPool, plans: seq<Plan>, s: Settings) returns (maps: seq<LsmMap<Blob>>)
    requires pool.Valid() && pool.Bounded() && SettingsOk(s) && forall i :: 0 <= i < |plans| ==> PlanOk(plans[i])
    modifies pool
    ensures Together(maps, pool) && pool.Valid() && pool.Bounded()
    ensures |maps| == |plans| && Empties(Bags(maps))
    ensures forall i :: 0 <= i < |maps| ==> AsPlanned(maps[i], plans[i], s)
    ensures forall i :: 0 <= i < |maps| ==> fresh(maps[i]) && fresh(maps[i].memtable)
  {
    hide Together, LsmMap.Contents, MemoryPool.Valid, MemoryPool.Bounded, SettingsOk, AsPlanned, PlanOk;
    maps := [];
    NoMaps<Blob>(pool);
    for i := 0 to |plans|
      invariant Together(maps, pool) && pool.Valid() && pool.Bounded() && |maps| == i && Empties(Bags(maps))
      invariant forall j :: 0 <= j < i ==> AsPlanned(maps[j], plans[j], s)
      invariant forall j :: 0 <= j < i ==> fresh(maps[j]) && fresh(maps[j].memtable)
    {
      var m := AddMap(maps, pool, plans[i], s);
      maps := maps + [m];
    }
  }

  lemma NoMaps<V(!new)>(pool: MemoryPool)
    ensures Together<V>([], pool)
  {
  }

  /** One version: the store, which chains the prefixes the indices read by, and the indices. */
  function VersionPlan<C>(cols: seq<Column<C>>, layouts: seq<Layout>, lens: seq<nat>, s: Settings): (r: seq<Plan>)
    requires LayoutsOk(layouts, |cols|)
    ensures |r| == |layouts|
    ensures forall j :: 0 <= j < |r| ==>
      r[j] == Plan(Params(BlobWidth(KeyColumns(cols, layouts[j])), s.hash), if j == 0 then lens else [])
  {
    seq(|layouts|, j requires 0 <= j < |layouts| =>
      Plan(Params(BlobWidth(KeyColumns(cols, layouts[j])), s.hash), if j == 0 then lens else []))
  }

  lemma ThreeShapes<C>(cols: seq<Column<C>>, layouts: seq<Layout>, lens: seq<nat>, s: Settings, kinds: seq<Params>)
    requires LayoutsOk(layouts, |cols|) && |kinds| == 3 * |layouts|
    requires var version := VersionPlan(cols, layouts, lens, s);
      forall i :: 0 <= i < |kinds| ==> kinds[i] == (version + version + version)[i].kind
    ensures Shapes(cols, layouts, kinds)
  {
    hide LayoutOk, KeyColumns, BlobWidth;
  }

  lemma VersionPlanOk<C(!new)>(cols: seq<Column<C>>, layouts: seq<Layout>, lens: seq<nat>, s: Settings)
    requires SchemaOk(cols, layouts) && LayoutsOk(layouts, |cols|)
    requires forall f :: 0 <= f < |lens| ==> lens[f] <= WidthOf(cols)
    ensures var version := VersionPlan(cols, layouts, lens, s);
      forall i :: 0 <= i < |version + version + version| ==> PlanOk((version + version + version)[i])
  {
  }

  lemma StoreWidth<C(!new)>(cols: seq<Column<C>>, layouts: seq<Layout>)
    requires SchemaOk(cols, layouts)
    ensures LayoutOk(layouts[0], |cols|) && BlobWidth(KeyColumns(cols, layouts[0])) == WidthOf(cols)
  {
    hide Lawful, WidthOf;
  }

  // ------------------------------------------------------------------------
  // The relation
  // ------------------------------------------------------------------------

  /** The maps of the three versions hold their rows. */
  ghost predicate HeldBy<C>(
    cols: seq<Column<C>>, layouts: seq<Layout>, bags: seq<multiset<(Key, Blob)>>,
    newer: set<seq<C>>, delta: set<seq<C>>, total: set<seq<C>>)
  {
    var n := |layouts|;
    && |bags| == 3 * n
    && Tracks(cols, layouts, bags[..n], newer)
    && Tracks(cols, layouts, bags[n..2 * n], delta)
    && Tracks(cols, layouts, bags[2 * n..], total)
  }

  /** Writes a row to the new version's store and, if it was not there, to its indices. */
  method EnterRow<C(==, !new)>(
    maps: seq<LsmMap<Blob>>, pool: MemoryPool, cols: seq<Column<C>>, layouts: seq<Layout>, t: seq<C>,
    ghost newer: set<seq<C>>, ghost delta: set<seq<C>>, ghost total: set<seq<C>>) returns (added: bool)
    requires SchemaOk(cols, layouts) && LayoutsOk(layouts, |cols|) && Shapes(cols, layouts, Kinds(maps))
    requires Typed(cols, t)
    requires Together(maps, pool) && pool.Valid() && pool.Bounded()
    requires HeldBy(cols, layouts, Bags(maps), newer, delta, total)
    modifies Footprint(pool, maps)
    ensures Together(maps, pool) && pool.Valid() && pool.Bounded()
    ensures added <==> t !in newer
    ensures HeldBy(cols, layouts, Bags(maps), newer + {t}, delta, total)
    ensures fresh(Footprint(pool, maps) - old(Footprint(pool, maps)))
  {
    hide Together, MemoryPool.Valid, MemoryPool.Bounded, LsmMap.Contents, LsmStore.Holds, LsmIndex.Holds, Typed;
    hide Tracks, Shapes, RowPair, Written, Lawful, LayoutsOk;
    TypedLength(cols, t);
    ghost var bags := Bags(maps);
    assert bags[0..0 + |layouts|] == bags[..|layouts|];
    ReadableAt(maps, pool, cols, layouts, 0, newer);
    added := WriteStore(maps, pool, cols, t, newer);
    if added {
      ghost var stored := Bags(maps);
      WriteIndices(maps, pool, cols, layouts, t);
      RowEntered(cols, layouts, bags, stored, Bags(maps), newer, t);
      SameTails(bags, Bags(maps), |layouts|);
    } else {
      assert newer + {t} == newer;
    }
  }

  lemma SameTails<T>(a: seq<T>, b: seq<T>, n: nat)
    requires |a| == 3 * n && |b| == 3 * n && a[n..] == b[n..]
    ensures a[n..2 * n] == b[n..2 * n] && a[2 * n..] == b[2 * n..]
  {
  }

  /** The first map reads as the store of the rows, the others as its indices. */
  ghost predicate ReadableAs<C(!new)>(
    cols: seq<Column<C>>, layouts: seq<Layout>, maps: seq<LsmMap<Blob>>, rows: set<seq<C>>)
    requires layouts != [] && |maps| == |layouts|
    reads maps, set m | m in maps :: m.memtable, set m | m in maps :: m.pool
  {
    && LsmStore(cols, maps[0]).Holds(rows)
    && forall j :: 0 < j < |layouts| ==> LsmIndex(cols, layouts[j], maps[j]).Holds(rows)
  }

  lemma ReadableAt<C(!new)>(
    maps: seq<LsmMap<Blob>>, pool: MemoryPool, cols: seq<Column<C>>, layouts: seq<Layout>, at: nat, rows: set<seq<C>>)
    requires SchemaOk(cols, layouts) && Shapes(cols, layouts, Kinds(maps)) && Together(maps, pool)
    requires at == 0 || at == |layouts| || at == 2 * |layouts|
    requires |maps| == 3 * |layouts| && Tracks(cols, layouts, Bags(maps)[at..at + |layouts|], rows)
    ensures ReadableAs(cols, layouts, maps[at..at + |layouts|], rows)
  {
    hide Together, LsmMap.Valid, LsmMap.Contents, Represents, Lawful, LayoutOk, Shapes, Kinds, Tracks, SchemaOk;
    hide LsmStore.Holds, LsmIndex.Holds;
    var n := |layouts|;
    var version := maps[at..at + n];
    SchemaHasStore(cols, layouts);
    StoreReadable(maps, pool, cols, layouts, at, rows);
    assert version[0] == maps[at];
    forall j | 0 < j < n
      ensures LsmIndex(cols, layouts[j], version[j]).Holds(rows)
    {
      IndexReadable(maps, pool, cols, layouts, at, j, rows);
      assert version[j] == maps[at + j];
    }
  }

  lemma SchemaHasStore<C(!new)>(cols: seq<Column<C>>, layouts: seq<Layout>)
    requires SchemaOk(cols, layouts)
    ensures layouts != [] && layouts[0] == Stored && cols != [] && Lawful(cols)
  {
    hide Lawful, LayoutOk;
  }

  /** The map of a version and a layout is sound, as wide as the layout says, and stands for the rows. */
  lemma MapAt<C(!new)>(
    maps: seq<LsmMap<Blob>>, pool: MemoryPool, cols: seq<Column<C>>, layouts: seq<Layout>, at: nat, j: nat,
    rows: set<seq<C>>)
    requires Shapes(cols, layouts, Kinds(maps)) && Together(maps, pool) && j < |layouts|
    requires at == 0 || at == |layouts| || at == 2 * |layouts|
    requires |maps| == 3 * |layouts| && Tracks(cols, layouts, Bags(maps)[at..at + |layouts|], rows)
    ensures maps[at + j].Valid() && LayoutOk(layouts[j], |cols|)
    ensures maps[at + j].ps.width == BlobWidth(KeyColumns(cols, layouts[j]))
    ensures Represents(cols, layouts[j], maps[at + j].Contents(), multiset(rows))
  {
    hide LsmMap.Valid, LsmMap.Contents, Represents, LayoutOk, KeyColumns, BlobWidth;
    var kinds, bags := Kinds(maps), Bags(maps);
    assert kinds[at + j] == kinds[j];
    assert bags[at..at + |layouts|][j] == bags[at + j];
  }

  lemma StoreReadable<C(!new)>(
    maps: seq<LsmMap<Blob>>, pool: MemoryPool, cols: seq<Column<C>>, layouts: seq<Layout>, at: nat, rows: set<seq<C>>)
    requires SchemaOk(cols, layouts) && Shapes(cols, layouts, Kinds(maps)) && Together(maps, pool)
    requires at == 0 || at == |layouts| || at == 2 * |layouts|
    requires |maps| == 3 * |layouts| && Tracks(cols, layouts, Bags(maps)[at..at + |layouts|], rows)
    ensures |layouts| > 0 && LsmStore(cols, maps[at]).Holds(rows)
  {
    hide Together, LsmMap.Valid, LsmMap.Contents, Represents, Lawful, LayoutOk, Shapes, Kinds, Tracks, SchemaOk;
    hide KeyColumns, WidthOf;
    SchemaHasStore(cols, layouts);
    MapAt(maps, pool, cols, layouts, at, 0, rows);
    StoreWidth(cols, layouts);
  }

  lemma IndexReadable<C(!new)>(
    maps: seq<LsmMap<Blob>>, pool: MemoryPool, cols: seq<Column<C>>, layouts: seq<Layout>, at: nat, j: nat,
    rows: set<seq<C>>)
    requires SchemaOk(cols, layouts) && Shapes(cols, layouts, Kinds(maps)) && Together(maps, pool)
    requires at == 0 || at == |layouts| || at == 2 * |layouts|
    requires 0 < j < |layouts|
    requires |maps| == 3 * |layouts| && Tracks(cols, layouts, Bags(maps)[at..at + |layouts|], rows)
    ensures LsmIndex(cols, layouts[j], maps[at + j]).Holds(rows)
  {
    hide Together, LsmMap.Valid, LsmMap.Contents, Represents, Lawful, LayoutOk, Shapes, Kinds, Tracks, SchemaOk;
    hide KeyColumns, BlobWidth;
    SchemaHasStore(cols, layouts);
    MapAt(maps, pool, cols, layouts, at, j, rows);
    IndexWidth(cols, layouts, j);
  }

  lemma IndexWidth<C(!new)>(cols: seq<Column<C>>, layouts: seq<Layout>, j: nat)
    requires SchemaOk(cols, layouts) && 0 < j < |layouts|
    ensures layouts[j].Indexed? && LayoutOk(layouts[j], |cols|) && InRange(layouts[j].keyAt, |cols|)
    ensures KeyColumns(cols, layouts[j]) == Pick(cols, layouts[j].keyAt)
  {
    hide Lawful;
  }

  /** The versions share no row, together have every derived row, and the count is their number. */
  ghost predicate Split<T>(newer: set<T>, delta: set<T>, total: set<T>, derived: set<T>, count: nat) {
    && newer !! delta && newer !! total && delta !! total
    && derived == newer + delta + total
    && count == |derived|
  }

  lemma SplitMore<T>(newer: set<T>, delta: set<T>, total: set<T>, derived: set<T>, count: nat, t: T)
    requires Split(newer, delta, total, derived, count) && t !in delta && t !in total
    ensures t in newer <==> t in derived
    ensures t in newer ==> newer + {t} == newer && derived + {t} == derived
    ensures t !in newer ==> Split(newer + {t}, delta, total, derived + {t}, count + 1)
  {
  }

  lemma SplitKnown<T>(newer: set<T>, delta: set<T>, total: set<T>, derived: set<T>, count: nat, t: T)
    requires Split(newer, delta, total, derived, count) && (t in delta || t in total)
    ensures t in derived && derived + {t} == derived
  {
  }

  lemma SplitMoved<T>(newer: set<T>, delta: set<T>, total: set<T>, derived: set<T>, count: nat)
    requires Split(newer, delta, total, derived, count)
    ensures delta !! total && Split({}, newer, total + delta, derived, count)
  {
    assert {} + newer + (total + delta) == derived;
  }

  lemma SwapShapes<C>(
    cols: seq<Column<C>>, layouts: seq<Layout>, a: seq<LsmMap<Blob>>, b: seq<LsmMap<Blob>>, c: seq<LsmMap<Blob>>)
    requires |a| == |layouts| && |b| == |layouts| && |c| == |layouts| && Shapes(cols, layouts, Kinds(a + b + c))
    ensures Shapes(cols, layouts, Kinds(b + a + c))
  {
    hide LayoutOk, KeyColumns, BlobWidth;
    var n := |layouts|;
    var before, after := Kinds(a + b + c), Kinds(b + a + c);
    forall j | 0 <= j < n
      ensures after[j] == before[j] && after[n + j] == before[j] && after[2 * n + j] == before[j]
    {
      assert before[n + j] == before[j] && before[2 * n + j] == before[j];
    }
  }

  lemma DeltaLikeTotal<C>(cols: seq<Column<C>>, layouts: seq<Layout>, maps: seq<LsmMap<Blob>>)
    requires Shapes(cols, layouts, Kinds(maps))
    ensures |maps| == 3 * |layouts|
    ensures forall j :: |layouts| <= j < 2 * |layouts| ==> maps[j].ps == maps[|layouts| + j].ps
  {
    hide LayoutOk, KeyColumns;
    var n := |layouts|;
    forall j | n <= j < 2 * n
      ensures maps[j].ps == maps[n + j].ps
    {
      assert Kinds(maps)[n + (j - n)] == Kinds(maps)[j - n] && Kinds(maps)[2 * n + (j - n)] == Kinds(maps)[j - n];
    }
  }

  /** Moves delta into total, and then what was delta stands for new and what was new for delta. */
  method MoveAndSwap<C(!new)>(
    a: seq<LsmMap<Blob>>, b: seq<LsmMap<Blob>>, c: seq<LsmMap<Blob>>, pool: MemoryPool,
    cols: seq<Column<C>>, layouts: seq<Layout>,
    ghost newer: set<seq<C>>, ghost delta: set<seq<C>>, ghost total: set<seq<C>>)
    requires SchemaOk(cols, layouts) && LayoutsOk(layouts, |cols|) && Shapes(cols, layouts, Kinds(a + b + c))
    requires |a| == |layouts| && |b| == |layouts| && |c| == |layouts|
    requires Together(a + b + c, pool) && pool.Valid() && pool.Bounded()
    requires HeldBy(cols, layouts, Bags(a + b + c), newer, delta, total) && delta !! total
    modifies Footprint(pool, a + b + c)
    ensures Together(b + a + c, pool) && pool.Valid() && pool.Bounded()
    ensures HeldBy(cols, layouts, Bags(b + a + c), {}, newer, total + delta)
    ensures fresh(Footprint(pool, b + a + c) - old(Footprint(pool, a + b + c)))
  {
    hide Together, MemoryPool.Valid, MemoryPool.Bounded, LsmMap.Contents, Tracks, Shapes, Lawful, LayoutsOk;
    hide Moved, Kinds, Bags, Footprint;
    var maps := a + b + c;
    ghost var bags := Bags(maps);
    DeltaLikeTotal(cols, layouts, maps);
    DeltaEntered(cols, layouts, bags, total, delta);
    MoveDelta(maps, pool, |layouts|);
    SwapTogether(a, b, c, pool);
    SwapBags(a, b, c, |layouts|);
    SwapFootprint(a, b, c, pool);
  }

  lemma SwapFootprint(a: seq<LsmMap<Blob>>, b: seq<LsmMap<Blob>>, c: seq<LsmMap<Blob>>, pool: MemoryPool)
    ensures Footprint(pool, b + a + c) == Footprint(pool, a + b + c)
  {
    assert forall m :: m in b + a + c <==> m in a + b + c;
  }

  lemma SwapBags<V(!new)>(a: seq<LsmMap<V>>, b: seq<LsmMap<V>>, c: seq<LsmMap<V>>, n: nat)
    requires |a| == n && |b| == n && |c| == n
    ensures var before, after := Bags(a + b + c), Bags(b + a + c);
      && |before| == 3 * n && |after| == 3 * n
      && after[..n] == before[n..2 * n] && after[n..2 * n] == before[..n] && after[2 * n..] == before[2 * n..]
  {
    hide LsmMap.Contents;
  }

  /** Which rows each version has, and every row derived so far. */
  datatype Rows<C(==)> = Rows(newer: set<seq<C>>, delta: set<seq<C>>, total: set<seq<C>>, derived: set<seq<C>>)

  /**
   The store and the indices of the rows of this round, of the last one and of all before, and the
   length of the counting relation.
   */
  datatype Relation<!C(==, !new)> = Relation(
    cols: seq<Column<C>>,
    layouts: seq<Layout>,
    pool: MemoryPool,
    newer: seq<LsmMap<Blob>>,
    delta: seq<LsmMap<Blob>>,
    total: seq<LsmMap<Blob>>,
    count: nat)
  {
    function Maps(): seq<LsmMap<Blob>> {
      newer + delta + total
    }

    ghost predicate Schema() {
      && SchemaOk(cols, layouts) && LayoutsOk(layouts, |cols|)
      && |newer| == |layouts| && |delta| == |layouts| && |total| == |layouts|
      && Shapes(cols, layouts, Kinds(Maps()))
    }

    /** The maps hold the rows, each version its own. */
    ghost predicate Valid(rows: Rows<C>)
      reads pool, Maps(), set m | m in Maps() :: m.memtable, set m | m in Maps() :: m.pool
    {
      && Schema() && Together(Maps(), pool) && pool.Valid() && pool.Bounded()
      && HeldBy(cols, layouts, Bags(Maps()), rows.newer, rows.delta, rows.total)
      && Split(rows.newer, rows.delta, rows.total, rows.derived, count)
    }

    /** Each version's store and indices can be read as its rows. */
    lemma Readable(rows: Rows<C>)
      requires Valid(rows)
      ensures layouts != [] && |newer| == |layouts| && |delta| == |layouts| && |total| == |layouts|
      ensures ReadableAs(cols, layouts, newer, rows.newer)
      ensures ReadableAs(cols, layouts, delta, rows.delta)
      ensures ReadableAs(cols, layouts, total, rows.total)
    {
      hide Together, LsmMap.Valid, LsmMap.Contents, Tracks, Shapes, Lawful, LayoutOk, MemoryPool.Valid;
      hide MemoryPool.Bounded, ReadableAs, Split;
      var n := |layouts|;
      var maps := Maps();
      assert newer == maps[0..0 + n] && delta == maps[n..n + n] && total == maps[2 * n..2 * n + n];
      var bags := Bags(maps);
      assert bags[0..0 + n] == bags[..n] && bags[2 * n..2 * n + n] == bags[2 * n..];
      ReadableAt(maps, pool, cols, layouts, 0, rows.newer);
      ReadableAt(maps, pool, cols, layouts, n, rows.delta);
      ReadableAt(maps, pool, cols, layouts, 2 * n, rows.total);
    }

    lemma SchemaParts()
      requires Schema()
      ensures SchemaOk(cols, layouts) && LayoutsOk(layouts, |cols|) && Shapes(cols, layouts, Kinds(Maps()))
    {
      hide SchemaOk, LayoutsOk, Shapes;
    }

    lemma Recounted(n: nat)
      requires Schema()
      ensures var r := this.(count := n); r.Schema() && r.Maps() == Maps()
    {
      hide SchemaOk, LayoutsOk, Shapes;
    }

    /** The rule's check: neither all earlier rows nor the last round's have it. */
    method Known(t: seq<C>, ghost rows: Rows<C>) returns (r: bool)
      requires Valid(rows) && Typed(cols, t)
      ensures r <==> t in rows.total || t in rows.delta
    {
      hide Schema, Together, HeldBy, LsmStore.Holds, LsmIndex.Holds, Typed, MemoryPool.Valid, MemoryPool.Bounded, Split;
      Readable(rows);
      r := LsmStore(cols, total[0]).Contains(t, rows.total);
      if !r {
        r := LsmStore(cols, delta[0]).Contains(t, rows.delta);
      }
    }

    /** A rule derives a row: it enters the new version only if no version has it. */
    method Derive(t: seq<C>, ghost rows: Rows<C>) returns (r: Relation<C>, ghost after: Rows<C>, added: bool)
      requires Valid(rows) && Typed(cols, t)
      modifies Footprint(pool, Maps())
      ensures r == this.(count := r.count) && r.Valid(after)
      ensures added <==> t !in rows.derived
      ensures after == if added then rows.(newer := rows.newer + {t}, derived := rows.derived + {t}) else rows
      ensures fresh(Footprint(r.pool, r.Maps()) - old(Footprint(pool, Maps())))
    {
      hide Valid, Typed;
      var known := Known(t, rows);
      r, after, added := Add(t, rows, known);
    }

    lemma Parts(rows: Rows<C>)
      requires Valid(rows)
      ensures Schema() && Together(Maps(), pool) && pool.Valid() && pool.Bounded()
      ensures HeldBy(cols, layouts, Bags(Maps()), rows.newer, rows.delta, rows.total)
      ensures Split(rows.newer, rows.delta, rows.total, rows.derived, count)
    {
      hide Schema, Together, HeldBy, MemoryPool.Valid, MemoryPool.Bounded, Split, Bags, Maps;
    }

    lemma Whole(rows: Rows<C>)
      requires Schema() && Together(Maps(), pool) && pool.Valid() && pool.Bounded()
      requires HeldBy(cols, layouts, Bags(Maps()), rows.newer, rows.delta, rows.total)
      requires Split(rows.newer, rows.delta, rows.total, rows.derived, count)
      ensures Valid(rows)
    {
      hide Schema, Together, HeldBy, MemoryPool.Valid, MemoryPool.Bounded, Split, Bags, Maps;
    }

    /** Unless the row was known before this round, writes it, and counts it if it is new. */
    method Add(t: seq<C>, ghost rows: Rows<C>, known: bool) returns (r: Relation<C>, ghost after: Rows<C>, added: bool)
      requires Valid(rows) && Typed(cols, t) && (known <==> t in rows.total || t in rows.delta)
      modifies Footprint(pool, Maps())
      ensures r == this.(count := r.count) && r.Valid(after)
      ensures added <==> t !in rows.derived
      ensures after == if added then rows.(newer := rows.newer + {t}, derived := rows.derived + {t}) else rows
      ensures fresh(Footprint(r.pool, r.Maps()) - old(Footprint(pool, Maps())))
    {
      hide *;
      Parts(rows);
      if known {
        SplitKnown(rows.newer, rows.delta, rows.total, rows.derived, count, t);
        return this, rows, false;
      }
      SchemaParts();
      SplitMore(rows.newer, rows.delta, rows.total, rows.derived, count, t);
      Recounted(count + 1);
      added := EnterRow(Maps(), pool, cols, layouts, t, rows.newer, rows.delta, rows.total);
      if added {
        r, after := this.(count := count + 1), rows.(newer := rows.newer + {t}, derived := rows.derived + {t});
      } else {
        r, after := this, rows;
      }
      r.Whole(after);
    }

    /** The end of a round: the last round's rows join all earlier ones, and this round's become the last. */
    method EndRound(ghost rows: Rows<C>) returns (r: Relation<C>, ghost after: Rows<C>)
      requires Valid(rows)
      modifies Footprint(pool, Maps())
      ensures r == this.(newer := delta, delta := newer) && r.Valid(after)
      ensures after == Rows({}, rows.newer, rows.total + rows.delta, rows.derived)
      ensures fresh(Footprint(r.pool, r.Maps()) - old(Footprint(pool, Maps())))
    {
      hide *;
      Parts(rows);
      SchemaParts();
      Swapped();
      SplitMoved(rows.newer, rows.delta, rows.total, rows.derived, count);
      MoveAndSwap(newer, delta, total, pool, cols, layouts, rows.newer, rows.delta, rows.total);
      r, after := this.(newer := delta, delta := newer), Rows({}, rows.newer, rows.total + rows.delta, rows.derived);
      r.Whole(after);
    }

    lemma Swapped()
      requires Schema()
      ensures |newer| == |layouts| && |delta| == |layouts| && |total| == |layouts|
      ensures var r := this.(newer := delta, delta := newer);
        r.Schema() && r.Maps() == delta + newer + total && Maps() == newer + delta + total
    {
      hide SchemaOk, LayoutsOk, Shapes;
      SwapShapes(cols, layouts, newer, delta, total);
    }
  }

  // ------------------------------------------------------------------------
  // Whole runs
  // ------------------------------------------------------------------------

  /** The store reads by the prefix lengths, and so its buffer chains them; the indices by none. */
  ghost predicate ReadsBy(maps: seq<LsmMap<Blob>>, lens: seq<nat>) {
    forall j :: 0 <= j < |maps| ==> maps[j].prefixLens == if j == 0 then lens else []
  }

  /** A relation without rows. */
  method NewRelation<C(==, !new)>(
    pool: MemoryPool, cols: seq<Column<C>>, layouts: seq<Layout>, lens: seq<nat>, s: Settings)
    returns (r: Relation<C>)
    requires pool.Valid() && pool.Bounded() && SettingsOk(s)
    requires SchemaOk(cols, layouts) && LayoutsOk(layouts, |cols|)
    requires forall f :: 0 <= f < |lens| ==> lens[f] <= WidthOf(cols)
    modifies pool
    ensures r.Valid(Rows({}, {}, {}, {})) && r.cols == cols && r.layouts == layouts && r.pool == pool && r.count == 0
    ensures ReadsBy(r.newer, lens) && ReadsBy(r.delta, lens) && ReadsBy(r.total, lens)
    ensures forall i :: 0 <= i < |r.Maps()| ==> MadeWith(r.Maps()[i], s)
    ensures forall i :: 0 <= i < |r.Maps()| ==> fresh(r.Maps()[i]) && fresh(r.Maps()[i].memtable)
  {
    hide *;
    var version := VersionPlan(cols, layouts, lens, s);
    VersionPlanOk(cols, layouts, lens, s);
    var maps := AddMaps(pool, version + version + version, s);
    var n := |layouts|;
    r := Relation(cols, layouts, pool, maps[..n], maps[n..2 * n], maps[2 * n..], 0);
    Planned(r, maps, lens, s);
    HeldNone(cols, layouts, Bags(maps));
    NothingSplit<C>();
    r.Whole(Rows({}, {}, {}, {}));
  }

  lemma NothingSplit<C>()
    ensures var none: set<seq<C>> := {}; Split(none, none, none, none, 0)
  {
  }

  /** Maps made as planned are the three versions of a relation with the schema. */
  lemma Planned<C(!new)>(r: Relation<C>, maps: seq<LsmMap<Blob>>, lens: seq<nat>, s: Settings)
    requires SchemaOk(r.cols, r.layouts) && LayoutsOk(r.layouts, |r.cols|) && |maps| == 3 * |r.layouts|
    requires var n := |r.layouts|; r.newer == maps[..n] && r.delta == maps[n..2 * n] && r.total == maps[2 * n..]
    requires var version := VersionPlan(r.cols, r.layouts, lens, s);
      forall i :: 0 <= i < |maps| ==> AsPlanned(maps[i], (version + version + version)[i], s)
    ensures r.Maps() == maps && r.Schema() && forall i :: 0 <= i < |maps| ==> MadeWith(maps[i], s)
    ensures ReadsBy(r.newer, lens) && ReadsBy(r.delta, lens) && ReadsBy(r.total, lens)
  {
    hide SchemaOk, LayoutsOk, VersionPlan, Shapes, ReadsBy, Kinds, AsPlanned, MadeWith;
    var version, n := VersionPlan(r.cols, r.layouts, lens, s), |r.layouts|;
    PlannedParts(maps, version + version + version, s);
    MapsJoin(r, maps);
    ThreeShapes(r.cols, r.layouts, lens, s, Kinds(maps));
    VersionsRead(maps, version, lens);
  }

  lemma MapsJoin<C(!new)>(r: Relation<C>, maps: seq<LsmMap<Blob>>)
    requires var n := |r.layouts|;
      |maps| == 3 * n && r.newer == maps[..n] && r.delta == maps[n..2 * n] && r.total == maps[2 * n..]
    ensures r.Maps() == maps
  {
  }

  lemma VersionsRead(maps: seq<LsmMap<Blob>>, version: seq<Plan>, lens: seq<nat>)
    requires |maps| == 3 * |version|
    requires forall i :: 0 <= i < |maps| ==> maps[i].prefixLens == (version + version + version)[i].lens
    requires forall j :: 0 <= j < |version| ==> version[j].lens == if j == 0 then lens else []
    ensures var n := |version|;
      ReadsBy(maps[..n], lens) && ReadsBy(maps[n..2 * n], lens) && ReadsBy(maps[2 * n..], lens)
  {
    hide ReadsBy;
    var n := |version|;
    assert maps[0..0 + n] == maps[..n] && maps[2 * n..2 * n + n] == maps[2 * n..];
    PlannedReads(maps, version, 0, lens);
    PlannedReads(maps, version, n, lens);
    PlannedReads(maps, version, 2 * n, lens);
  }

  lemma PlannedParts(maps: seq<LsmMap<Blob>>, plans: seq<Plan>, s: Settings)
    requires |maps| == |plans| && forall i :: 0 <= i < |maps| ==> AsPlanned(maps[i], plans[i], s)
    ensures forall i :: 0 <= i < |maps| ==> Kinds(maps)[i] == plans[i].kind
    ensures forall i :: 0 <= i < |maps| ==> maps[i].prefixLens == plans[i].lens
    ensures forall i :: 0 <= i < |maps| ==> MadeWith(maps[i], s)
  {
    hide MadeWith;
  }

  lemma PlannedReads(maps: seq<LsmMap<Blob>>, version: seq<Plan>, at: nat, lens: seq<nat>)
    requires |maps| == 3 * |version| && (at == 0 || at == |version| || at == 2 * |version|)
    requires forall i :: 0 <= i < |maps| ==> maps[i].prefixLens == (version + version + version)[i].lens
    requires forall j :: 0 <= j < |version| ==> version[j].lens == if j == 0 then lens else []
    ensures ReadsBy(maps[at..at + |version|], lens)
  {
    var plans := version + version + version;
    forall j | 0 <= j < |version|
      ensures maps[at..at + |version|][j].prefixLens == version[j].lens
    {
      assert plans[at + j] == version[j];
    }
  }

  /** What rules and the evaluation loop do to a relation. */
  datatype Move<C> = Derived(t: seq<C>) | RoundEnds

  ghost function DerivedBy<C>(moves: seq<Move<C>>): set<seq<C>> {
    set i | 0 <= i < |moves| && moves[i].Derived? :: moves[i].t
  }

  /** What one move means for which version has which row. */
  ghost function After<C>(rows: Rows<C>, move: Move<C>): Rows<C> {
    match move
    case Derived(t) =>
      if t in rows.derived then rows else rows.(newer := rows.newer + {t}, derived := rows.derived + {t})
    case RoundEnds => Rows({}, rows.newer, rows.total + rows.delta, rows.derived)
  }

  ghost function Played<C>(rows: Rows<C>, moves: seq<Move<C>>): Rows<C> {
    if moves == [] then rows
    else After(Played(rows, moves[..|moves| - 1]), moves[|moves| - 1])
  }

  lemma {:induction false} PlayedDerives<C>(rows: Rows<C>, moves: seq<Move<C>>)
    ensures Played(rows, moves).derived == rows.derived + DerivedBy(moves)
  {
    if moves == [] {
      NoMoves<C>();
    } else {
      var n := |moves| - 1;
      PlayedDerives(rows, moves[..n]);
      OneMoreMove(moves, n);
      assert moves[..n + 1] == moves;
    }
  }

  /** How many rounds end among the moves. */
  ghost function Rounds<C>(moves: seq<Move<C>>): nat {
    if moves == [] then 0
    else Rounds(moves[..|moves| - 1]) + (if moves[|moves| - 1].RoundEnds? then 1 else 0)
  }

  /** The row is derived by move `i`, and by none before it. */
  ghost predicate FirstAt<C>(moves: seq<Move<C>>, i: nat, t: seq<C>) {
    i < |moves| && moves[i] == Derived(t) && t !in DerivedBy(moves[..i])
  }

  lemma {:induction false} PlayedSplits<C>(moves: seq<Move<C>>)
    ensures var r := Played(Rows({}, {}, {}, {}), moves);
      Split(r.newer, r.delta, r.total, r.derived, |r.derived|)
  {
    if moves != [] {
      var n := |moves| - 1;
      PlayedSplits(moves[..n]);
      var r := Played(Rows({}, {}, {}, {}), moves[..n]);
      if moves[n].RoundEnds? {
        SplitMoved(r.newer, r.delta, r.total, r.derived, |r.derived|);
      } else if moves[n].t !in r.derived {
        SplitMore(r.newer, r.delta, r.total, r.derived, |r.derived|, moves[n].t);
      }
    }
  }

  /** Where a row is once so many rounds have ended since it was derived: new, delta, and then total. */
  ghost predicate Placed<C>(rows: Rows<C>, t: seq<C>, ends: nat) {
    && (t in rows.newer <==> ends == 0)
    && (t in rows.delta <==> ends == 1)
    && (t in rows.total <==> ends >= 2)
  }

  lemma PlacedAfter<C>(rows: Rows<C>, t: seq<C>, ends: nat, move: Move<C>)
    requires Placed(rows, t, ends) && t in rows.derived
    ensures Placed(After(rows, move), t, ends + if move.RoundEnds? then 1 else 0)
  {
  }

  lemma PlacedFirst<C>(rows: Rows<C>, t: seq<C>)
    requires Split(rows.newer, rows.delta, rows.total, rows.derived, |rows.derived|) && t !in rows.derived
    ensures Placed(After(rows, Derived(t)), t, 0)
  {
  }

  /**
   In a run from nothing, a row is in the new version until the round of its first derivation ends, then in
   delta for one round, and in total from then on.
   */
  lemma {:induction false} WhichVersion<C>(moves: seq<Move<C>>, i: nat, t: seq<C>)
    requires FirstAt(moves, i, t)
    ensures Placed(Played(Rows({}, {}, {}, {}), moves), t, Rounds(moves[i..]))
  {
    hide Played, DerivedBy, Split, Rounds, Placed, After;
    var none: Rows<C> := Rows({}, {}, {}, {});
    var n := |moves| - 1;
    var before, last := moves[..n], moves[n];
    OneMorePlayed(none, moves, n);
    assert moves[..n + 1] == moves;
    PlayedDerives(none, before);
    PlayedSplits(before);
    if i == n {
      assert before == moves[..i] && moves[i..] == [last];
      OneRound(last);
      PlacedFirst(Played(none, before), t);
    } else {
      assert before[..i] == moves[..i] && moves[i..] == before[i..] + [last];
      WhichVersion(before, i, t);
      MoreRounds(before[i..], last);
      InDerivedBy(before, i);
      PlacedAfter(Played(none, before), t, Rounds(before[i..]), last);
    }
  }

  lemma InDerivedBy<C>(moves: seq<Move<C>>, i: nat)
    requires i < |moves| && moves[i].Derived?
    ensures moves[i].t in DerivedBy(moves)
  {
  }

  lemma OneRound<C>(move: Move<C>)
    ensures Rounds([move]) == if move.RoundEnds? then 1 else 0
  {
    assert [move][..0] == [];
  }

  lemma MoreRounds<C>(moves: seq<Move<C>>, move: Move<C>)
    ensures Rounds(moves + [move]) == Rounds(moves) + if move.RoundEnds? then 1 else 0
  {
    assert (moves + [move])[..|moves|] == moves;
  }

  method Step<C(==, !new)>(r: Relation<C>, ghost rows: Rows<C>, move: Move<C>)
    returns (r': Relation<C>, ghost after: Rows<C>)
    requires r.Valid(rows) && (move.Derived? ==> Typed(r.cols, move.t))
    modifies Footprint(r.pool, r.Maps())
    ensures r'.Valid(after) && r'.pool == r.pool && r'.cols == r.cols
    ensures after == After(rows, move)
    ensures fresh(Footprint(r'.pool, r'.Maps()) - old(Footprint(r.pool, r.Maps())))
  {
    hide Relation.Valid, Relation.Maps, Typed, Footprint;
    if move.Derived? {
      var added;
      r', after, added := r.Derive(move.t, rows);
    } else {
      r', after := r.EndRound(rows);
    }
  }

  /**
   Over every run, whatever rules derive and whenever rounds end: each version holds exactly the rows the
   moves put there, each once; no row is in two versions; together they are the derived rows, and the count
   is their number.
   */
  method RunRounds<C(==, !new)>(start: Relation<C>, ghost rows: Rows<C>, moves: seq<Move<C>>)
    returns (r: Relation<C>, ghost after: Rows<C>)
    requires start.Valid(rows)
    requires forall i :: 0 <= i < |moves| && moves[i].Derived? ==> Typed(start.cols, moves[i].t)
    modifies Footprint(start.pool, start.Maps())
    ensures r.Valid(after) && r.pool == start.pool && r.cols == start.cols
    ensures after == Played(rows, moves)
    ensures after.derived == rows.derived + DerivedBy(moves) && r.count == |after.derived|
    ensures fresh(Footprint(r.pool, r.Maps()) - old(Footprint(start.pool, start.Maps())))
  {
    hide *;
    r, after := start, rows;
    NothingPlayed(rows);
    assert moves[..0] == [];
    for i := 0 to |moves|
      invariant r.Valid(after) && r.pool == start.pool && r.cols == start.cols
      invariant fresh(Footprint(r.pool, r.Maps()) - old(Footprint(start.pool, start.Maps())))
      invariant after == Played(rows, moves[..i])
    {
      OneMorePlayed(rows, moves, i);
      r, after := Step(r, after, moves[i]);
    }
    assert moves[..|moves|] == moves;
    PlayedDerives(rows, moves);
    r.Parts(after);
    CountOf(after, r.count);
  }

  lemma NothingPlayed<C>(rows: Rows<C>)
    ensures Played(rows, []) == rows
  {
  }

  lemma OneMorePlayed<C>(rows: Rows<C>, moves: seq<Move<C>>, i: nat)
    requires i < |moves|
    ensures Played(rows, moves[..i + 1]) == After(Played(rows, moves[..i]), moves[i])
  {
    assert moves[..i + 1][..i] == moves[..i];
  }

  lemma NoMoves<C>()
    ensures DerivedBy<C>([]) == {}
  {
  }

  lemma OneMoreMove<C>(moves: seq<Move<C>>, i: nat)
    requires i < |moves|
    ensures DerivedBy(moves[..i + 1]) == DerivedBy(moves[..i]) + (if moves[i].Derived? then {moves[i].t} else {})
  {
  }

  lemma CountOf<C>(rows: Rows<C>, count: nat)
    requires Split(rows.newer, rows.delta, rows.total, rows.derived, count)
    ensures count == |rows.derived|
  {
  }

  /** Two rounds without a new row: all derived rows are in the total version. */
  method Settle<C(==, !new)>(start: Relation<C>, ghost rows: Rows<C>) returns (r: Relation<C>, ghost after: Rows<C>)
    requires start.Valid(rows)
    modifies Footprint(start.pool, start.Maps())
    ensures r.Valid(after) && after == Rows({}, {}, rows.derived, rows.derived)
  {
    hide Relation.Valid, Split, HeldBy, Together, Relation.Schema, Relation.Maps, Footprint;
    start.Parts(rows);
    AllParts(rows, start.count);
    r, after := Step(start, rows, RoundEnds);
    r, after := Step(r, after, RoundEnds);
  }

  lemma AllParts<C>(rows: Rows<C>, count: nat)
    requires Split(rows.newer, rows.delta, rows.total, rows.derived, count)
    ensures rows.total + rows.delta + rows.newer == rows.derived
  {
  }
}
