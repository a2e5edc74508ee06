# Verified model of the CTADL index stores

A Dafny model of the three parts of the repository that everything else rests on, with proofs that
their fast, stateful or lossy implementations mean what a simple definition says.

**Access paths** (`PathAlgebra`, `AccessPaths`, `Substitution`, `JoinKeys`). A path is a sequence of
fields, dereferences, offsets and `#value`. The equations on paths are stated on their own, as
rewriting of arbitrary sequences, and the normal form is proved to decide them. Concatenation by
rewriting the junction, prefix matching, prefix substitution and the join keys are then characterized
exactly, for all normal paths. Offsets are 64-bit and wrap.

**Interner** (`IdArithmetic`, `GeometricMemory`, `BumpArena`, `Interner`, `InternProtocol`,
`PathHandles`). Once as a class, down to buckets and arena chunks; and once as a protocol whose steps
any number of threads interleave over all shards. Path handles are cons cells in that protocol, so
that handle equality and the content order follow for every reachable state.

**LSM multi-map and Datalog store** (`Keys` to `LsmScripts`, `Tuples` to `SemiNaive`, `Codecs` to
`DiskMerge`). A write buffer of chunks, index and prefix chains; immutable runs with Bloom filters;
levels that cascade by k-way merge; maps that absorb each other; a memory budget all maps share. A map
is proved to be a multiset of (key, value) pairs over every history, and each write to change its buffer
and its runs in exactly one way (`LsmShapes`, `ShapesDetermined`). A relation is one set of tuples
with its prefix indices as range reads and other indices as maps of their own, in three versions that
semi-naive evaluation moves rows between. The disk format is modelled byte by byte.

Conventions. Keys are sequences of 64-bit words under lexicographic order; prefix lengths are counted
in words. A hash is any fixed function, a hash table is a finite map. A run of the mapped map is a
record of arrays and filters, a disk file is a byte sequence. The heap a buffer holds is any function
of its entries that is zero for none. The values of a tuple set have no words, so a set is a map to
the empty blob. A method that takes a `ghost` argument, such as the rows a map stands for, promises its
result for every such argument.

`dafny verify dfyconfig.toml` checks the whole project.

## Model

| member | source | states |
|---|---|---|
| `PathAlgebra.Normalize` | ctadl-ir/src/cir/path.rs:72-78 | the normal form of any segment sequence; idempotent |
| `PathAlgebra.WrapsAround` | ctadl-ir/src/cir/path.rs:46-50 | the wrapping sum, difference and negation are congruent to the plain ones modulo 2^64, and the sum is the plain one where that fits |
| `PathAlgebra.OnlySum` | ctadl-ir/src/cir/path.rs:46-50 | no other 64-bit number is congruent to the sum |
| `PathAlgebra.NormalFormDecides` | ctadl-index/src/facts.rs:183-191 | two paths are equal under the equations (two offsets are the one 64-bit offset congruent to their sum, a zero offset vanishes, `#value` absorbs itself and adjacent offsets) if and only if their normal forms are the same: normalization is sound and complete |
| `PathAlgebra.ConcatNormalizes` | ctadl-ir/src/cir/path.rs:114-122 | concatenating onto a normal prefix is normalizing the whole sequence, whether or not the parts were normalized first |
| `PathAlgebra.ConcatMonoid` | ctadl-index/src/facts.rs:370-372 | concatenation of normal paths is normal, associative and has the empty path as identity, despite cancellation and absorption |
| `AccessPaths.PrependOnto` | ctadl-index/src/facts.rs:1919-1966 | rewriting only the junction gives the normal form of the whole concatenation, for all normal paths |
| `AccessPaths.MatchPrefixSplit` | ctadl-index/src/facts.rs:1985-2027 | the loop over both paths computes the case analysis that the characterizations below are about |
| `AccessPaths.MatchPrefix` | ctadl-index/src/facts.rs:1974-1983 | a suffix it returns is normal and solves `path = prefix · suffix`; when it returns none every solution cancels the trailing offset of the prefix to zero; otherwise the suffix is the only other solution, but for one elastic segment in front after a prefix that ends in `#value` |
| `AccessPaths.MatchSolutions` | ctadl-index/src/facts.rs:1968-2027 | all solutions of `path = prefix · t`, both directions: exactly the suffix of the match, the elastic variants after `#value`, and the cancelling ones |
| `AccessPaths.CancellingExcludesMatch` | ctadl-index/src/facts.rs:2222-2229 | where a cancelling solution exists the matcher returns none |
| `AccessPaths.StripPrefixComplete` | ctadl-ir/src/cir/path.rs:124-156 | the semantic prefix strip solves the equation whenever it has a solution, and returns a shortest one |
| `AccessPaths.MatchRestrictsStrip` | ctadl-ir/src/cir/path.rs:134-156 | the matcher agrees with the semantic strip wherever it matches, and refuses only cancelling suffixes |
| `Substitution.SubstitutePrefix` | ctadl-index/src/facts.rs:374-380 | the result is normal and replaces the prefix in front of one and the same suffix |
| `Substitution.SubstitutePrefixWithNonemptySuffix` | ctadl-index/src/facts.rs:382-391 | as substitution, but none for the path that is the prefix itself |
| `Substitution.SubstituteRoundTrip` | ctadl-index/src/facts.rs:2495-2512 | substituting back is the identity if and only if the new junction loses nothing (no offset sum of zero, no `#value` that swallows an offset or a `#value`) |
| `Substitution.SubstituteComposes` | ctadl-index/src/facts.rs:374-391 | two substitutions along a chain of assignments are one, if and only if the middle junction loses nothing or both later prefixes end in `#value` |
| `Substitution.RoundTripCounterexample` | ctadl-index/src/facts.rs:374-380 | a path that does not come back: an offset sum of zero |
| `JoinKeys.PrefixKeys` | ctadl-index/src/facts.rs:420-434 | every split of the path into a key and the rest, in order |
| `JoinKeys.PrefixKeysWild` | ctadl-index/src/facts.rs:440-458 | the splits before an offset or `#value`, in order |
| `JoinKeys.DerivationUnique` | ctadl-index/src/facts.rs:460-483 | at most one join key derives a given prefix |
| `JoinKeys.JoinsAgreeWithMatch` | ctadl-index/src/facts.rs:420-483 | the matcher returns a suffix if and only if an exact key, or a wild key whose rest is rebased by the trailing offset of the prefix, derives it; the derivation is unique |
| `IdArithmetic.SplitBijection` | immortal/src/id.rs:228-233 | `split` and its inverse: slot numbers correspond one to one to (bucket, index) pairs with the index below the bucket size |
| `IdArithmetic.SplitCovers` | immortal/src/id.rs:228-233 | which numbers the first `k` buckets hold, exactly |
| `IdArithmetic.BucketsAndChunksSuffice` | immortal/src/id.rs:40-47 | every 32-bit number lies within BUCKETS buckets and CHUNKS chunks, and the last one needs the last of each |
| `IdArithmetic.EncodeDecode` | immortal/src/id.rs:430-441 | `decode` gives a shard and a slot if and only if the id is their encoding, for every shard count |
| `IdArithmetic.IdsFit` | immortal/src/id.rs:390-426 | under the limit of `with_id_bits` every id is below 2^bits and has local bits |
| `IdArithmetic.LimitIsLargest` | immortal/src/id.rs:395-399 | the limit of `with_id_bits` is the largest that fits: a slot of any shard is below it if and only if its id is below 2^bits |
| `IdArithmetic.NoLocalBitsRejected` | immortal/src/id.rs:430-441 | a raw id without local bits decodes to a slot number no shard length admits |
| `BumpArena.Bump.StoreSlice` | immortal/src/id.rs:258-296 | a span is stored if and only if some place has room: the cursor or the start of a later chunk, below 2^32 and inside one chunk; it goes to the first such place, disjoint from all earlier spans, which keep their contents; the cursor moves right behind it; a failed store loses nothing and leaves no room; the skipping loop ends |
| `BumpArena.Bump.LoadSlice` | immortal/src/id.rs:298-314 | a span loads the contents it was stored with |
| `Interner.Shard.Find` | immortal/src/id.rs:465-476 | the id of the slot that holds the value, or none if no slot does |
| `Interner.Shard.Intern` | immortal/src/id.rs:478-534 | one shard: appends the value only if no slot has it; it panics if and only if the value is new and the shard is at its limit, or below it and its arena has no room; the id is the slot encoded; the arena grows by the value if it is new, and not otherwise |
| `Interner.IdInterner.constructor` | immortal/src/id.rs:395-426 | an interner of the given layout without a value, every arena empty |
| `Interner.IdInterner.Intern` | immortal/src/id.rs:478-534 | a value keeps its id for good, a new value gets an id no other value has, and every id is within the bits and has the number of its home shard in the low ones; it panics if and only if the value is new and the next id of that shard would not fit in the bits, or its arena has no room for the value; no other arena changes |
| `Interner.IdInterner.HomeShard` | immortal/src/id.rs:478-481 | the shard of a value is the high half of its hash modulo the number of shards, and an id of that shard has this number in its low bits |
| `Interner.IdInterner.TryGet` | immortal/src/id.rs:536-540 | the id of the value if it has one; nothing changes |
| `Interner.IdInterner.Get` | immortal/src/id.rs:456-463 | the value an issued id names |
| `Interner.IdInterner.FromRaw` | immortal/src/id.rs:542-549 | accepts exactly the issued ids |
| `Interner.Layout.NamesInjective` | immortal/src/id.rs:428-441 | two values never share an id |
| `InternProtocol.StepKeepsInv` | immortal/src/id.rs:478-534 | every enabled step of any thread keeps the invariant: table and slots are inverse but for a pending slot, lengths trail the slots by the progress of the writer, no slot is ever rewritten |
| `InternProtocol.RunIsSafe` | immortal/src/id.rs:445-549 | in every interleaving: every held id names a written slot with an unchanging value and stays accepted, and over the whole run two answers agree on the value if and only if they agree on the id |
| `InternProtocol.LookUpExact` | immortal/src/id.rs:465-476 | a look-up answers an id if and only if that slot, in the shard the hash picks, holds the value and is not one its writer has yet to enter; under the write lock it always answers |
| `InternProtocol.PublishedIsFound` | immortal/src/id.rs:465-540 | over every interleaving, once an id is published for a value every later look-up of the value, by `intern` or `try_get` on any thread, answers that id |
| `InternProtocol.AnswersStay` | immortal/src/id.rs:465-540 | over every interleaving, an id answered once for a value answers every later look-up of the value |
| `InternProtocol.InternAnswers` | immortal/src/id.rs:478-534 | over every interleaving, an `intern` that ends without a panic has answered an id for its value, which its thread holds |
| `InternProtocol.InternCompletes` | immortal/src/id.rs:478-534 | a thread whose shard is free, and has the value or room for it, can run `intern` to its end without any other, and holds an answer |
| `InternProtocol.TryGetCompletes` | immortal/src/id.rs:536-540 | with no writer in the shard of the value, `try_get` can run to its end, and answers an id if and only if that slot holds the value |
| `InternProtocol.NoDeadlock` | immortal/src/id.rs:465-534 | in every reachable state with a call under way, some call can take its next step |
| `InternProtocol.FromRawExact` | immortal/src/id.rs:542-549 | in every reachable state an idle thread may call `from_raw`, which accepts a raw id if and only if it encodes a published slot |
| `PathHandles.HandlesCanonical` | ctadl-index/src/facts.rs:216-242 | in every run each handle denotes one path, now and in every later state, and two handles, however far apart in the run, are equal if and only if their paths are |
| `PathHandles.ConsDenotes` | ctadl-index/src/facts.rs:233-242 | the id the interner answers for a cell denotes the head in front of the path of the tail |
| `PathHandles.ConsCompletes` | ctadl-index/src/facts.rs:233-242 | a thread that holds the handle of a tail can `cons` a segment in front whenever that shard is free and has room, and ends with a handle of the longer path |
| `PathHandles.HandlesDecideEqual` | ctadl-index/src/facts.rs:261-275 | end to end: the handles of two segment sequences, each normalized and consed up at any point of any run, are equal if and only if the sequences are equal under the equations on paths |
| `PathHandles.BitsInjective` | ctadl-index/src/facts.rs:212-231 | handle bits are equal if and only if the handles are, and the bits of the empty path belong to no issued id |
| `PathHandles.PathsTotal` | ctadl-index/src/facts.rs:314-331 | the lexicographic order on segments is total |
| `PathHandles.ContentCmp` | ctadl-index/src/facts.rs:314-331 | the walk through the arena, which stops at a shared suffix, answers less if and only if the first path is a proper prefix, or at the first difference its segment is of an earlier kind (field, offset, dereference, `#value`), a numerically smaller offset, or a field with a smaller first differing character or a proper prefix; greater is the converse, and equal is equal |
| `Keys.CmpPrefix` | lsm/src/mmap.rs:1094-1105 | less or greater if and only if at the first word where both differ the word is the smaller or the greater number; equal if and only if they agree on the words both have |
| `Keys.BelowIsLexicographic` | lsm/src/mmap.rs:590-600 | the order of keys that every sort and merge uses: the first words agree, and then one key ends before the other or has the smaller number |
| `Bloom.InsertInPlace` | lsm/src/bloom.rs:45-51 | sets the bits of the key in its block and no other |
| `Bloom.BlockIsShare` | lsm/src/bloom.rs:33-36 | the block is the share of all blocks that the high half of the hash is of 2^32 |
| `Bloom.MaskIs` | lsm/src/bloom.rs:38-42 | in each word of the block the key has exactly one bit, numbered by the top five bits of the low half times the multiplier of the word |
| `Bloom.InsertIsFound` | lsm/src/bloom.rs:45-60 | no false negatives: a key added before or now may be contained |
| `Merge.MergeKeys` | lsm/src/mmap.rs:1060-1087 | visits each distinct key exactly once, in strictly ascending order, with precisely the positions that hold it |
| `Merge.VisitsMerge` | lsm/src/mmap.rs:1060-1087 | the visits, with the values at their positions, are sorted entries that hold key by key what the sources hold in source order |
| `Merge.MergeKeepsBag` | lsm/src/mmap.rs:1037-1058 | such entries have the same multiset of pairs as the sources together |
| `Runs.Find` | lsm/src/mmap.rs:195-209 | the values of the key if the run has it, none otherwise, whatever the filter says |
| `Runs.HasKey` | lsm/src/mmap.rs:182-185 | filter and binary search answer whether the run has the key |
| `Runs.MayHavePrefix` | lsm/src/mmap.rs:187-193 | a run is skipped if and only if its first filter for that length excludes the hash; then it has no key with the prefix |
| `Runs.PrefixRange` | lsm/src/mmap.rs:851-858 | two partition points bound exactly the keys that start with the prefix |
| `RunWriting.RunWriter.StartKey` | lsm/src/mmap.rs:307-327 | begins an entry and adds its key and prefixes to the filters |
| `RunWriting.RunWriter.AppendValues` | lsm/src/mmap.rs:329-340 | extends the last entry and no other |
| `RunWriting.RunWriter.Finish` | lsm/src/mmap.rs:342-350 | seals a valid run of the written entries: sorted keys, prefix-sum offsets, and filters of the planned size with exactly the bits of the keys and of their prefixes of each length |
| `Compaction.WriteRun` | lsm/src/mmap.rs:981-989 | sorted entries become a valid run of exactly these entries, with exactly their bits in the filters for the given prefix lengths; the overflow and underflow assertions of the writer cannot fail |
| `Compaction.MergeTotal` | lsm/src/mmap.rs:1037-1058 | the merged entries have exactly as many values as the runs |
| `Compaction.MergeCount` | lsm/src/mmap.rs:1037-1058 | they have at most as many keys, so the layout has room |
| `Compaction.MergeRuns` | lsm/src/mmap.rs:1037-1058 | the merged run is valid and holds, key by key, the values of the runs in run order, within the sizes it was laid out for, with exactly their bits in the filters for the given prefix lengths |
| `Memtables.Memtable.Insert` | lsm/src/mmap.rs:524-566 | appends the value to the entry of its key, or a new entry after all others: exactly one more pair; chunks, index and the chains of every prefix length stay, exact, for the same lengths |
| `Memtables.Memtable.Get` | lsm/src/mmap.rs:568-570 | the values of the key, if it has an entry |
| `Memtables.Memtable.SortedEntries` | lsm/src/mmap.rs:590-600 | the same entries, by ascending key |
| `Memtables.LinkInOk` | lsm/src/mmap.rs:548-565 | linking a new key in front of the chain of its prefix keeps every chain exact: it lists exactly the positions whose keys start with its prefix, latest first, and links strictly decrease |
| `Levels.PushSpills` | lsm/src/mmap.rs:1019-1035 | a level over its fanout leaves fewer runs in all when it is taken out, which is why the cascade ends |
| `MemoryPools.MemoryPool.Account` | lsm/src/mmap.rs:750-763 | moves one share; the counter stays the sum of the shares, and the peak is the most it has been |
| `MemoryPools.MemoryPool.StaysBounded` | lsm/src/mmap.rs:765-772 | a map under 64 KiB, or a total under the budget, keeps the large maps together within the budget |
| `MemoryPools.MemoryPool.TotalBounded` | lsm/src/mmap.rs:49-57 | the total is at most the budget and 64 KiB for each live map |
| `LsmMaps.LsmMap.constructor` | lsm/src/mmap.rs:660-676 | an empty map with the footprint, chunk size and prefix lengths it was given, and its limit and fanout, or one where they are zero |
| `LsmMaps.LsmMap.Insert` | lsm/src/mmap.rs:738-748 | adds exactly one pair, to the buffer, and keeps the budget invariant; the buffer is written out if and only if it has reached the limit, or is worth a run and has more bytes than the other maps leave of the budget |
| `ShapesDetermined.InsertDetermined` | lsm/src/mmap.rs:738-772 | the step of an insert has one result, buffer and runs, through every flush and merge it sets off |
| `LsmMaps.LsmMap.CountMemory` | lsm/src/mmap.rs:750-763 | the share becomes what the buffer holds |
| `LsmMaps.LsmMap.KeepToBudget` | lsm/src/mmap.rs:765-772 | the pairs stay the same; the buffer is written out if and only if it is worth a run and has more bytes than the other maps leave; afterwards the map is small or the total is within the budget |
| `LsmMaps.LsmMap.Flush` | lsm/src/mmap.rs:974-990 | the pairs stay the same; a buffer with values becomes one run of its entries, pushed on the first level, and its share is given back |
| `LsmMaps.LsmMap.PushDiskRun` | lsm/src/mmap.rs:1019-1035 | adds the pairs of the run, keeps every level within the fanout, and ends (the number of runs decreases); a level with room takes the run last, and one without becomes, with the run last, one merged run pushed on the next |
| `ShapesDetermined.PushedOnce` | lsm/src/mmap.rs:1019-1058 | a push has one result through the whole cascade: a run is determined by its entries, and a merge by the runs and their order |
| `LsmMaps.LsmMap.Absorb` | lsm/src/mmap.rs:941-972 | moves all pairs, leaves the other map empty and usable, keeps levels and budget; a buffer of at least a quarter of the limit is written out first, any other enters value by value, then the runs join their levels in order, and then the budget is kept to |
| `ShapesDetermined.AbsorbDetermined` | lsm/src/mmap.rs:941-972 | these steps leave no choice: two results of absorbing the same map have the same buffer and the same runs, filters included |
| `LsmMaps.LsmMap.Clear` | lsm/src/mmap.rs:930-939 | empties the map and gives its share back |
| `LsmMaps.LsmMap.Drop` | lsm/src/mmap.rs:638-642 | the share leaves the counter |
| `LsmMaps.LsmMap.GetRefs` | lsm/src/mmap.rs:782-802 | none if and only if no pair has the key, else its values, each as often as it is paired, the buffer first and then run by run |
| `LsmMaps.LsmMap.ContainsKey` | lsm/src/mmap.rs:804-814 | whether some pair has the key |
| `LsmMaps.LsmMap.ContainsValue` | lsm/src/mmap.rs:816-834 | whether the pair is there |
| `LsmMaps.LsmMap.IterAllRefs` | lsm/src/mmap.rs:914-928 | every key once, ascending, with all its values, the buffer first and then run by run: the same multiset of pairs |
| `LsmMaps.LsmMap.Keys` | lsm/src/mmap.rs:836-846 | every key occurrence, of the buffer and then of each run |
| `LsmMaps.LsmMap.KeysWithPrefix` | lsm/src/mmap.rs:848-889 | exactly the keys that start with the prefix, once for each source; the buffer by its chain if and only if the map reads by prefixes of that length, else by a scan; runs by filter and search |
| `KeyIterators.KeysIter.Next` | lsm/src/mmap.rs:1160-1177 | yields what is left one by one |
| `PrefixGrouping.GroupsOf` | lsm/src/mmap.rs:891-912 | the iterator starts with every key occurrence of the map, and follows chains if and only if the map reads by prefixes of that length |
| `PrefixGrouping.PrefixGroups.Next` | lsm/src/mmap.rs:1193-1231 | each step takes one group out of what is left, nothing lost or repeated: all keys of the buffer with one prefix (or one key, without chains), or all keys of one run with one prefix; it ends when nothing is left |
| `PrefixGrouping.PrefixesPartition` | lsm/src/mmap.rs:895-903 | the chains of distinct prefixes partition the keys of the buffer |
| `LsmScripts.RunScript` | lsm/src/mmap.rs:738-990 | over every sequence of insert, flush, absorb and clear on any number of maps: each map is the plain multiset the history describes, its length is the size of it, and no level has more runs than the fanout it was made with; the total in use is within the budget and 64 KiB for each map, and is the sum of the footprints of the buffers where no other map is live |
| `Tuples.EncodeRoundTrip` | lsm/src/ascent_provider.rs:286-312 | a stored tuple reads back as itself and fills exactly its width |
| `Tuples.PrefixReads` | lsm/src/ascent_provider.rs:670-686 | the tuples with given first columns are exactly the blobs that start with the words of these columns, and the remaining words are the remaining columns |
| `Tuples.PrefixMask` | lsm/src/ascent_provider.rs:711-732 | a length is in the mask if and only if it is below 32 and some index is on that many first columns |
| `Tuples.PrefixLengths` | lsm/src/ascent_provider.rs:697-708 | the word lengths of exactly the masked prefixes between one column and all but one, from the shortest on |
| `Representation.RowPairInjective` | lsm/src/ascent_provider.rs:570-585 | no two rows share a pair in a store or an index |
| `Representation.RepresentsUnique` | lsm/src/ascent_provider.rs:688-695 | the pairs of a map determine the rows it stands for |
| `Stores.KeysAreRows` | lsm/src/ascent_provider.rs:747-752 | the key occurrences over all sources are the rows, each once |
| `Stores.LsmStore.Len` | lsm/src/ascent_provider.rs:735-738 | the number of rows |
| `Stores.LsmStore.Contains` | lsm/src/ascent_provider.rs:744-746 | whether the row is there; also the read of the full index |
| `Stores.LsmStore.InsertIfNotPresent` | lsm/src/ascent_provider.rs:754-762 | adds the row unless it is there, and says which |
| `Stores.LsmStore.MoveIn` | lsm/src/ascent_provider.rs:765-772 | taking another store over without a membership check leaves a set of rows, each once, if and only if the two shared no row; then it is their union, and the other store is empty |
| `Stores.LsmStore.Iter` | lsm/src/ascent_provider.rs:747-752 | lists every row exactly once |
| `Stores.LsmStore.ScanGet` | lsm/src/ascent_provider.rs:1050-1062 | none if there are no rows, else every row once |
| `Stores.LsmStore.PrefixGet` | lsm/src/ascent_provider.rs:975-991 | none if no row has the given first columns, else the remaining columns of exactly these rows, each once |
| `Stores.LsmStore.PrefixAll` | lsm/src/ascent_provider.rs:1002-1048 | every row exactly once, in non-empty groups under its own first columns |
| `Indices.LsmIndex.IndexInsert` | lsm/src/ascent_provider.rs:631-639 | one more row, also a repeated one |
| `Indices.LsmIndex.IndexGet` | lsm/src/ascent_provider.rs:595-605 | none if no row has the key columns, else the remaining columns of exactly these rows, each once |
| `SemiNaive.NewRelation` | lsm/src/ascent_provider.rs:697-708 | a new relation: three empty versions in a valid state, whose stores read by exactly the given prefix lengths and whose indices read by none, and whose maps have the given limit, fanout, chunk size and footprint |
| `SemiNaive.Relation.Derive` | lsm/src/ascent_provider.rs:754-772 | a row enters the new version only if no version has it; then its indices and the count follow |
| `SemiNaive.Relation.EndRound` | lsm/src/ascent_provider.rs:765-772 | the rows of delta join total, those of new become delta, new is empty; nothing is lost |
| `SemiNaive.Relation.Readable` | lsm/src/ascent_provider.rs:935-1082 | in every valid state each version can be read as its rows, through its store and through every index |
| `SemiNaive.RunRounds` | ctadl-index/benches/locals_trie.rs:161-192 | over every run of derivations and round ends: each version holds exactly the rows the moves put there, each once; the versions are pairwise disjoint, their union is exactly the derived rows, and the count is their number |
| `SemiNaive.WhichVersion` | ctadl-index/benches/locals_trie.rs:161-192 | in a run from nothing a row is in new until the round of its first derivation ends, in delta for the next round, and in total from then on |
| `SemiNaive.Settle` | ctadl-index/benches/locals_trie.rs:192-195 | two round ends without a new row leave every derived row in total |
| `Codecs.IntegersLawful` | lsm/src/disk.rs:24-43 | the little-endian codecs of all signed and unsigned widths read their own output back and take no byte more |
| `Codecs.ToLeDigit` | lsm/src/disk.rs:24-43 | byte `i` of a number is its digit `i` in base 256, the lowest first |
| `Codecs.SignedIsResidue` | lsm/src/disk.rs:24-43 | a signed number is written as its residue modulo 256^k |
| `Codecs.TuplesLawful` | lsm/src/disk.rs:45-132 | tuples of lawful codecs are lawful |
| `DiskRuns.MagicSpells` | lsm/src/disk.rs:10 | the magic is the four characters `LSM1` |
| `DiskRuns.DiskRunWriter.Push` | lsm/src/disk.rs:201-213 | appends one entry and notes its offset |
| `DiskRuns.DiskRunWriter.Finish` | lsm/src/disk.rs:215-253 | the file is header, entries, offset index and footer, with the count patched in |
| `DiskRuns.EntryAtOffset` | lsm/src/disk.rs:201-213 | each entry lies at the offset the index has for it, up to the offset of the next |
| `DiskReads.LoadRun` | lsm/src/disk.rs:578-600 | loads any file that has the magic and room for a footer, and no other |
| `DiskReads.WrittenLoads` | lsm/src/disk.rs:578-600 | a written run loads as the run its writer returned |
| `DiskReads.RunScanner.NextEntry` | lsm/src/disk.rs:275-288 | the entries of a written run one by one, and then the end |
| `DiskReads.ReadRunAll` | lsm/src/disk.rs:637-644 | a written run scans back to its entries |
| `DiskReads.FindEntry` | lsm/src/disk.rs:602-623 | the search ends right after the key if and only if the run has it |
| `DiskReads.ReadRunValues` | lsm/src/disk.rs:625-635 | exactly the values of the key |
| `DiskMerge.WeightKept` | lsm/src/disk.rs:659-681 | at every step the bytes written and the bytes left to read together do not grow, because a key several runs have is written once |
| `DiskMerge.MergeDiskRuns` | lsm/src/disk.rs:646-689 | the streaming merge writes sorted entries that hold key by key what the runs hold in run order: the same multiset of pairs; it has as many values as the runs and no more bytes besides headers and footers, and while its sizes are 64-bit numbers it can be read, searched and merged again |

## Left out

- Files and the operating system: creating, mapping, unlinking and reopening files, temporary directories and I/O errors; the runs of the mapped map are arrays, not bytes.
- Unsafe reinterpretation, alignment, padding and endianness of columns; a column is assumed to write its values injectively into a fixed number of words, and to read them back.
- Hash functions, hash-table internals and the false-positive rate of the filters.
- Weak-memory ordering in the interner; the protocol's steps are atomic, in the order the code writes and publishes.
- Several threads on one LSM map or on the shared memory counter; a history is a sequence of completed operations, and the budget is fixed.
- LsmMaps.LsmMap.constructor: asks for a memtable limit of at most `u32::MAX`, because past it an insert into a full buffer panics; the cap of four prefix lengths is not modelled.
- LsmScripts.RunScript: says of the runs only that they hold the pairs within the fanout; which runs there are follows step by step from the contract of each operation.
- LsmMaps.LsmMap.IterAllRefs: collects what the source's lazy iterator yields; the same holds for the reads of stores and indices.
- Interner.IdInterner.Intern: sequential, so the second look-up under the write lock is part of the protocol only.
- Tuples.PrefixMask: the mask is a set of bit numbers, not a 32-bit word.
- SemiNaive.Relation.Derive: the rules themselves and the index engine that calls them are Ascent's and are not part of this model; any sequence of derivations and round ends is.
- DiskRuns.DiskRunWriter.Finish: offsets and counts are written modulo 2^64; the read lemmas ask for files and value counts below that.
- DiskMerge.MergeDiskRuns: asks for readable runs with a value for every key, as the writer and the merge make them; a run that cannot be read ends the source's merge with an error.
- Disk keys are word sequences, with any lawful codec; the disk map's own buffer, levels and draining repeat what the mapped map does.
- `SeedVec`, `AllIter`, `LsmIndex::iter_all`, memory statistics, path classification, SSA, serialization, the command line and the front ends.
