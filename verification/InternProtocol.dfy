/**
 The interner under threads: `intern`, `try_get` and `from_raw` as atomic steps that any number
 of threads interleave over all shards.

 A thread searches the table under the read lock, releases it, takes the write lock and searches
 again; if the value is still missing it writes the slot, inserts the table entry, counts the
 value and publishes the new length, in that order, before it releases the lock. `from_raw`
 reads the published length without a lock. An id is the place of a slot; its bits are `Encode`
 of that place.
 */
module InternProtocol {
  import opened Wrappers
  import opened IdArithmetic

  type Tid = nat

  datatype Id = Id(shard: nat, local: nat)

  datatype Purpose = ForIntern | ForTryGet

  /** Where a thread stands in a call. */
  datatype Pc<V> =
    | Idle
    | Reading(v: V, purpose: Purpose)
    | Missed(v: V)
    | InWrite(v: V)

  datatype Thread<V> = Thread(pc: Pc<V>, held: set<Id>)

  /** How far the holder of a write lock has come. */
  datatype Phase = Locked | SlotWritten | Inserted | Counted | Published

  datatype Writer<V> = Writer(t: Tid, v: V, phase: Phase)

  /** One shard: its lock, its table, its slots, and the length with its published copy. */
  datatype Shard<V> = Shard(
    writer: Option<Writer<V>>,
    readers: set<Tid>,
    table: map<V, nat>,
    slots: seq<V>,
    len: nat,
    published: nat)

  /** The shards, the threads, and two histories: slots in write order, and answers given. */
  datatype State<V> = State(
    shards: seq<Shard<V>>,
    threads: map<Tid, Thread<V>>,
    order: seq<Id>,
    answers: set<(V, Id)>)

  /** The shard count, the limit, the hash that picks a shard, and what a caller may intern. */
  datatype Config<!V> = Config(log2S: nat, limit: nat, hash: V -> nat, may: (set<Id>, V) -> bool) {
    predicate Valid() {
      log2S <= MAX_LOG2_SHARDS && limit < TWO_TO_THE_32
    }

    function ShardOf(v: V): (k: nat)
      ensures k < Pow2(log2S)
    {
      hash(v) % Pow2(log2S)
    }
  }

  /** What the holder of a write lock does next. */
  datatype Op = FindAgain | Panic | WriteSlot | InsertEntry | Count | Publish | Return

  datatype Step<V> =
    | Call(t: Tid, value: V, purpose: Purpose)
    | Find(t: Tid)
    | LockForWrite(t: Tid)
    | Write(t: Tid, op: Op)
    | FromRaw(t: Tid, raw: nat)
    | Pass(t: Tid, to: Tid, id: Id)

  ghost predicate Init<V>(c: Config<V>, s: State<V>) {
    && s.shards == seq(Pow2(c.log2S), _ => Shard(None, {}, map[], [], 0, 0))
    && s.order == [] && s.answers == {}
    && forall t :: t in s.threads ==> s.threads[t] == Thread(Idle, {})
  }

  // ------------------------------------------------------------------------
  // Steps
  // ------------------------------------------------------------------------

  /** The shard a step works on: its value's, or the one its number names. */
  function At<V>(c: Config<V>, s: State<V>, step: Step<V>): nat
    requires step.t in s.threads
  {
    match step
    case Call(_, v, _) => c.ShardOf(v)
    case FromRaw(_, raw) => Decode(raw, c.log2S).0
    case Pass(_, _, _) => 0
    case Find(t) => PcShard(c, s.threads[t].pc)
    case LockForWrite(t) => PcShard(c, s.threads[t].pc)
    case Write(t, _) => PcShard(c, s.threads[t].pc)
  }

  function PcShard<V>(c: Config<V>, pc: Pc<V>): nat {
    if pc.Idle? then 0 else c.ShardOf(pc.v)
  }

  /** Whether the lock's holder, as far as it has come, may do `op`. */
  predicate OpEnabled<V>(c: Config<V>, op: Op, shard: Shard<V>, w: Writer<V>) {
    match op
    case FindAgain => w.phase.Locked? && w.v in shard.table
    case Panic => w.phase.Locked? && w.v !in shard.table
    case WriteSlot => w.phase.Locked? && w.v !in shard.table && shard.len < c.limit
    case InsertEntry => w.phase.SlotWritten?
    case Count => w.phase.Inserted?
    case Publish => w.phase.Counted?
    case Return => w.phase.Published? && w.v in shard.table
  }

  ghost predicate Enabled<V>(c: Config<V>, s: State<V>, step: Step<V>) {
    step.t in s.threads && At(c, s, step) < |s.shards| &&
    var thread := s.threads[step.t];
    var shard := s.shards[At(c, s, step)];
    match step
    case Call(_, v, _) => thread.pc.Idle? && c.may(thread.held, v) && shard.writer.None?
    case Find(_) => thread.pc.Reading?
    case LockForWrite(_) => thread.pc.Missed? && shard.writer.None? && shard.readers == {}
    case Write(t, op) =>
      && thread.pc.InWrite?
      && shard.writer.Some? && shard.writer.value.t == t && shard.writer.value.v == thread.pc.v
      && OpEnabled(c, op, shard, shard.writer.value)
    case FromRaw(_, _) => thread.pc.Idle?
    case Pass(_, to, id) => id in thread.held && to in s.threads
  }

  /** A plain write of slot `l`, which must be the next one or one written before. */
  function PutAt<V>(slots: seq<V>, l: nat, v: V): seq<V> {
    if l < |slots| then slots[l := v] else slots + [v]
  }

  function OpAfter<V>(op: Op, shard: Shard<V>, w: Writer<V>): Shard<V> {
    match op
    case FindAgain => shard.(writer := None)
    case Panic => shard.(writer := None)
    case WriteSlot =>
      shard.(slots := PutAt(shard.slots, shard.len, w.v), writer := Some(w.(phase := SlotWritten)))
    case InsertEntry => shard.(table := shard.table[w.v := shard.len], writer := Some(w.(phase := Inserted)))
    case Count => shard.(len := shard.len + 1, writer := Some(w.(phase := Counted)))
    case Publish => shard.(published := shard.len, writer := Some(w.(phase := Published)))
    case Return => shard.(writer := None)
  }

  /** What the step makes of its shard. */
  ghost function ShardAfter<V>(c: Config<V>, s: State<V>, step: Step<V>): Shard<V>
    requires Enabled(c, s, step)
  {
    var shard := s.shards[At(c, s, step)];
    match step
    case Call(t, _, _) => shard.(readers := shard.readers + {t})
    case Find(t) => shard.(readers := shard.readers - {t})
    case LockForWrite(t) => shard.(writer := Some(Writer(t, s.threads[t].pc.v, Locked)))
    case Write(_, op) => OpAfter(op, shard, shard.writer.value)
    case FromRaw(_, _) => shard
    case Pass(_, _, _) => shard
  }

  function LookUp<V>(k: nat, shard: Shard<V>, v: V): Option<Id> {
    if v in shard.table then Some(Id(k, shard.table[v])) else None
  }

  /** The id the step hands to its thread, if any. */
  ghost function Given<V>(c: Config<V>, s: State<V>, step: Step<V>): Option<Id>
    requires Enabled(c, s, step)
  {
    var k := At(c, s, step);
    var shard := s.shards[k];
    match step
    case Call(_, _, _) => None
    case Find(t) => LookUp(k, shard, s.threads[t].pc.v)
    case LockForWrite(_) => None
    case Write(t, op) => if op.FindAgain? || op.Return? then LookUp(k, shard, s.threads[t].pc.v) else None
    case FromRaw(_, raw) =>
      var l := Decode(raw, c.log2S).1;
      if l < shard.published then Some(Id(k, l)) else None
    case Pass(_, _, _) => None
  }

  ghost function PcAfter<V>(c: Config<V>, s: State<V>, step: Step<V>): Pc<V>
    requires Enabled(c, s, step)
  {
    var pc := s.threads[step.t].pc;
    match step
    case Call(_, v, purpose) => Reading(v, purpose)
    case Find(_) => if Given(c, s, step).None? && pc.purpose.ForIntern? then Missed(pc.v) else Idle
    case LockForWrite(_) => InWrite(pc.v)
    case Write(_, op) => if op.FindAgain? || op.Return? || op.Panic? then Idle else pc
    case FromRaw(_, _) => pc
    case Pass(_, _, _) => pc
  }

  /** The state after an enabled step. */
  ghost function Next<V>(c: Config<V>, s: State<V>, step: Step<V>): State<V>
    requires Enabled(c, s, step)
  {
    var k := At(c, s, step);
    var given := Given(c, s, step);
    var thread := s.threads[step.t];
    var held := if given.Some? then thread.held + {given.value} else thread.held;
    var threads := s.threads[step.t := Thread(PcAfter(c, s, step), held)];
    State(
      s.shards[k := ShardAfter(c, s, step)],
      if step.Pass? then threads[step.to := threads[step.to].(held := threads[step.to].held + {step.id})] else threads,
      if step.Write? && step.op.WriteSlot? then s.order + [Id(k, s.shards[k].len)] else s.order,
      if given.Some? && !step.FromRaw? then s.answers + {(thread.pc.v, given.value)} else s.answers)
  }

  // ------------------------------------------------------------------------
  // The invariant
  // ------------------------------------------------------------------------

  /** A slot a writer has written and not yet entered in the table. */
  predicate Pending<V>(shard: Shard<V>, l: nat) {
    shard.writer.Some? && shard.writer.value.phase.SlotWritten? && l == shard.len
  }

  /**
   One shard by itself: the table and the slots are inverse to each other, but for a pending slot;
   the lengths trail the slots by as much as the writer's progress says.
   */
  ghost predicate ShardInv<V>(c: Config<V>, k: nat, shard: Shard<V>) {
    && (forall v :: v in shard.table ==> shard.table[v] < |shard.slots| && shard.slots[shard.table[v]] == v)
    && (forall l :: 0 <= l < |shard.slots| ==>
          && c.ShardOf(shard.slots[l]) == k
          && (if Pending(shard, l)
              then shard.slots[l] !in shard.table && shard.slots[l] == shard.writer.value.v
              else shard.slots[l] in shard.table && shard.table[shard.slots[l]] == l))
    && shard.len <= |shard.slots| <= c.limit
    && shard.len == shard.published + (if shard.writer.Some? && shard.writer.value.phase.Counted? then 1 else 0)
    && (shard.writer.None? ==> |shard.slots| == shard.len)
    && (shard.writer.Some? ==>
          var w := shard.writer.value;
          && c.ShardOf(w.v) == k && shard.readers == {}
          && |shard.slots| == shard.len + (if w.phase.SlotWritten? || w.phase.Inserted? then 1 else 0)
          && (w.phase.Inserted? || w.phase.Counted? || w.phase.Published? ==> w.v in shard.table))
  }

  /** A thread past the lock is the shard's writer, and one that searches is among its readers. */
  ghost predicate ThreadInv<V>(c: Config<V>, s: State<V>, t: Tid)
    requires t in s.threads && |s.shards| == Pow2(c.log2S)
  {
    var pc := s.threads[t].pc;
    && (pc.Reading? ==> t in s.shards[c.ShardOf(pc.v)].readers)
    && (pc.InWrite? ==>
          var w := s.shards[c.ShardOf(pc.v)].writer;
          w.Some? && w.value.t == t && w.value.v == pc.v)
  }

  /** The id names a written slot. */
  predicate Named<V>(s: State<V>, id: Id) {
    id.shard < |s.shards| && id.local < |s.shards[id.shard].slots|
  }

  function ValueOf<V>(s: State<V>, id: Id): V
    requires Named(s, id)
  {
    s.shards[id.shard].slots[id.local]
  }

  /** The id is below its shard's published length, so `from_raw` accepts it. */
  predicate Accepted<V>(s: State<V>, id: Id) {
    id.shard < |s.shards| && id.local < s.shards[id.shard].published
  }

  ghost predicate IdsInv<V>(s: State<V>) {
    && (forall t, id :: t in s.threads && id in s.threads[t].held ==> Named(s, id) && Accepted(s, id))
    && (forall a :: a in s.answers ==> Named(s, a.1) && ValueOf(s, a.1) == a.0 && Accepted(s, a.1))
  }

  ghost predicate Inv<V>(c: Config<V>, s: State<V>) {
    && |s.shards| == Pow2(c.log2S)
    && (forall k :: 0 <= k < |s.shards| ==> ShardInv(c, k, s.shards[k]))
    && (forall t :: t in s.threads ==> ThreadInv(c, s, t))
    && IdsInv(s)
  }

  lemma InitInv<V>(c: Config<V>, s: State<V>)
    requires Init(c, s)
    ensures Inv(c, s)
  {
    hide Pow2;
  }

  lemma OpKeepsShard<V>(c: Config<V>, k: nat, shard: Shard<V>, op: Op)
    requires ShardInv(c, k, shard) && shard.writer.Some? && OpEnabled(c, op, shard, shard.writer.value)
    ensures ShardInv(c, k, OpAfter(op, shard, shard.writer.value))
    ensures shard.slots <= OpAfter(op, shard, shard.writer.value).slots
    ensures shard.published <= OpAfter(op, shard, shard.writer.value).published
  {
    hide Config.ShardOf;
    var w := shard.writer.value;
    var after := OpAfter(op, shard, w);
    if op.WriteSlot? {
      assert after.slots == shard.slots + [w.v];
    } else if op.InsertEntry? {
      assert Pending(shard, shard.len) && shard.slots[shard.len] == w.v;
    }
  }

  /** A step keeps its shard's invariant and only ever appends to its slots. */
  lemma StepKeepsShard<V>(c: Config<V>, s: State<V>, step: Step<V>)
    requires Inv(c, s) && Enabled(c, s, step)
    ensures ShardInv(c, At(c, s, step), ShardAfter(c, s, step))
    ensures s.shards[At(c, s, step)].slots <= ShardAfter(c, s, step).slots
    ensures s.shards[At(c, s, step)].published <= ShardAfter(c, s, step).published
  {
    hide IdsInv, ThreadInv, OpEnabled, OpAfter, Pow2, Decode, Config.ShardOf;
    var k := At(c, s, step);
    assert ShardInv(c, k, s.shards[k]);
    if step.Write? {
      OpKeepsShard(c, k, s.shards[k], step.op);
    }
  }

  /** A step takes no lock away from another thread. */
  lemma OthersUndisturbed<V>(c: Config<V>, s: State<V>, step: Step<V>, u: Tid)
    requires Inv(c, s) && Enabled(c, s, step) && u != step.t
    ensures var before, after := s.shards[At(c, s, step)], ShardAfter(c, s, step);
      && (u in before.readers ==> u in after.readers)
      && (before.writer.Some? && before.writer.value.t == u ==>
            after.writer.Some? && after.writer.value.t == u && after.writer.value.v == before.writer.value.v)
  {
  }

  /** The thread that steps holds the lock its new program counter calls for. */
  lemma ActorPlaced<V>(c: Config<V>, s: State<V>, step: Step<V>)
    requires Inv(c, s) && Enabled(c, s, step)
    ensures ThreadInv(c, Next(c, s, step), step.t)
  {
    hide IdsInv, Pow2, Decode, Config.ShardOf, OpEnabled, PutAt, Given, ShardInv;
    assert ThreadInv(c, s, step.t);
  }

  lemma StepKeepsThreads<V>(c: Config<V>, s: State<V>, step: Step<V>)
    requires Inv(c, s) && Enabled(c, s, step)
    ensures var s' := Next(c, s, step);
      forall t :: t in s'.threads ==> ThreadInv(c, s', t)
  {
    hide IdsInv, Pow2, Decode, Config.ShardOf, OpEnabled, PutAt, Given, ShardInv, ShardAfter, PcAfter;
    var s' := Next(c, s, step);
    ActorPlaced(c, s, step);
    forall t | t in s'.threads && t != step.t
      ensures ThreadInv(c, s', t)
    {
      assert ThreadInv(c, s, t);
      OthersUndisturbed(c, s, step, t);
    }
  }

  /** Slots are never overwritten: each shard's old slots are a prefix of its new ones. */
  ghost predicate Extends<V>(s: State<V>, s': State<V>) {
    && |s.shards| == |s'.shards|
    && forall k :: 0 <= k < |s.shards| ==>
         s.shards[k].slots <= s'.shards[k].slots && s.shards[k].published <= s'.shards[k].published
  }

  /** Whatever a step hands out names a written slot, of the value asked for. */
  lemma GivenIsNamed<V>(c: Config<V>, s: State<V>, step: Step<V>)
    requires Inv(c, s) && Enabled(c, s, step) && Given(c, s, step).Some?
    ensures Named(s, Given(c, s, step).value) && Accepted(s, Given(c, s, step).value)
    ensures !step.FromRaw? ==> ValueOf(s, Given(c, s, step).value) == s.threads[step.t].pc.v
  {
    hide Pow2, Decode, Config.ShardOf, IdsInv;
    assert ShardInv(c, At(c, s, step), s.shards[At(c, s, step)]);
    assert ThreadInv(c, s, step.t);
  }

  lemma ExtendsKeepsNames<V>(s: State<V>, s': State<V>, id: Id)
    requires Extends(s, s') && Named(s, id)
    ensures Named(s', id) && ValueOf(s', id) == ValueOf(s, id)
    ensures Accepted(s, id) ==> Accepted(s', id)
  {
    assert s.shards[id.shard].slots <= s'.shards[id.shard].slots;
  }

  lemma StepKeepsIds<V>(c: Config<V>, s: State<V>, step: Step<V>)
    requires Inv(c, s) && Enabled(c, s, step)
    ensures IdsInv(Next(c, s, step)) && Extends(s, Next(c, s, step))
  {
    hide Pow2, Decode, Config.ShardOf, ThreadInv, ShardInv, ShardAfter, Given, PcAfter, Named, ValueOf, Accepted;
    var s' := Next(c, s, step);
    StepKeepsShard(c, s, step);
    assert Extends(s, s');
    if Given(c, s, step).Some? {
      GivenIsNamed(c, s, step);
    }
    forall t, id | t in s'.threads && id in s'.threads[t].held
      ensures Named(s', id) && Accepted(s', id)
    {
      ExtendsKeepsNames(s, s', id);
    }
    forall a | a in s'.answers
      ensures Named(s', a.1) && ValueOf(s', a.1) == a.0 && Accepted(s', a.1)
    {
      ExtendsKeepsNames(s, s', a.1);
    }
  }

  /** Every step keeps the invariant. */
  lemma StepKeepsInv<V>(c: Config<V>, s: State<V>, step: Step<V>)
    requires Inv(c, s) && Enabled(c, s, step)
    ensures Inv(c, Next(c, s, step)) && Extends(s, Next(c, s, step))
  {
    hide ShardInv, ThreadInv, IdsInv, Pow2, Decode, Config.ShardOf, ShardAfter, Given, PcAfter, Extends;
    StepKeepsShard(c, s, step);
    StepKeepsThreads(c, s, step);
    StepKeepsIds(c, s, step);
  }

  // ------------------------------------------------------------------------
  // Whole runs
  // ------------------------------------------------------------------------

  /** A run of the interner: any interleaving of the threads' steps. */
  ghost predicate IsRun<V>(c: Config<V>, run: seq<State<V>>, steps: seq<Step<V>>) {
    && |run| == |steps| + 1
    && Init(c, run[0])
    && forall i :: 0 <= i < |steps| ==> Enabled(c, run[i], steps[i]) && run[i + 1] == Next(c, run[i], steps[i])
  }

  lemma {:induction false} RunKeepsInv<V>(c: Config<V>, run: seq<State<V>>, steps: seq<Step<V>>, i: nat)
    requires IsRun(c, run, steps) && i < |run|
    ensures Inv(c, run[i])
  {
    hide Inv, Enabled, Next, Init;
    if i == 0 {
      InitInv(c, run[0]);
    } else {
      RunKeepsInv(c, run, steps, i - 1);
      assert Enabled(c, run[i - 1], steps[i - 1]) && run[i - 1 + 1] == Next(c, run[i - 1], steps[i - 1]);
      StepKeepsInv(c, run[i - 1], steps[i - 1]);
    }
  }

  lemma {:induction false} RunExtends<V>(c: Config<V>, run: seq<State<V>>, steps: seq<Step<V>>, i: nat, j: nat)
    requires IsRun(c, run, steps) && i <= j < |run|
    ensures Extends(run[i], run[j])
    decreases j
  {
    hide Inv, Enabled, Next, Init;
    if i < j {
      RunExtends(c, run, steps, i, j - 1);
      RunKeepsInv(c, run, steps, j - 1);
      assert Enabled(c, run[j - 1], steps[j - 1]) && run[j - 1 + 1] == Next(c, run[j - 1], steps[j - 1]);
      StepKeepsInv(c, run[j - 1], steps[j - 1]);
      forall k | 0 <= k < |run[i].shards|
        ensures run[i].shards[k].slots <= run[j].shards[k].slots
        ensures run[i].shards[k].published <= run[j].shards[k].published
      {
        assert run[i].shards[k].slots <= run[j - 1].shards[k].slots;
        assert run[j - 1].shards[k].slots <= run[j].shards[k].slots;
      }
    }
  }

  /** Within one state, a value has at most one slot. */
  lemma OneSlotPerValue<V>(c: Config<V>, s: State<V>, a: Id, b: Id)
    requires Inv(c, s) && Named(s, a) && Named(s, b) && ValueOf(s, a) == ValueOf(s, b)
    ensures a == b
  {
  }

  /**
   Over every run: an id any thread holds names a written slot, whose value is the same in every
   later state, and `from_raw` accepts it from then on; and `intern` and `try_get` never answer one
   value with two ids, nor two values with one, whenever and to whomever they answer.
   */
  lemma RunIsSafe<V>(c: Config<V>, run: seq<State<V>>, steps: seq<Step<V>>, i: nat, j: nat)
    requires IsRun(c, run, steps) && i <= j < |run|
    ensures forall t, id :: t in run[i].threads && id in run[i].threads[t].held ==>
      && Named(run[i], id) && Named(run[j], id) && ValueOf(run[j], id) == ValueOf(run[i], id)
      && Accepted(run[j], id)
    ensures forall a, b :: a in run[i].answers && b in run[j].answers ==> (a.0 == b.0 <==> a.1 == b.1)
  {
    hide Inv, IsRun, Named, ValueOf, Extends, Accepted;
    RunKeepsInv(c, run, steps, i);
    RunKeepsInv(c, run, steps, j);
    RunExtends(c, run, steps, i, j);
    InvNames(c, run[i]);
    InvNames(c, run[j]);
    forall t, id | t in run[i].threads && id in run[i].threads[t].held
      ensures Named(run[i], id) && Named(run[j], id) && ValueOf(run[j], id) == ValueOf(run[i], id)
      ensures Accepted(run[j], id)
    {
      ExtendsKeepsNames(run[i], run[j], id);
    }
    forall a, b | a in run[i].answers && b in run[j].answers
      ensures a.0 == b.0 <==> a.1 == b.1
    {
      ExtendsKeepsNames(run[i], run[j], a.1);
      if a.0 == b.0 {
        OneSlotPerValue(c, run[j], a.1, b.1);
      }
    }
  }

  // ------------------------------------------------------------------------
  // Every answer that is due
  // ------------------------------------------------------------------------

  /** The step looks its thread's value up: under the read lock, or under the write lock before and after. */
  predicate LooksUp<V>(step: Step<V>) {
    step.Find? || (step.Write? && (step.op.FindAgain? || step.op.Return?))
  }

  /** The slot is in its value's own shard, holds the value, and is not one a writer has yet to enter. */
  ghost predicate HoldsValue<V>(c: Config<V>, s: State<V>, v: V, id: Id) {
    && id.shard == c.hash(v) % Pow2(c.log2S) && id.shard < |s.shards|
    && var shard := s.shards[id.shard];
       && id.local < |shard.slots| && shard.slots[id.local] == v
       && !(shard.writer.Some? && shard.writer.value.phase.SlotWritten? && id.local == shard.len)
  }

  /**
   A look-up answers an id exactly if that slot holds the value; under the write lock, where the writer
   has found the value or entered it, there is always an answer.
   */
  lemma LookUpExact<V>(c: Config<V>, s: State<V>, step: Step<V>, id: Id)
    requires Inv(c, s) && Enabled(c, s, step) && LooksUp(step)
    ensures Given(c, s, step) == Some(id) <==> HoldsValue(c, s, s.threads[step.t].pc.v, id)
    ensures step.Write? ==> Given(c, s, step).Some?
  {
    hide Pow2, Decode, ThreadInv, IdsInv;
    var k := At(c, s, step);
    assert ShardInv(c, k, s.shards[k]);
  }

  /** A published slot of a value answers every look-up of the value. */
  lemma PublishedAnswers<V>(c: Config<V>, s: State<V>, step: Step<V>, id: Id)
    requires Inv(c, s) && Enabled(c, s, step) && LooksUp(step)
    requires Accepted(s, id) && Named(s, id) && ValueOf(s, id) == s.threads[step.t].pc.v
    ensures Given(c, s, step) == Some(id)
  {
    hide Pow2, Decode, ThreadInv, IdsInv, Given, Enabled;
    assert ShardInv(c, id.shard, s.shards[id.shard]);
    LookUpExact(c, s, step, id);
  }

  lemma GivenIsAnswered<V>(c: Config<V>, s: State<V>, step: Step<V>)
    requires Enabled(c, s, step) && LooksUp(step) && Given(c, s, step).Some?
    ensures var s', id := Next(c, s, step), Given(c, s, step).value;
      (s.threads[step.t].pc.v, id) in s'.answers && step.t in s'.threads && id in s'.threads[step.t].held
  {
    hide Given, ShardAfter, PcAfter;
  }

  /**
   Over every run: once an id is published for a value, every later look-up of the value, by `intern` or by
   `try_get` and on any thread, answers that id.
   */
  lemma PublishedIsFound<V>(c: Config<V>, run: seq<State<V>>, steps: seq<Step<V>>, i: nat, j: nat, id: Id)
    requires IsRun(c, run, steps) && i <= j < |steps| && LooksUp(steps[j])
    requires steps[j].t in run[j].threads && !run[j].threads[steps[j].t].pc.Idle?
    requires Named(run[i], id) && Accepted(run[i], id) && ValueOf(run[i], id) == run[j].threads[steps[j].t].pc.v
    ensures (run[j].threads[steps[j].t].pc.v, id) in run[j + 1].answers
    ensures steps[j].t in run[j + 1].threads && id in run[j + 1].threads[steps[j].t].held
  {
    hide Inv, Enabled, Next, Init, Given, Extends, LooksUp;
    RunKeepsInv(c, run, steps, j);
    RunExtends(c, run, steps, i, j);
    ExtendsKeepsNames(run[i], run[j], id);
    assert Enabled(c, run[j], steps[j]) && run[j + 1] == Next(c, run[j], steps[j]);
    PublishedAnswers(c, run[j], steps[j], id);
    GivenIsAnswered(c, run[j], steps[j]);
  }

  /** What was answered once is answered again. */
  lemma AnswersStay<V>(c: Config<V>, run: seq<State<V>>, steps: seq<Step<V>>, i: nat, j: nat, v: V, id: Id)
    requires IsRun(c, run, steps) && i <= j < |steps| && (v, id) in run[i].answers && LooksUp(steps[j])
    requires steps[j].t in run[j].threads
    requires !run[j].threads[steps[j].t].pc.Idle? && run[j].threads[steps[j].t].pc.v == v
    ensures (v, id) in run[j + 1].answers && steps[j].t in run[j + 1].threads
    ensures id in run[j + 1].threads[steps[j].t].held
  {
    hide Inv, Next, Enabled, Init, LooksUp;
    RunKeepsInv(c, run, steps, i);
    InvNames(c, run[i]);
    PublishedIsFound(c, run, steps, i, j, id);
  }

  /** Over every run: an `intern` that ends without a panic has answered an id, and its thread holds it. */
  lemma InternAnswers<V>(c: Config<V>, run: seq<State<V>>, steps: seq<Step<V>>, i: nat)
    requires IsRun(c, run, steps) && i < |steps| && steps[i].t in run[i].threads && steps[i].t in run[i + 1].threads
    requires var pc := run[i].threads[steps[i].t].pc;
      !pc.Idle? && !(pc.Reading? && pc.purpose.ForTryGet?) && run[i + 1].threads[steps[i].t].pc.Idle?
    requires steps[i] != Write(steps[i].t, Panic)
    ensures exists id: Id ::
      && (run[i].threads[steps[i].t].pc.v, id) in run[i + 1].answers
      && id in run[i + 1].threads[steps[i].t].held
  {
    hide Inv, Init, Given;
    RunKeepsInv(c, run, steps, i);
    assert Enabled(c, run[i], steps[i]) && run[i + 1] == Next(c, run[i], steps[i]);
    EndsWithLookUp(c, run[i], steps[i]);
    GivenIsAnswered(c, run[i], steps[i]);
  }

  /** The step that ends an `intern` without a panic is a look-up that finds the value. */
  lemma EndsWithLookUp<V>(c: Config<V>, s: State<V>, step: Step<V>)
    requires Inv(c, s) && Enabled(c, s, step) && step != Write(step.t, Panic)
    requires var pc := s.threads[step.t].pc; !pc.Idle? && !(pc.Reading? && pc.purpose.ForTryGet?)
    requires step.t in Next(c, s, step).threads && Next(c, s, step).threads[step.t].pc.Idle?
    ensures LooksUp(step) && Given(c, s, step).Some?
  {
    hide Inv, ShardAfter, Given, OpEnabled;
    if step.Write? && LooksUp(step) {
      LookUpExact(c, s, step, Id(0, 0));
    }
  }

  // ------------------------------------------------------------------------
  // Calls can complete
  // ------------------------------------------------------------------------

  /** Steps of one thread that are enabled one after the other. */
  ghost predicate IsSolo<V>(c: Config<V>, t: Tid, run: seq<State<V>>, steps: seq<Step<V>>) {
    && |run| == |steps| + 1
    && forall i :: 0 <= i < |steps| ==>
         steps[i].t == t && Enabled(c, run[i], steps[i]) && run[i + 1] == Next(c, run[i], steps[i])
  }

  lemma SoloStep<V>(c: Config<V>, t: Tid, run: seq<State<V>>, steps: seq<Step<V>>, step: Step<V>)
    requires IsSolo(c, t, run, steps) && step.t == t && Enabled(c, run[|steps|], step) && Inv(c, run[|steps|])
    ensures IsSolo(c, t, run + [Next(c, run[|steps|], step)], steps + [step])
    ensures Inv(c, Next(c, run[|steps|], step))
  {
    hide Enabled, Next, Inv;
    StepKeepsInv(c, run[|steps|], step);
  }

  /** The thread holds the lock of its value's shard and has come so far; if it has only just locked, it may write. */
  ghost predicate Writing<V>(c: Config<V>, s: State<V>, t: Tid, v: V, phase: Phase) {
    && t in s.threads && s.threads[t].pc == InWrite(v) && c.ShardOf(v) < |s.shards|
    && s.shards[c.ShardOf(v)].writer == Some(Writer(t, v, phase))
    && (phase.Locked? ==> v !in s.shards[c.ShardOf(v)].table && s.shards[c.ShardOf(v)].len < c.limit)
  }

  function OpFor(phase: Phase): Op {
    match phase
    case Locked => WriteSlot
    case SlotWritten => InsertEntry
    case Inserted => Count
    case Counted => Publish
    case Published => Return
  }

  function PhaseAfter(phase: Phase): Phase {
    match phase
    case Locked => SlotWritten
    case SlotWritten => Inserted
    case Inserted => Counted
    case Counted => Published
    case Published => Published
  }

  /** The writer's next operation is enabled; the last one answers. */
  lemma WriterGoesOn<V>(c: Config<V>, s: State<V>, t: Tid, v: V, phase: Phase)
    requires Inv(c, s) && Writing(c, s, t, v, phase)
    ensures Enabled(c, s, Write(t, OpFor(phase)))
    ensures var s' := Next(c, s, Write(t, OpFor(phase)));
      if phase.Published? then Answered(s', t, v) else Writing(c, s', t, v, PhaseAfter(phase))
  {
    hide Pow2, Decode, Config.ShardOf, ThreadInv, IdsInv;
    assert ShardInv(c, c.ShardOf(v), s.shards[c.ShardOf(v)]);
  }

  /** The thread is idle again and holds the id it was answered for the value. */
  ghost predicate Answered<V>(s: State<V>, t: Tid, v: V) {
    && t in s.threads && s.threads[t].pc.Idle?
    && exists id: Id :: (v, id) in s.answers && id in s.threads[t].held
  }

  function Left(phase: Phase): nat {
    match phase
    case Locked => 4
    case SlotWritten => 3
    case Inserted => 2
    case Counted => 1
    case Published => 0
  }

  lemma {:induction false} WriterFinishes<V>(
    c: Config<V>, run: seq<State<V>>, steps: seq<Step<V>>, t: Tid, v: V, phase: Phase)
    returns (run': seq<State<V>>, steps': seq<Step<V>>)
    requires IsSolo(c, t, run, steps) && Inv(c, run[|steps|]) && Writing(c, run[|steps|], t, v, phase)
    ensures IsSolo(c, t, run', steps') && run'[0] == run[0] && Answered(run'[|steps'|], t, v)
    decreases Left(phase)
  {
    hide Inv, Enabled, Next, Writing, Answered, IsSolo;
    assert |run| == |steps| + 1 by {
      SoloLength(c, t, run, steps);
    }
    var s, step := run[|steps|], Write(t, OpFor(phase));
    WriterGoesOn(c, s, t, v, phase);
    SoloStep(c, t, run, steps, step);
    run', steps' := run + [Next(c, s, step)], steps + [step];
    if !phase.Published? {
      run', steps' := WriterFinishes(c, run', steps', t, v, PhaseAfter(phase));
    }
  }

  lemma SoloLength<V>(c: Config<V>, t: Tid, run: seq<State<V>>, steps: seq<Step<V>>)
    requires IsSolo(c, t, run, steps)
    ensures |run| == |steps| + 1
  {
  }

  lemma {:induction false} SoloKeeps<V>(c: Config<V>, t: Tid, run: seq<State<V>>, steps: seq<Step<V>>, i: nat)
    requires IsSolo(c, t, run, steps) && Inv(c, run[0]) && i <= |steps|
    ensures Inv(c, run[i]) && Extends(run[0], run[i])
  {
    hide Inv, Enabled, Next;
    if i > 0 {
      SoloKeeps(c, t, run, steps, i - 1);
      assert Enabled(c, run[i - 1], steps[i - 1]) && run[i - 1 + 1] == Next(c, run[i - 1], steps[i - 1]);
      StepKeepsInv(c, run[i - 1], steps[i - 1]);
      ExtendsTwice(run[0], run[i - 1], run[i]);
    }
  }

  lemma ExtendsTwice<V>(a: State<V>, b: State<V>, c: State<V>)
    requires Extends(a, b) && Extends(b, c)
    ensures Extends(a, c)
  {
    forall k | 0 <= k < |a.shards|
      ensures a.shards[k].slots <= c.shards[k].slots && a.shards[k].published <= c.shards[k].published
    {
      assert a.shards[k].slots <= b.shards[k].slots && b.shards[k].slots <= c.shards[k].slots;
    }
  }

  /** A free shard that has the value, or room for it. */
  ghost predicate Free<V>(c: Config<V>, s: State<V>, v: V) {
    && c.ShardOf(v) < |s.shards|
    && var shard := s.shards[c.ShardOf(v)];
       shard.writer.None? && shard.readers == {} && (v in shard.slots || |shard.slots| < c.limit)
  }

  /** The call and the search: either an answer, or the value is missing and the lock is free. */
  lemma CallAndFind<V>(c: Config<V>, s: State<V>, t: Tid, v: V)
    requires Inv(c, s) && t in s.threads && s.threads[t].pc.Idle? && c.may(s.threads[t].held, v) && Free(c, s, v)
    ensures c.ShardOf(v) < |s.shards| && Enabled(c, s, Call(t, v, ForIntern))
    ensures var s1 := Next(c, s, Call(t, v, ForIntern));
      && Enabled(c, s1, Find(t))
      && var s2 := Next(c, s1, Find(t));
         if v in s.shards[c.ShardOf(v)].slots then Answered(s2, t, v)
         else Enabled(c, s2, LockForWrite(t)) && Writing(c, Next(c, s2, LockForWrite(t)), t, v, Locked)
  {
    hide Pow2, Decode, Config.ShardOf, ThreadInv, IdsInv;
    var shard := s.shards[c.ShardOf(v)];
    assert ShardInv(c, c.ShardOf(v), shard);
    if v in shard.slots {
      var l :| 0 <= l < |shard.slots| && shard.slots[l] == v;
    }
    assert shard.readers + {t} - {t} == {};
  }

  /**
   An idle thread whose value's shard is free, and has the value or room for it, can complete `intern` on its
   own: its steps are enabled one after the other and end with an answer.
   */
  lemma InternCompletes<V>(c: Config<V>, s: State<V>, t: Tid, v: V)
    returns (run: seq<State<V>>, steps: seq<Step<V>>)
    requires Inv(c, s) && t in s.threads && s.threads[t].pc.Idle? && c.may(s.threads[t].held, v) && Free(c, s, v)
    ensures IsSolo(c, t, run, steps) && run[0] == s && Answered(run[|steps|], t, v)
  {
    hide Inv, Enabled, Next, Writing, Answered, Free;
    CallAndFind(c, s, t, v);
    run, steps := [s], [];
    var s1 := Next(c, s, Call(t, v, ForIntern));
    SoloStep(c, t, run, steps, Call(t, v, ForIntern));
    run, steps := run + [s1], steps + [Call(t, v, ForIntern)];
    var s2 := Next(c, s1, Find(t));
    SoloStep(c, t, run, steps, Find(t));
    run, steps := run + [s2], steps + [Find(t)];
    if v !in s.shards[c.ShardOf(v)].slots {
      SoloStep(c, t, run, steps, LockForWrite(t));
      run, steps := run + [Next(c, s2, LockForWrite(t))], steps + [LockForWrite(t)];
      run, steps := WriterFinishes(c, run, steps, t, v, Locked);
    }
  }

  // ------------------------------------------------------------------------
  // No deadlock
  // ------------------------------------------------------------------------

  /** Whoever holds a lock is in the middle of the call that took it. */
  ghost predicate OwnersInv<V>(c: Config<V>, s: State<V>, k: nat)
    requires k < |s.shards|
  {
    var shard := s.shards[k];
    && (shard.writer.Some? ==>
          var w := shard.writer.value;
          w.t in s.threads && s.threads[w.t].pc == InWrite(w.v) && c.ShardOf(w.v) == k)
    && (forall r :: r in shard.readers ==>
          r in s.threads && s.threads[r].pc.Reading? && c.ShardOf(s.threads[r].pc.v) == k)
  }

  lemma StepKeepsOwners<V>(c: Config<V>, s: State<V>, step: Step<V>, k: nat)
    requires Inv(c, s) && Enabled(c, s, step) && k < |s.shards| && OwnersInv(c, s, k)
    ensures k < |Next(c, s, step).shards| && OwnersInv(c, Next(c, s, step), k)
  {
    hide Pow2, Decode, Config.ShardOf, IdsInv, Given, ShardInv, PutAt;
    assert ThreadInv(c, s, step.t);
  }

  lemma {:induction false} RunKeepsOwners<V>(c: Config<V>, run: seq<State<V>>, steps: seq<Step<V>>, i: nat, k: nat)
    requires IsRun(c, run, steps) && i < |run| && k < |run[i].shards|
    ensures OwnersInv(c, run[i], k)
  {
    hide Inv, Enabled, Next, Init, OwnersInv;
    if i == 0 {
      InitOwners(c, run[0], k);
    } else {
      RunKeepsInv(c, run, steps, i - 1);
      assert Enabled(c, run[i - 1], steps[i - 1]) && run[i - 1 + 1] == Next(c, run[i - 1], steps[i - 1]);
      RunExtends(c, run, steps, i - 1, i);
      RunKeepsOwners(c, run, steps, i - 1, k);
      StepKeepsOwners(c, run[i - 1], steps[i - 1], k);
    }
  }

  lemma InitOwners<V>(c: Config<V>, s: State<V>, k: nat)
    requires Init(c, s) && k < |s.shards|
    ensures OwnersInv(c, s, k)
  {
    hide Pow2;
  }

  /** The lock holder can always go on, a search can always end, and a free lock can be taken. */
  lemma SomeoneMoves<V>(c: Config<V>, s: State<V>, t: Tid) returns (step: Step<V>)
    requires Inv(c, s) && t in s.threads && !s.threads[t].pc.Idle?
    requires forall k :: 0 <= k < |s.shards| ==> OwnersInv(c, s, k)
    ensures Enabled(c, s, step) && (step.Find? || step.LockForWrite? || step.Write?)
  {
    hide Pow2, Decode, Config.ShardOf, IdsInv;
    assert ThreadInv(c, s, t);
    var k := c.ShardOf(s.threads[t].pc.v);
    var shard := s.shards[k];
    assert ShardInv(c, k, shard) && OwnersInv(c, s, k);
    if shard.writer.Some? {
      var w := shard.writer.value;
      step := Write(w.t, if !w.phase.Locked? then OpFor(w.phase) else if w.v in shard.table then FindAgain else Panic);
    } else if s.threads[t].pc.Reading? {
      step := Find(t);
    } else if r :| r in shard.readers {
      step := Find(r);
    } else {
      assert shard.readers == {};
      step := LockForWrite(t);
    }
  }

  /** In every reachable state, if any call is under way then some call under way can take its next step. */
  lemma NoDeadlock<V>(c: Config<V>, run: seq<State<V>>, steps: seq<Step<V>>, i: nat, t: Tid) returns (step: Step<V>)
    requires IsRun(c, run, steps) && i < |run| && t in run[i].threads && !run[i].threads[t].pc.Idle?
    ensures Enabled(c, run[i], step) && (step.Find? || step.LockForWrite? || step.Write?)
  {
    hide Inv, Enabled, Next, Init, OwnersInv;
    RunKeepsInv(c, run, steps, i);
    forall k | 0 <= k < |run[i].shards|
      ensures OwnersInv(c, run[i], k)
    {
      RunKeepsOwners(c, run, steps, i, k);
    }
    step := SomeoneMoves(c, run[i], t);
  }

  lemma InvNames<V>(c: Config<V>, s: State<V>)
    requires Inv(c, s)
    ensures IdsInv(s)
  {
    hide ShardInv, ThreadInv, Pow2, IdsInv;
  }

  /** An idle thread may always call `from_raw`; it turns exactly the bits of an accepted id back into it. */
  lemma FromRawExact<V>(c: Config<V>, s: State<V>, t: Tid, raw: nat, id: Id)
    requires c.Valid() && Inv(c, s) && t in s.threads && s.threads[t].pc.Idle?
    ensures Enabled(c, s, FromRaw(t, raw))
    ensures Given(c, s, FromRaw(t, raw)) == Some(id)
      <==> Accepted(s, id) && raw == Encode(id.shard, id.local, c.log2S)
  {
    hide Pow2, Encode, Decode, Config.ShardOf, ThreadInv, IdsInv;
    var (k, l) := Decode(raw, c.log2S);
    DecodeInShards(raw, c.log2S);
    assert ShardInv(c, k, s.shards[k]);
    if Accepted(s, id) {
      assert ShardInv(c, id.shard, s.shards[id.shard]);
      EncodeDecode(raw, id.shard, id.local, c.log2S);
    }
  }

  lemma DecodeInShards(raw: nat, log2S: nat)
    ensures Decode(raw, log2S).0 < Pow2(log2S)
  {
    hide Pow2;
    assert Pow2(log2S) > 0;
  }

  /** An idle thread can complete `try_get` on a shard nobody writes; it is answered exactly if a slot has the value. */
  lemma TryGetCompletes<V>(c: Config<V>, s: State<V>, t: Tid, v: V, id: Id)
    requires Inv(c, s) && t in s.threads && s.threads[t].pc.Idle? && c.may(s.threads[t].held, v)
    requires c.ShardOf(v) < |s.shards| && s.shards[c.ShardOf(v)].writer.None?
    ensures Enabled(c, s, Call(t, v, ForTryGet))
    ensures var s1 := Next(c, s, Call(t, v, ForTryGet));
      && Enabled(c, s1, Find(t))
      && (Given(c, s1, Find(t)) == Some(id) <==> HoldsValue(c, s, v, id))
      && Next(c, s1, Find(t)).threads[t].pc.Idle?
  {
    hide Pow2, Decode, ThreadInv, IdsInv, ShardInv, Config.ShardOf;
    var s1 := Next(c, s, Call(t, v, ForTryGet));
    StepKeepsInv(c, s, Call(t, v, ForTryGet));
    LookUpExact(c, s1, Find(t), id);
  }
}
