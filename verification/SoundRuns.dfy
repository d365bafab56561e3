/** What runs of single stores keep beyond the lock discipline: where compactions begin, and that the table stays sound. */
module SoundRuns {
  import opened Layout
  import opened Index
  import opened Operations
  import opened Refinement
  import opened Compaction
  import opened MapRefinement
  import opened Stores
  import opened Discipline
  import opened Seqlock

  // ------------------------------------------------ compactions begin --

  /** No store left makes the compaction counter odd. */
  predicate OpensNone(todo: seq<Store>) {
    forall i | 0 <= i < |todo| && todo[i].SetArenaSeq? :: !Odd(todo[i].v)
  }

  lemma OpensNoneThen(a: seq<Store>, b: seq<Store>)
    requires OpensNone(a) && OpensNone(b)
    ensures OpensNone(a + b)
  {
  }

  lemma WindowOpensNone(slots: seq<nat>, x: nat, body: seq<Store>)
    requires x < |slots| && OpensNone(body)
    ensures OpensNone(Window(slots, x, body))
  {
  }

  lemma BodiesOpenNone(h: Hash, img: Image, i: nat, found: bool, key: Key, val: Bytes, dirty: bool)
    requires WellSized(img) && i < INDEX_SLOTS
    ensures OpensNone(PutLockedScript(h, img, i, found, key, val, dirty))
    ensures OpensNone(RemoveBody(img, i, dirty))
  {
  }

  lemma {:induction false} WritebackOpensNone(h: Hash, m: Mem, done: seq<Pending>)
    requires MemOk(m)
    ensures OpensNone(WritebackScript(h, m, done))
    decreases |done|
  {
    if |done| > 0 {
      WritebackOpensNone(h, m, done[..|done| - 1]);
    }
  }

  /** What a put does once it has reserved its space. */
  lemma PutTailOpensNone(h: Hash, m: Mem, key: Key, val: Bytes, dirty: bool) returns (tail: seq<Store>)
    requires MemOk(m) && !HoldsValue(h, m.img, key, val)
    ensures PutScript(h, m, key, val, dirty) == EnsureSpaceScript(h, m, |key| + |val|) + tail
    ensures OpensNone(tail)
  {
    var s := EnsureSpace(h, m, |key| + |val|);
    var p := Probe(h, s.mem.img, key);
    if !s.ok || p.None? {
      tail := [];
    } else {
      var body := PutLockedScript(h, s.mem.img, p.value.0, p.value.1, key, val, dirty);
      tail := Window(m.slots, SlotOf(h(key)), body);
      BodiesOpenNone(h, s.mem.img, p.value.0, p.value.1, key, val, dirty);
      WindowOpensNone(m.slots, SlotOf(h(key)), body);
    }
  }

  lemma ScriptOpensNone(h: Hash, m: Mem, op: Op)
    requires MemOk(m) && !op.OpClear?
    requires op.OpPut? ==> !PutCompacts(h, m, op.key, op.val)
    ensures OpensNone(Script(h, m, op))
  {
    match op
    case OpPut(key, val, dirty) =>
      if !HoldsValue(h, m.img, key, val) {
        var tail := PutTailOpensNone(h, m, key, val, dirty);
        assert PutScript(h, m, key, val, dirty) == tail;
      }
    case OpRemove(key, dirty) =>
      var i := LiveBucket(h, m.img, key);
      if i.Some? {
        BodiesOpenNone(h, m.img, i.value, true, key, [], dirty);
        WindowOpensNone(m.slots, SlotOf(h(key)), RemoveBody(m.img, i.value, dirty));
      }
    case OpRepair(x) =>
    case OpWriteback(done) => WritebackOpensNone(h, m, done);
  }

  /** A put that compacts opens one compaction, with its first store. */
  lemma CompactingPutOpensOnce(h: Hash, m: Mem, key: Key, val: Bytes, dirty: bool)
    requires MemOk(m) && PutCompacts(h, m, key, val)
    ensures |PutScript(h, m, key, val, dirty)| > 0 && OpensNone(PutScript(h, m, key, val, dirty)[1..])
  {
    var tail := PutTailOpensNone(h, m, key, val, dirty);
    CompactionMovesNoCounter(h, m);
    ArenaWindowOpensOnce(m.arenaSeq, CompactionBody(h, m.img), tail);
  }

  lemma ArenaWindowOpensOnce(arenaSeq: nat, body: seq<Store>, tail: seq<Store>)
    requires MovesNoArena(body) && OpensNone(tail)
    ensures OpensNone((ArenaWindow(arenaSeq, body) + tail)[1..])
  {
    var close := body + [SetArenaSeq(Bump(arenaSeq))];
    assert (ArenaWindow(arenaSeq, body) + tail)[1..] == close + tail;
    OpensNoneThen(close, tail);
  }

  /** The stores left are all those of a put that is about to compact. */
  ghost predicate PutBegins(h: Hash, s: Sys) {
    MemOk(s.mem) && exists op: Op :: op.OpPut? && PutCompacts(h, s.mem, op.key, op.val) && s.todo == Script(h, s.mem, op)
  }

  ghost predicate Begun(h: Hash, s: Sys) {
    !s.clearing ==> OpensNone(s.todo) || PutBegins(h, s)
  }

  lemma BegunKept(h: Hash, s: Sys, s': Sys, step: Step)
    requires SysInv(s) && Begun(h, s) && Next(h, s, s', step)
    ensures Begun(h, s')
  {
    match step
    case Acquire(p, op) =>
      if !op.OpClear? && !(op.OpPut? && PutCompacts(h, s.mem, op.key, op.val)) {
        ScriptOpensNone(h, s.mem, op);
      }
    case DoStore(p) =>
      if !s.clearing {
        RestOpensNone(h, s);
      }
    case Release(p) =>
    case Begin(p, key) =>
    case Load(p) =>
    case Die(p) =>
  }

  lemma RestOpensNone(h: Hash, s: Sys)
    requires Begun(h, s) && !s.clearing && |s.todo| > 0
    ensures OpensNone(s.todo[1..])
  {
    if PutBegins(h, s) {
      var op: Op :| op.OpPut? && PutCompacts(h, s.mem, op.key, op.val) && s.todo == Script(h, s.mem, op);
      CompactingPutOpensOnce(h, s.mem, op.key, op.val, op.dirty);
    }
  }

  lemma {:induction false} RunKeepsBegun(h: Hash, run: Run, t: nat)
    requires IsRun(h, run) && t < |run.states|
    ensures Begun(h, run.states[t])
  {
    if t > 0 {
      RunKeepsBegun(h, run, t - 1);
      RunKeepsInv(h, run, t - 1);
      assert StepsAt(h, run, t - 1);
      BegunKept(h, run.states[t - 1], run.states[t], run.steps[t - 1]);
    }
  }

  /** The store begins a compaction that is not the wipe of a clear. */
  predicate BeginsCompaction(s: Sys, s': Sys, step: Step) {
    step.DoStore? && !s.clearing && !Odd(s.mem.arenaSeq) && Odd(s'.mem.arenaSeq)
  }

  /** Over every run, deaths included, whatever compaction begins is that of a put, at its first store. */
  lemma CompactionIsPut(h: Hash, run: Run, t: nat) returns (op: Op)
    requires IsRun(h, run) && t < |run.steps| && BeginsCompaction(run.states[t], run.states[t + 1], run.steps[t])
    ensures MemOk(run.states[t].mem) && op.OpPut? && PutCompacts(h, run.states[t].mem, op.key, op.val)
    ensures run.states[t].todo == Script(h, run.states[t].mem, op)
  {
    RunKeepsBegun(h, run, t);
    var s := run.states[t];
    assert StepsAt(h, run, t);
    assert s.todo[0].SetArenaSeq? && Odd(s.todo[0].v);
    op :| op.OpPut? && PutCompacts(h, s.mem, op.key, op.val) && s.todo == Script(h, s.mem, op);
  }

  // -------------------------------------------------- the table is sound --

  lemma {:induction false} WritebackKeepsInv(h: Hash, m: Mem, done: seq<Pending>)
    requires MemOk(m) && Inv(h, m.img)
    ensures Inv(h, Writeback(h, m, done).img)
    decreases |done|
  {
    if |done| > 0 {
      WritebackKeepsInv(h, m, done[..|done| - 1]);
      RetireRefines(h, Writeback(h, m, done[..|done| - 1]), done[|done| - 1]);
    }
  }

  /** Every operation of a lock holder keeps the whole invariant. */
  lemma ResultKeepsInv(h: Hash, m: Mem, op: Op)
    requires MemOk(m) && Inv(h, m.img)
    ensures Inv(h, Result(h, m, op).img)
  {
    match op
    case OpPut(key, val, dirty) => PutRefines(h, m, key, val, dirty);
    case OpRemove(key, dirty) => RemoveRefines(h, m, key, dirty);
    case OpClear => ClearRefines(h, m);
    case OpRepair(x) =>
    case OpWriteback(done) => WritebackKeepsInv(h, m, done);
  }

  /** The table is sound once the holder has made the stores it has left, and before a compaction begins. */
  ghost predicate EndsSound(h: Hash, s: Sys) {
    && Inv(h, ApplyAll(s.mem, s.todo).img)
    && (!s.clearing && !OpensNone(s.todo) ==> Inv(h, s.mem.img))
  }

  /** No holder dies with stores left to make. */
  ghost predicate Uncut(run: Run)
    requires |run.states| == |run.steps| + 1
  {
    forall t | 0 <= t < |run.steps| && run.steps[t].Die? && run.states[t].holder == Some(run.steps[t].p) ::
      run.states[t].todo == []
  }

  lemma EndsSoundKept(h: Hash, s: Sys, s': Sys, step: Step)
    requires SysInv(s) && Begun(h, s) && Next(h, s, s', step) && EndsSound(h, s)
    requires step.Die? && s.holder == Some(step.p) ==> s.todo == []
    ensures EndsSound(h, s')
  {
    if step.Acquire? {
      assert s.todo == [];
      ResultKeepsInv(h, s.mem, step.op);
      ScriptApplies(h, s.mem, step.op);
    } else if step.DoStore? && !s.clearing {
      RestOpensNone(h, s);
    }
  }

  /** In a run from a sound table in which no holder dies with stores left, every operation ends with a sound table. */
  lemma {:induction false} UncutEndsSound(h: Hash, run: Run, t: nat)
    requires IsRun(h, run) && Uncut(run) && Inv(h, run.states[0].mem.img) && t < |run.states|
    ensures EndsSound(h, run.states[t])
  {
    if t > 0 {
      UncutEndsSound(h, run, t - 1);
      RunKeepsInv(h, run, t - 1);
      RunKeepsBegun(h, run, t - 1);
      assert StepsAt(h, run, t - 1);
      EndsSoundKept(h, run.states[t - 1], run.states[t], run.steps[t - 1]);
    }
  }

  /** So every compaction in it finds a sound table. */
  lemma UncutCompactsSound(h: Hash, run: Run, t: nat)
    requires IsRun(h, run) && Uncut(run) && Inv(h, run.states[0].mem.img)
    requires t < |run.steps| && BeginsCompaction(run.states[t], run.states[t + 1], run.steps[t])
    ensures Inv(h, run.states[t].mem.img)
  {
    UncutEndsSound(h, run, t);
    assert StepsAt(h, run, t);
    assert run.states[t].todo[0].SetArenaSeq? && Odd(run.states[t].todo[0].v);
  }
}
