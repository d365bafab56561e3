/**
 * Cached copies over runs of single loads and stores: a copy recorded by a lock-free get is what the segment holds
 * for as long as its counter is the recorded one.
 */
module CacheHits {
  import opened Layout
  import opened Index
  import opened Operations
  import opened Stores
  import opened Discipline
  import opened Seqlock
  import opened LockFreeRead
  import opened MapRefinement
  import opened Compaction
  import opened WriterDeath
  import opened SoundRuns

  // ------------------------------------------- compactions and clears --

  /** Memory once the compaction or wipe under way, if any, is over. */
  function Settle(m: Mem, todo: seq<Store>): Mem
    decreases |todo|
  {
    if !Odd(m.arenaSeq) || |todo| == 0 then m else Settle(Apply(m, todo[0]), todo[1..])
  }

  function Settled(s: Sys): Mem {
    Settle(s.mem, s.todo)
  }

  lemma {:induction false} SettleOk(m: Mem, todo: seq<Store>)
    requires Safe(m, todo)
    ensures MemOk(Settle(m, todo))
    decreases |todo|
  {
    if Odd(m.arenaSeq) && |todo| > 0 {
      SettleOk(Apply(m, todo[0]), todo[1..]);
    }
  }

  /** Once a slot's counter has been moved, the compaction counter is not touched again. */
  predicate InOrder(todo: seq<Store>) {
    forall i, j | 0 <= i < j < |todo| :: todo[i].SetSlot? ==> !todo[j].SetArenaSeq?
  }

  /** Every slot's counter has still to move. */
  ghost predicate AllOwed(m: Mem, todo: seq<Store>) {
    && |m.slots| == SLOTS && |ApplyAll(m, todo).slots| == SLOTS
    && forall x | 0 <= x < SLOTS :: m.slots[x] < ApplyAll(m, todo).slots[x]
  }

  /** A clear has every counter still to move, until it has wiped the table. */
  ghost predicate ClearInv(s: Sys) {
    s.clearing ==> InOrder(s.todo) && (MovesNoArena(s.todo) || AllOwed(s.mem, s.todo))
  }

  lemma {:induction false} BumpsMoveNoArena(slots: seq<nat>, n: nat)
    requires n <= |slots|
    ensures MovesNoArena(BumpSlots(slots, n))
  {
    if n > 0 {
      BumpsMoveNoArena(slots, n - 1);
    }
  }

  lemma OrderedThen(a: seq<Store>, b: seq<Store>)
    requires MovesNoSlot(a) && MovesNoArena(b)
    ensures InOrder(a + b)
  {
  }

  lemma ClearStarts(m: Mem)
    requires MemOk(m)
    ensures InOrder(ClearScript(m)) && AllOwed(m, ClearScript(m))
  {
    WipePlain(INDEX_SLOTS);
    PlainMovesNoCounter(WipeEntries(INDEX_SLOTS));
    BumpsMoveNoArena(m.slots, SLOTS);
    OrderedThen(WipeWindow(m), BumpSlots(m.slots, SLOTS));
    ClearApplies(m);
  }

  lemma ClearInvKept(h: Hash, s: Sys, s': Sys, step: Step)
    requires SysInv(s) && ClearInv(s) && Next(h, s, s', step)
    ensures ClearInv(s')
  {
    if step.Acquire? && step.op.OpClear? {
      ClearStarts(s.mem);
    } else if step.DoStore? && s.clearing {
      ClearStoreKept(s, s');
    }
  }

  lemma ClearStoreKept(s: Sys, s': Sys)
    requires MemOk(s.mem) && s.clearing && ClearInv(s) && |s.todo| > 0
    requires s' == s.(mem := Apply(s.mem, s.todo[0]), todo := s.todo[1..])
    ensures ClearInv(s')
  {
    assert forall i | 0 <= i < |s'.todo| :: s'.todo[i] == s.todo[i + 1];
    if s.todo[0].SetSlot? {
      assert MovesNoArena(s'.todo) by {
        forall j | 0 <= j < |s'.todo|
          ensures !s'.todo[j].SetArenaSeq?
        {
          assert !s.todo[j + 1].SetArenaSeq?;
        }
      }
    }
  }

  lemma {:induction false} RunKeepsClearInv(h: Hash, run: Run, t: nat)
    requires IsRun(h, run) && t < |run.states|
    ensures ClearInv(run.states[t])
  {
    if t > 0 {
      RunKeepsClearInv(h, run, t - 1);
      RunKeepsInv(h, run, t - 1);
      assert StepsAt(h, run, t - 1);
      ClearInvKept(h, run.states[t - 1], run.states[t], run.steps[t - 1]);
    }
  }

  // -------------------------------------------------- what a copy meets --

  /** Step `u` neither cuts a clear short by death, nor begins a compaction that changes what the key reads as. */
  ghost predicate SparesReading(h: Hash, s: Sys, s': Sys, step: Step, key: Key) {
    && (step.Die? && s.holder == Some(step.p) ==> !s.clearing || s.todo == [])
    && (step.DoStore? && !s.clearing && !Odd(s.mem.arenaSeq) && Odd(s'.mem.arenaSeq)
          && WellSized(s.mem.img) && WellSized(Settled(s').img) ==>
          Lookup(h, Settled(s').img, key) == Lookup(h, s.mem.img, key))
  }

  /** Nothing on the way drops the key. */
  ghost predicate NoneDropped(h: Hash, run: Run, key: Key, b: nat, e: nat)
    requires b <= e < |run.states| && |run.states| == |run.steps| + 1
  {
    forall u | b <= u < e :: SparesReading(h, run.states[u], run.states[u + 1], run.steps[u], key)
  }

  /** The key reads as `held` when the compaction or wipe under way is over, unless a clear has its counter to move. */
  ghost predicate Holds(h: Hash, s: Sys, key: Key, held: Option<Bytes>) {
    && MemOk(s.mem) && MemOk(Settled(s))
    && (AtRest(h, s.mem, key) ==> Intact(h, s.mem.img, key))
    && (Lookup(h, Settled(s).img, key) == held || Leaving(h, s, key))
  }

  /** A clear under way has this key's counter still to move. */
  ghost predicate Leaving(h: Hash, s: Sys, key: Key) {
    && |s.mem.slots| == SLOTS && |ApplyAll(s.mem, s.todo).slots| == SLOTS
    && s.clearing && s.mem.slots[SlotOf(h(key))] < ApplyAll(s.mem, s.todo).slots[SlotOf(h(key))]
  }

  /** The key's counter is even and this step leaves it alone. */
  ghost predicate Unmoved(h: Hash, s: Sys, s': Sys, key: Key) {
    && MemOk(s.mem) && MemOk(s'.mem)
    && !Odd(s.mem.slots[SlotOf(h(key))]) && s'.mem.slots[SlotOf(h(key))] == s.mem.slots[SlotOf(h(key))]
  }

  lemma HoldsAcquire(h: Hash, s: Sys, s': Sys, p: Pid, op: Op, key: Key, held: Option<Bytes>)
    requires SysInv(s) && SysInv(s') && Next(h, s, s', Acquire(p, op)) && Holds(h, s, key, held)
    ensures Holds(h, s', key, held)
  {
  }

  lemma HoldsRelease(h: Hash, s: Sys, s': Sys, key: Key, held: Option<Bytes>)
    requires SysInv(s) && SysInv(s') && Holds(h, s, key, held)
    requires s'.mem == s.mem && s'.todo == [] && (s.todo == [] || (!s.clearing && !Odd(s.mem.arenaSeq)))
    ensures Holds(h, s', key, held)
  {
  }

  /** A store made while the compaction counter is odd brings the same end nearer. */
  lemma HoldsInside(h: Hash, s: Sys, s': Sys, p: Pid, key: Key, held: Option<Bytes>)
    requires SysInv(s) && SysInv(s') && Next(h, s, s', DoStore(p)) && Unmoved(h, s, s', key)
    requires Odd(s.mem.arenaSeq) && Holds(h, s, key, held)
    requires !Odd(s'.mem.arenaSeq) ==> Intact(h, s'.mem.img, key)
    ensures Holds(h, s', key, held)
  {
  }

  /** A store made outside a compaction is calm for the key, or begins one. */
  lemma HoldsOutside(h: Hash, s: Sys, s': Sys, p: Pid, key: Key, held: Option<Bytes>)
    requires SysInv(s) && SysInv(s') && Next(h, s, s', DoStore(p)) && Unmoved(h, s, s', key)
    requires !Odd(s.mem.arenaSeq) && Holds(h, s, key, held) && ClearInv(s)
    requires !Disturbs(h, s.mem, s.todo[0], key) && SparesReading(h, s, s', DoStore(p), key)
    ensures Holds(h, s', key, held)
  {
    SettleOk(s'.mem, s'.todo);
    if Odd(s'.mem.arenaSeq) {
      assert s.todo[0].SetArenaSeq?;
    } else {
      assert Disciplined(s.mem, s.todo[0]);
      SafeSound(s.mem, s.todo);
      CalmStore(h, s.mem, s.todo[0], key);
      CalmLookup(h, s.mem.img, s'.mem.img, key);
    }
  }

  /** A step of the system under which what the key holds stays. */
  ghost predicate Spares(h: Hash, s: Sys, s': Sys, step: Step, key: Key) {
    && SysInv(s) && SysInv(s') && ClearInv(s) && Next(h, s, s', step)
    && Unmoved(h, s, s', key) && SparesReading(h, s, s', step, key)
    && (step.DoStore? && |s.todo| > 0 ==> !Disturbs(h, s.mem, s.todo[0], key))
  }

  lemma HoldsStep(h: Hash, s: Sys, s': Sys, step: Step, key: Key, held: Option<Bytes>)
    requires Spares(h, s, s', step, key) && Holds(h, s, key, held)
    ensures Holds(h, s', key, held)
  {
    if step.Acquire? {
      HoldsAcquire(h, s, s', step.p, step.op, key, held);
    } else if step.DoStore? {
      if Odd(s.mem.arenaSeq) {
        StepUndisturbed(h, s, s', step, key);
        HoldsInside(h, s, s', step.p, key, held);
      } else {
        HoldsOutside(h, s, s', step.p, key, held);
      }
    } else if step.Release? || (step.Die? && s.holder == Some(step.p)) {
      HoldsRelease(h, s, s', key, held);
    }
  }

  lemma SlotBetween(h: Hash, run: Run, t: nat, u: nat, w: nat, key: Key)
    requires IsRun(h, run) && t <= u <= w < |run.states|
    requires MemOk(run.states[t].mem) && MemOk(run.states[w].mem)
    requires run.states[t].mem.slots[SlotOf(h(key))] == run.states[w].mem.slots[SlotOf(h(key))]
    ensures MemOk(run.states[u].mem)
    ensures run.states[u].mem.slots[SlotOf(h(key))] == run.states[t].mem.slots[SlotOf(h(key))]
  {
    CountersGrow(h, run, t, u);
    CountersGrow(h, run, u, w);
  }

  ghost predicate SparesAt(h: Hash, run: Run, key: Key, u: nat) {
    u < |run.steps| && u + 1 < |run.states| && Spares(h, run.states[u], run.states[u + 1], run.steps[u], key)
  }

  /** Every step of the span is one of these. */
  ghost predicate SparesAll(h: Hash, run: Run, key: Key, c: nat, t: nat) {
    c <= t < |run.states| && forall u | c <= u < t :: SparesAt(h, run, key, u)
  }

  lemma SparesOne(h: Hash, run: Run, key: Key, c: nat, t: nat, u: nat)
    requires IsRun(h, run) && c <= u < t < |run.states|
    requires NoneReclaimed(h, run, key, c, t) && NoneDropped(h, run, key, c, t)
    requires MemOk(run.states[c].mem) && MemOk(run.states[t].mem)
    requires var x := SlotOf(h(key));
             !Odd(run.states[c].mem.slots[x]) && run.states[t].mem.slots[x] == run.states[c].mem.slots[x]
    ensures SparesAt(h, run, key, u)
  {
    SlotBetween(h, run, c, u, t, key);
    SlotBetween(h, run, c, u + 1, t, key);
    RunKeepsInv(h, run, u);
    RunKeepsInv(h, run, u + 1);
    RunKeepsClearInv(h, run, u);
    assert StepsAt(h, run, u);
    assert SparesReading(h, run.states[u], run.states[u + 1], run.steps[u], key);
  }

  /** While the key's counter stands even, what the key holds stays. */
  lemma {:induction false} HoldsOnwards(h: Hash, run: Run, key: Key, c: nat, t: nat, held: Option<Bytes>)
    requires SparesAll(h, run, key, c, t) && Holds(h, run.states[c], key, held)
    ensures Holds(h, run.states[t], key, held)
    decreases t - c
  {
    if c < t {
      assert SparesAt(h, run, key, c);
      HoldsStep(h, run.states[c], run.states[c + 1], run.steps[c], key, held);
      HoldsOnwards(h, run, key, c + 1, t, held);
    }
  }

  // --------------------------------------------------------------- hits --

  /** What the key holds: what a search finds, once the compaction under way, if any, is over. */
  function HeldNow(h: Hash, s: Sys, key: Key): Option<Bytes>
    requires WellSized(Settled(s).img)
  {
    Lookup(h, Settled(s).img, key)
  }

  /** What a key read as at `c`, with its counter even, is what it holds while the counter stands and nothing drops it. */
  lemma ReadingStands(h: Hash, run: Run, key: Key, c: nat, t: nat)
    requires IsRun(h, run) && c <= t < |run.states|
    requires NoneReclaimed(h, run, key, c, t) && NoneDropped(h, run, key, c, t)
    requires MemOk(run.states[c].mem) && MemOk(run.states[t].mem) && AtRest(h, run.states[c].mem, key)
    requires run.states[t].mem.slots[SlotOf(h(key))] == run.states[c].mem.slots[SlotOf(h(key))]
    requires !run.states[t].clearing
    ensures MemOk(Settled(run.states[t]))
    ensures HeldNow(h, run.states[t], key) == Lookup(h, run.states[c].mem.img, key)
    ensures !Odd(run.states[t].mem.arenaSeq) ==>
              Lookup(h, run.states[t].mem.img, key) == Lookup(h, run.states[c].mem.img, key)
  {
    forall u | c <= u < t
      ensures SparesAt(h, run, key, u)
    {
      SparesOne(h, run, key, c, t, u);
    }
    HoldsOnwards(h, run, key, c, t, Lookup(h, run.states[c].mem.img, key));
  }

  /** A read that is not torn returns what its key read as at one moment between its first and its last load. */
  lemma ReadLandsAt(h: Hash, run: Run, p: Pid, key: Key, b: nat, e: nat) returns (c: nat)
    requires IsRun(h, run) && OneRead(run, p, key, b, e) && NoneReclaimed(h, run, key, b, e)
    requires run.states[e].readers[p].pc.out != Torn
    ensures b < c <= e && MemOk(run.states[c].mem)
    ensures AtRest(h, run.states[c].mem, key) && Intact(h, run.states[c].mem.img, key)
    ensures run.states[e].readers[p].pc.out == AsRead(Lookup(h, run.states[c].mem.img, key))
  {
    ReadIsAtomic(h, run, p, key, b, e);
    c :| c in DataLoads(run, p, b, e);
    assert Sees(h, run, p, key, c, run.states[e].readers[p].pc.out);
  }

  // -------------------------------------------- compactions that spare --

  lemma {:induction false} SettleWindow(m: Mem, body: seq<Store>, end: Store, rest: seq<Store>)
    requires Odd(m.arenaSeq) && MovesNoArena(body) && end.SetArenaSeq? && !Odd(end.v)
    ensures Settle(m, body + [end] + rest) == Apply(ApplyAll(m, body), end)
    decreases |body|
  {
    var todo := body + [end] + rest;
    if |body| == 0 {
      assert todo[0] == end;
    } else {
      assert todo[0] == body[0] && todo[1..] == body[1..] + [end] + rest;
      SettleWindow(Apply(m, body[0]), body[1..], end, rest);
    }
  }

  /** A put that compacts begins by doing so, and the compaction ends with the rebuilt segment. */
  lemma CompactionSettles(h: Hash, m: Mem, key: Key, val: Bytes, dirty: bool)
    requires MemOk(m) && Inv(h, m.img) && PutCompacts(h, m, key, val)
    ensures var todo := PutScript(h, m, key, val, dirty);
            && |todo| > 0 && todo[0] == SetArenaSeq(NextOdd(m.arenaSeq))
            && Settle(Apply(m, todo[0]), todo[1..]).img == Compact(h, m.img)
  {
    var rest := PutCompactsFirst(h, m, key, val, dirty);
    CompactScriptSettles(h, m, rest);
  }

  lemma PutCompactsFirst(h: Hash, m: Mem, key: Key, val: Bytes, dirty: bool) returns (rest: seq<Store>)
    requires MemOk(m) && PutCompacts(h, m, key, val)
    ensures PutScript(h, m, key, val, dirty) == CompactScript(h, m) + rest
  {
    rest := PutScript(h, m, key, val, dirty)[|CompactScript(h, m)|..];
  }

  lemma CompactScriptSettles(h: Hash, m: Mem, rest: seq<Store>)
    requires MemOk(m)
    ensures var todo := CompactScript(h, m) + rest;
            && todo[0] == SetArenaSeq(NextOdd(m.arenaSeq))
            && Settle(Apply(m, todo[0]), todo[1..]).img == Compact(h, m.img)
  {
    CompactBody(h, m);
    CompactionMovesNoCounter(h, m);
    ArenaWindowSettles(m, CompactionBody(h, m.img), rest);
  }

  lemma ArenaWindowSettles(m: Mem, body: seq<Store>, rest: seq<Store>)
    requires MovesNoArena(body)
    ensures var todo := ArenaWindow(m.arenaSeq, body) + rest;
            && todo[0] == SetArenaSeq(NextOdd(m.arenaSeq))
            && Settle(Apply(m, todo[0]), todo[1..]).img == ApplyAll(m.(arenaSeq := NextOdd(m.arenaSeq)), body).img
  {
    var end := SetArenaSeq(Bump(m.arenaSeq));
    assert (ArenaWindow(m.arenaSeq, body) + rest)[1..] == body + [end] + rest;
    SettleWindow(m.(arenaSeq := NextOdd(m.arenaSeq)), body, end, rest);
  }

  lemma CompactBody(h: Hash, m: Mem)
    requires MemOk(m)
    ensures ApplyAll(m.(arenaSeq := NextOdd(m.arenaSeq)), CompactionBody(h, m.img)).img == Compact(h, m.img)
  {
    var m1 := m.(arenaSeq := NextOdd(m.arenaSeq));
    var ks := Keeps(m.img, INDEX_SLOTS);
    WipeApplies(m1);
    ReinsertAllApplies(h, m1.(img := Wiped(m.img)), ks);
    ApplyAllConcat(m1, WipeScript(), ReinsertAllScript(h, Wiped(m.img), ks));
  }

  /** A put's compaction of a sound table spares a key exactly when it re-inserts the key's value, if it had one. */
  lemma CompactionSpares(h: Hash, s: Sys, s': Sys, q: Pid, op: Op, k: Key)
    requires MemOk(s.mem) && Inv(h, s.mem.img) && op.OpPut? && PutCompacts(h, s.mem, op.key, op.val)
    requires s.todo == Script(h, s.mem, op) && Next(h, s, s', DoStore(q)) && BeginsCompaction(s, s', DoStore(q))
    ensures Inv(h, Compact(h, s.mem.img))
    ensures SparesReading(h, s, s', DoStore(q), k) <==>
              (Lookup(h, s.mem.img, k).Some? ==> k in Abs(Compact(h, s.mem.img)))
  {
    CompactionSettles(h, s.mem, op.key, op.val, op.dirty);
    CompactKeepsMeaning(h, s.mem.img);
    LookupIsAbs(h, s.mem.img, k);
    LookupIsAbs(h, Compact(h, s.mem.img), k);
  }

  // ---------------------------------------- compactions that lose nothing --

  /** Compaction re-inserts all this table's entries; with no probe chain wrapped past its end it is certain to. */
  ghost predicate LosesNothing(h: Hash, img: Image) {
    WellSized(img) && (Lossless(h, img) || Unwrapped(img))
  }

  /** Each compaction begun on the way finds a table that loses nothing by it. */
  ghost predicate CompactsLossless(h: Hash, run: Run, b: nat, e: nat)
    requires b <= e < |run.states| && |run.states| == |run.steps| + 1
  {
    forall u | b <= u < e && BeginsCompaction(run.states[u], run.states[u + 1], run.steps[u]) ::
      LosesNothing(h, run.states[u].mem.img)
  }

  /**
   * Each also finds a sound table; and no clear is cut short by death. Whatever else dies on the way, no step changes
   * what a key reads as behind its counter.
   */
  ghost predicate CompactsSoundly(h: Hash, run: Run, b: nat, e: nat)
    requires b <= e < |run.states| && |run.states| == |run.steps| + 1
  {
    && CompactsLossless(h, run, b, e)
    && (forall u | b <= u < e && BeginsCompaction(run.states[u], run.states[u + 1], run.steps[u]) ::
          Inv(h, run.states[u].mem.img))
    && (forall u | b <= u < e && run.steps[u].Die? && run.states[u].holder == Some(run.steps[u].p) ::
          !run.states[u].clearing || run.states[u].todo == [])
  }

  /** With no death in the middle of an operation, a run from a sound table finds every table sound. */
  lemma UncutCompactsSoundly(h: Hash, run: Run, b: nat, e: nat)
    requires IsRun(h, run) && Uncut(run) && Inv(h, run.states[0].mem.img)
    requires b <= e < |run.states| && CompactsLossless(h, run, b, e)
    ensures CompactsSoundly(h, run, b, e)
  {
    forall u | b <= u < e && BeginsCompaction(run.states[u], run.states[u + 1], run.steps[u])
      ensures Inv(h, run.states[u].mem.img)
    {
      UncutCompactsSound(h, run, u);
    }
  }

  lemma StepSpares(h: Hash, run: Run, u: nat, k: Key)
    requires IsRun(h, run) && u < |run.steps|
    requires BeginsCompaction(run.states[u], run.states[u + 1], run.steps[u])
    requires Inv(h, run.states[u].mem.img) && LosesNothing(h, run.states[u].mem.img)
    ensures SparesReading(h, run.states[u], run.states[u + 1], run.steps[u], k)
  {
    var op := CompactionIsPut(h, run, u);
    assert StepsAt(h, run, u);
    var (s, s') := (run.states[u], run.states[u + 1]);
    CompactionSpares(h, s, s', run.steps[u].p, op, k);
    NothingLostBy(h, s.mem.img);
    LookupIsAbs(h, s.mem.img, k);
  }

  lemma NothingLostBy(h: Hash, img: Image)
    requires Inv(h, img) && LosesNothing(h, img)
    ensures Inv(h, Compact(h, img)) && Abs(Compact(h, img)) == Abs(img)
  {
    CompactKeepsMeaning(h, img);
    if Unwrapped(img) {
      UnwrappedIsLossless(h, img);
    }
  }

  /** So nothing on the way drops any key. */
  lemma SoundlyDropsNothing(h: Hash, run: Run, key: Key, b: nat, e: nat)
    requires IsRun(h, run) && b <= e < |run.states| && CompactsSoundly(h, run, b, e)
    ensures NoneDropped(h, run, key, b, e)
  {
    forall u | b <= u < e
      ensures SparesReading(h, run.states[u], run.states[u + 1], run.steps[u], key)
    {
      if BeginsCompaction(run.states[u], run.states[u + 1], run.steps[u]) {
        StepSpares(h, run, u, key);
      }
    }
  }

  /**
   * A copy recorded at `c` with the counter's value, which is even, and what the key then read as: while the counter
   * stands it is what the key holds. A set or unset records its copy so, and so does a get that took the lock.
   */
  lemma RecordedCopyIsCurrent(h: Hash, run: Run, key: Key, c: nat, t: nat)
    requires IsRun(h, run) && c <= t < |run.states|
    requires NoneReclaimed(h, run, key, c, t) && CompactsSoundly(h, run, c, t)
    requires MemOk(run.states[c].mem) && MemOk(run.states[t].mem) && AtRest(h, run.states[c].mem, key)
    requires run.states[t].mem.slots[SlotOf(h(key))] == run.states[c].mem.slots[SlotOf(h(key))]
    requires !run.states[t].clearing
    ensures MemOk(Settled(run.states[t]))
    ensures HeldNow(h, run.states[t], key) == Lookup(h, run.states[c].mem.img, key)
    ensures !Odd(run.states[t].mem.arenaSeq) ==>
              Lookup(h, run.states[t].mem.img, key) == Lookup(h, run.states[c].mem.img, key)
  {
    SoundlyDropsNothing(h, run, key, c, t);
    ReadingStands(h, run, key, c, t);
  }

  /** A hit at `t` on what a get recorded, having loaded its key's counter at `v` and read without a lock from `b` to `e`. */
  ghost predicate IsHit(h: Hash, run: Run, p: Pid, key: Key, v: nat, b: nat, e: nat, t: nat)
    requires v <= b < e <= t < |run.states|
  {
    && OneRead(run, p, key, b, e) && run.states[e].readers[p].pc.out != Torn
    && MemOk(run.states[v].mem) && MemOk(run.states[t].mem)
    && run.states[t].mem.slots[SlotOf(h(key))] == run.states[v].mem.slots[SlotOf(h(key))]
  }

  /** The result is what the key holds. */
  ghost predicate IsCurrent(h: Hash, s: Sys, key: Key, out: Read) {
    && MemOk(Settled(s)) && out == AsRead(HeldNow(h, s, key))
    && (!Odd(s.mem.arenaSeq) ==> WellSized(s.mem.img) && out == AsRead(Lookup(h, s.mem.img, key)))
  }

  /**
   * A cache hit is current, whoever has died: at any moment at which the counter is the recorded one, and no clear is in
   * progress, the recorded result is what the key holds, if the compactions since found sound tables and lost nothing.
   */
  lemma HitStands(h: Hash, run: Run, p: Pid, key: Key, v: nat, b: nat, e: nat, t: nat)
    requires IsRun(h, run) && v <= b < e <= t < |run.states| && IsHit(h, run, p, key, v, b, e, t)
    requires NoneReclaimed(h, run, key, b, t) && CompactsSoundly(h, run, b, t) && !run.states[t].clearing
    ensures IsCurrent(h, run.states[t], key, run.states[e].readers[p].pc.out)
  {
    var c := ReadLandsAt(h, run, p, key, b, e);
    SlotBetween(h, run, v, c, t, key);
    RecordedCopyIsCurrent(h, run, key, c, t);
  }

  /**
   * A cache hit is current. In a run from a sound table in which nobody dies in the middle of an operation, what a
   * lock-free get recorded is what the key holds at every later moment at which the counter is the recorded one and no
   * clear is in progress, provided that no compaction since then loses an entry.
   */
  lemma HitIsCurrent(h: Hash, run: Run, p: Pid, key: Key, v: nat, b: nat, e: nat, t: nat)
    requires IsRun(h, run) && Uncut(run) && Inv(h, run.states[0].mem.img)
    requires v <= b < e <= t < |run.states| && IsHit(h, run, p, key, v, b, e, t)
    requires NoneReclaimed(h, run, key, b, t) && CompactsLossless(h, run, b, t) && !run.states[t].clearing
    ensures IsCurrent(h, run.states[t], key, run.states[e].readers[p].pc.out)
  {
    UncutCompactsSoundly(h, run, b, t);
    HitStands(h, run, p, key, v, b, e, t);
  }

  // ---------------------------------------------- reads under the lock --

  /**
   * In every state of every run, whoever has died before it, a get that has the lock and has repaired the counters reads
   * to the end, is not torn, and finds what a search of the segment finds. It has no occasion to answer from the disk.
   */
  lemma RepairedReadIsLookup(h: Hash, run: Run, t: nat, key: Key) returns (n: nat)
    requires IsRun(h, run) && t < |run.states| && run.states[t].todo == []
    ensures MemOk(run.states[t].mem)
    ensures var m := run.states[t].mem;
            var read := Continue(h, RepairSeq(m, SlotOf(h(key))), Reader(key, 0, 0, LoadSlot), n);
            read.pc == Done(AsRead(Lookup(h, m.img, key)))
  {
    RunKeepsInv(h, run, t);
    var m := run.states[t].mem;
    SafeSound(m, run.states[t].todo);
    RepairLeavesData(m, SlotOf(h(key)));
    n := QuietReadFinishes(h, RepairSeq(m, SlotOf(h(key))), key);
  }

  /** A live key whose counter has stood since `c` is served by such a get, committed or not, whoever has died since. */
  lemma LiveKeyIsServed(h: Hash, run: Run, key: Key, c: nat, t: nat, val: Bytes) returns (n: nat)
    requires IsRun(h, run) && c <= t < |run.states|
    requires NoneReclaimed(h, run, key, c, t) && CompactsSoundly(h, run, c, t)
    requires MemOk(run.states[c].mem) && MemOk(run.states[t].mem) && AtRest(h, run.states[c].mem, key)
    requires run.states[t].mem.slots[SlotOf(h(key))] == run.states[c].mem.slots[SlotOf(h(key))]
    requires Lookup(h, run.states[c].mem.img, key) == Some(val)
    requires run.states[t].todo == [] && !run.states[t].clearing
    ensures var m := run.states[t].mem;
            Continue(h, RepairSeq(m, SlotOf(h(key))), Reader(key, 0, 0, LoadSlot), n).pc == Done(Value(val))
  {
    RunKeepsInv(h, run, t);
    RecordedCopyIsCurrent(h, run, key, c, t);
    n := RepairedReadIsLookup(h, run, t, key);
  }
}
