/**
 * The lock-free read protocol: any number of readers, one load at a time, against the lock holder's stores, one store
 * at a time. A process may die at any step; its locks are released and its remaining stores are never made.
 */
module Seqlock {
  import opened Layout
  import opened Index
  import opened Operations
  import opened Stores
  import opened Discipline

  type Pid = nat

  datatype Read = Value(v: Bytes) | Absent | Torn

  function AsRead(o: Option<Bytes>): Read {
    if o.Some? then Value(o.value) else Absent
  }

  // ------------------------------------------------------------ reader --

  /** Where a reader is: the load it makes next, and what it has loaded so far. */
  datatype Pc =
    | LoadSlot
    | LoadArena
    | LoadStatus(j: nat)
    | LoadHash(j: nat)
    | LoadKeyOff(j: nat)
    | LoadKeyLen(j: nat, off: nat)
    | Compare(j: nat, off: nat, n: nat)
    | ReloadStatus(j: nat)
    | LoadValOff(j: nat)
    | LoadValLen(j: nat, off: nat)
    | Copy(off: nat, len: nat, got: Bytes)
    | CheckSlot(out: Read)
    | CheckArena(out: Read, s2: nat)
    | Done(out: Read)

  datatype Reader = Reader(key: Key, s1: nat, a1: nat, pc: Pc)

  function NextProbe(j: nat): Pc {
    if j + 1 < MAX_PROBES then LoadStatus(j + 1) else CheckSlot(Absent)
  }

  function EntryOf(h: Hash, m: Mem, key: Key, j: nat): Entry
    requires MemOk(m)
  {
    m.img.index[Bucket(h(key), j)]
  }

  /** One load of `read_value`, and what the reader does with it. */
  function ReaderStep(h: Hash, m: Mem, r: Reader): Reader
    requires MemOk(m)
  {
    var x := SlotOf(h(r.key));
    match r.pc
    case LoadSlot => r.(s1 := m.slots[x], pc := LoadArena)
    case LoadArena =>
      r.(a1 := m.arenaSeq, pc := if Odd(r.s1) || Odd(m.arenaSeq) then Done(Torn) else LoadStatus(0))
    case LoadStatus(j) =>
      r.(pc := if EntryOf(h, m, r.key, j).status == Empty then CheckSlot(Absent) else LoadHash(j))
    case LoadHash(j) =>
      r.(pc := if EntryOf(h, m, r.key, j).hash == h(r.key) then LoadKeyOff(j) else NextProbe(j))
    case LoadKeyOff(j) => r.(pc := LoadKeyLen(j, EntryOf(h, m, r.key, j).keyOff))
    case LoadKeyLen(j, off) =>
      var len := EntryOf(h, m, r.key, j).keyLen;
      r.(pc := if len != |r.key| || off + len > ARENA_SIZE then NextProbe(j)
               else if len == 0 then ReloadStatus(j) else Compare(j, off, 0))
    case Compare(j, off, n) =>
      if n < |r.key| && off + n < ARENA_SIZE && m.img.arena[off + n] == r.key[n] then
        r.(pc := if n + 1 == |r.key| then ReloadStatus(j) else Compare(j, off, n + 1))
      else
        r.(pc := NextProbe(j))
    case ReloadStatus(j) =>
      r.(pc := if EntryOf(h, m, r.key, j).status == Live then LoadValOff(j) else CheckSlot(Absent))
    case LoadValOff(j) => r.(pc := LoadValLen(j, EntryOf(h, m, r.key, j).valOff))
    case LoadValLen(j, off) =>
      var len := EntryOf(h, m, r.key, j).valLen;
      r.(pc := if off + len > ARENA_SIZE then Done(Torn)
               else if len == 0 then CheckSlot(Value([])) else Copy(off, len, []))
    case Copy(off, len, got) =>
      if off + |got| < ARENA_SIZE then
        var got' := got + [m.img.arena[off + |got|]];
        r.(pc := if |got'| >= len then CheckSlot(Value(got')) else Copy(off, len, got'))
      else
        r.(pc := Done(Torn))
    case CheckSlot(out) => r.(pc := CheckArena(out, m.slots[x]))
    case CheckArena(out, s2) => r.(pc := Done(if r.s1 == s2 && r.a1 == m.arenaSeq then out else Torn))
    case Done(_) => r
  }

  /** Between the loads of the two counters and their second loads. */
  predicate InData(pc: Pc) {
    !pc.LoadSlot? && !pc.LoadArena? && !pc.CheckArena? && !pc.Done?
  }

  // ------------------------------------------------------------ system --

  /** Shared memory, who holds the writer lock, whether it is clearing, the stores it has left, and the readers. */
  datatype Sys = Sys(mem: Mem, holder: Option<Pid>, clearing: bool, todo: seq<Store>, readers: map<Pid, Reader>)

  datatype Step =
    | Acquire(p: Pid, op: Op)
    | DoStore(p: Pid)
    | Release(p: Pid)
    | Begin(p: Pid, key: Key)
    | Load(p: Pid)
    | Die(p: Pid)

  ghost predicate Init(s: Sys) {
    && MemOk(s.mem) && RawInv(s.mem.img) && !Odd(s.mem.arenaSeq)
    && s.holder == None && !s.clearing && s.todo == [] && s.readers == map[]
  }

  /** A holder may die at any store that is not inside a compaction or the wiping of a clear. */
  ghost predicate Next(h: Hash, s: Sys, s': Sys, step: Step) {
    && MemOk(s.mem)
    && match step
       case Acquire(p, op) =>
         s.holder == None && s' == s.(holder := Some(p), clearing := op.OpClear?, todo := Script(h, s.mem, op))
       case DoStore(p) =>
         s.holder == Some(p) && |s.todo| > 0 && s' == s.(mem := Apply(s.mem, s.todo[0]), todo := s.todo[1..])
       case Release(p) =>
         s.holder == Some(p) && s.todo == [] && s' == s.(holder := None, clearing := false)
       case Begin(p, key) =>
         && (p in s.readers ==> s.readers[p].pc.Done?)
         && s' == s.(readers := s.readers[p := Reader(key, 0, 0, LoadSlot)])
       case Load(p) =>
         p in s.readers && s' == s.(readers := s.readers[p := ReaderStep(h, s.mem, s.readers[p])])
       case Die(p) =>
         if s.holder == Some(p) then
           !Odd(s.mem.arenaSeq) && s' == s.(holder := None, clearing := false, todo := [], readers := s.readers - {p})
         else
           s' == s.(readers := s.readers - {p})
  }

  /** `states[t]` becomes `states[t + 1]` by `steps[t]`. */
  datatype Run = Run(states: seq<Sys>, steps: seq<Step>)

  ghost predicate StepsAt(h: Hash, run: Run, t: nat) {
    t < |run.steps| && t + 1 < |run.states| && Next(h, run.states[t], run.states[t + 1], run.steps[t])
  }

  ghost predicate IsRun(h: Hash, run: Run) {
    && |run.states| == |run.steps| + 1
    && Init(run.states[0])
    && forall t | 0 <= t < |run.steps| :: StepsAt(h, run, t)
  }

  /** The lock discipline: only the holder has stores left to make, and they are all disciplined. */
  ghost predicate SysInv(s: Sys) {
    && MemOk(s.mem)
    && Safe(s.mem, s.todo)
    && !Odd(ApplyAll(s.mem, s.todo).arenaSeq)
    && (s.holder == None ==> s.todo == [])
  }

  lemma ResultArenaEven(h: Hash, m: Mem, op: Op)
    requires MemOk(m) && !Odd(m.arenaSeq)
    ensures !Odd(Result(h, m, op).arenaSeq)
  {
    match op
    case OpWriteback(done) => WritebackCounters(h, m, done);
    case _ =>
  }

  lemma {:induction false} WritebackCounters(h: Hash, m: Mem, done: seq<Pending>)
    requires MemOk(m)
    ensures Writeback(h, m, done).arenaSeq == m.arenaSeq && Writeback(h, m, done).slots == m.slots
  {
    if |done| > 0 {
      WritebackCounters(h, m, done[..|done| - 1]);
    }
  }

  lemma SafeSound(m: Mem, todo: seq<Store>)
    requires Safe(m, todo) && !Odd(m.arenaSeq)
    ensures RawInv(m.img)
  {
  }

  lemma NextKeepsInv(h: Hash, s: Sys, s': Sys, step: Step)
    requires SysInv(s) && Next(h, s, s', step)
    ensures SysInv(s')
  {
    match step
    case Acquire(p, op) =>
      SafeOp(h, s.mem, op);
      ScriptApplies(h, s.mem, op);
      ResultArenaEven(h, s.mem, op);
    case DoStore(p) =>
    case Release(p) =>
    case Begin(p, key) =>
    case Load(p) =>
    case Die(p) =>
      if s.holder == Some(p) {
        SafeSound(s.mem, s.todo);
      }
  }

  lemma {:induction false} RunKeepsInv(h: Hash, run: Run, t: nat)
    requires IsRun(h, run) && t < |run.states|
    ensures SysInv(run.states[t])
  {
    if t > 0 {
      RunKeepsInv(h, run, t - 1);
      assert StepsAt(h, run, t - 1);
      NextKeepsInv(h, run.states[t - 1], run.states[t], run.steps[t - 1]);
    }
  }

  // ---------------------------------------------------------- counters --

  lemma StepCounters(h: Hash, s: Sys, s': Sys, step: Step)
    requires SysInv(s) && Next(h, s, s', step)
    ensures s.mem.arenaSeq <= s'.mem.arenaSeq
    ensures forall x | 0 <= x < SLOTS :: s.mem.slots[x] <= s'.mem.slots[x]
  {
    if step.DoStore? {
      assert Disciplined(s.mem, s.todo[0]);
    }
  }

  /** Over any run, deaths included, every counter only grows. */
  lemma {:induction false} CountersGrow(h: Hash, run: Run, t: nat, u: nat)
    requires IsRun(h, run) && t <= u < |run.states|
    ensures MemOk(run.states[t].mem) && MemOk(run.states[u].mem)
    ensures run.states[t].mem.arenaSeq <= run.states[u].mem.arenaSeq
    ensures forall x | 0 <= x < SLOTS :: run.states[t].mem.slots[x] <= run.states[u].mem.slots[x]
    decreases u
  {
    RunKeepsInv(h, run, u);
    if t < u {
      CountersGrow(h, run, t, u - 1);
      RunKeepsInv(h, run, u - 1);
      assert StepsAt(h, run, u - 1);
      StepCounters(h, run.states[u - 1], run.states[u], run.steps[u - 1]);
    }
  }

  predicate MovesNoSlot(body: seq<Store>) {
    forall n | 0 <= n < |body| :: !body[n].SetSlot?
  }

  lemma {:induction false} BodyKeepsSlots(m: Mem, body: seq<Store>)
    requires MovesNoSlot(body)
    ensures ApplyAll(m, body).slots == m.slots
    decreases |body|
  {
    if |body| > 0 {
      BodyKeepsSlots(Apply(m, body[0]), body[1..]);
    }
  }

  /**
   * From the first store of a write window to the one that closes it, its counter is odd and has moved, even if a dead
   * writer left it odd; closing it leaves it even and moved again.
   */
  lemma WindowIsOdd(m: Mem, x: nat, body: seq<Store>, n: nat)
    requires MemOk(m) && x < SLOTS && MovesNoSlot(body) && n <= |body|
    ensures var during := ApplyAll(m, Window(m.slots, x, body)[..n + 1]).slots;
            |during| == SLOTS && Odd(during[x]) && during[x] > m.slots[x]
    ensures var after := ApplyAll(m, Window(m.slots, x, body)).slots;
            |after| == SLOTS && !Odd(after[x]) && after[x] > NextOdd(m.slots[x])
  {
    var begin := SetSlot(x, NextOdd(m.slots[x]));
    var end := SetSlot(x, Bump(m.slots[x]));
    assert Window(m.slots, x, body)[..n + 1] == [begin] + body[..n];
    ApplyAllOne(m, begin);
    ApplyAllConcat(m, [begin], body[..n]);
    BodyKeepsSlots(Apply(m, begin), body[..n]);
    ApplyAllConcat(m, [begin], body);
    BodyKeepsSlots(Apply(m, begin), body);
    ApplyAllConcat(m, [begin] + body, [end]);
    ApplyAllOne(ApplyAll(m, [begin] + body), end);
  }

  predicate MovesNoArena(body: seq<Store>) {
    forall n | 0 <= n < |body| :: !body[n].SetArenaSeq?
  }

  lemma {:induction false} BodyKeepsArena(m: Mem, body: seq<Store>)
    requires MovesNoArena(body)
    ensures ApplyAll(m, body).arenaSeq == m.arenaSeq
    decreases |body|
  {
    if |body| > 0 {
      BodyKeepsArena(Apply(m, body[0]), body[1..]);
    }
  }

  /** The same of the compaction counter, through a compaction or the wiping of a clear. */
  lemma ArenaWindowIsOdd(m: Mem, body: seq<Store>, n: nat)
    requires MovesNoArena(body) && n <= |body|
    ensures var during := ApplyAll(m, ArenaWindow(m.arenaSeq, body)[..n + 1]).arenaSeq;
            Odd(during) && during > m.arenaSeq
    ensures var after := ApplyAll(m, ArenaWindow(m.arenaSeq, body)).arenaSeq;
            !Odd(after) && after > NextOdd(m.arenaSeq)
  {
    var begin := SetArenaSeq(NextOdd(m.arenaSeq));
    var end := SetArenaSeq(Bump(m.arenaSeq));
    assert ArenaWindow(m.arenaSeq, body)[..n + 1] == [begin] + body[..n];
    ApplyAllOne(m, begin);
    ApplyAllConcat(m, [begin], body[..n]);
    BodyKeepsArena(Apply(m, begin), body[..n]);
    ApplyAllConcat(m, [begin] + body, [end]);
    ApplyAllOne(ApplyAll(m, [begin] + body), end);
  }

  /** A compaction moves no counter inside its window. */
  lemma CompactionMovesNoCounter(h: Hash, m: Mem)
    requires MemOk(m)
    ensures MovesNoArena(CompactionBody(h, m.img)) && MovesNoSlot(CompactionBody(h, m.img))
    ensures CompactScript(h, m) == ArenaWindow(m.arenaSeq, CompactionBody(h, m.img))
  {
    var ks := Keeps(m.img, INDEX_SLOTS);
    WipePlain(INDEX_SLOTS);
    ReinsertAllPlain(h, Wiped(m.img), ks);
    PlainBoth(WipeScript(), ReinsertAllScript(h, Wiped(m.img), ks));
    PlainMovesNoCounter(CompactionBody(h, m.img));
  }

  function CompactionBody(h: Hash, img: Image): seq<Store>
    requires WellSized(img)
  {
    WipeScript() + ReinsertAllScript(h, Wiped(img), Keeps(img, INDEX_SLOTS))
  }

  lemma PlainMovesNoCounter(body: seq<Store>)
    requires AllPlain(body)
    ensures MovesNoArena(body) && MovesNoSlot(body)
  {
    assert forall i | 0 <= i < |body| :: Plain(body[i]);
  }

  /**
   * In every reachable state, deaths included, whatever the holder stores next: a value, status, key or hash of a live
   * bucket is stored under an odd counter of that bucket's key or an odd compaction counter; a bucket takes on a hash
   * under an odd counter of the key it then carries; and allocated bytes are overwritten only by a compaction.
   */
  lemma StoresAreAnnounced(h: Hash, run: Run, t: nat)
    requires IsRun(h, run) && t < |run.states| && |run.states[t].todo| > 0
    ensures var (m, s) := (run.states[t].mem, run.states[t].todo[0]);
            && MemOk(m)
            && (s.SetEntry? && s.i < INDEX_SLOTS && m.img.index[s.i].status == Live && !s.f.FDirty? ==>
                  Odd(m.slots[SlotOf(m.img.index[s.i].hash)]) || Odd(m.arenaSeq))
            && (s.SetEntry? && s.f.FHash? ==> Odd(m.slots[SlotOf(s.f.hash)]) || Odd(m.arenaSeq))
            && (s.SetByte? && s.a < m.img.used ==> Odd(m.arenaSeq))
  {
    RunKeepsInv(h, run, t);
    assert Disciplined(run.states[t].mem, run.states[t].todo[0]);
  }

  /** Neither a put nor a removal moves a counter inside its window. */
  lemma BodiesMoveNoSlot(h: Hash, img: Image, i: nat, found: bool, key: Key, val: Bytes, dirty: bool)
    requires WellSized(img) && i < INDEX_SLOTS
    ensures MovesNoSlot(PutLockedScript(h, img, i, found, key, val, dirty))
    ensures MovesNoSlot(RemoveBody(img, i, dirty))
  {
  }

  // ------------------------------------------- what a key cannot notice --

  /**
   * The store rewrites the key of a tombstone that carries this key's full hash, while neither of the key's counters
   * says so: a writer in another slot is claiming the bucket.
   */
  predicate Disturbs(h: Hash, m: Mem, s: Store, key: Key)
    requires MemOk(m)
  {
    && s.SetEntry? && s.i < INDEX_SLOTS && InUse(m.img.index[s.i]) && m.img.index[s.i].hash == h(key)
    && (s.f.FKeyOff? || s.f.FKeyLen? || s.f.FHash?)
    && !Odd(m.arenaSeq) && !Odd(m.slots[SlotOf(h(key))])
  }

  /** No bucket carrying this key's full hash has been left with its key half rewritten. */
  ghost predicate Intact(h: Hash, img: Image, key: Key) {
    forall i | 0 <= i < |img.index| && InUse(img.index[i]) && img.index[i].hash == h(key) ::
      img.index[i].keyOff + img.index[i].keyLen <= img.used
  }

  /** From `img` to `img'`, nothing that a search for `key` depends on has changed. */
  ghost predicate Calm(h: Hash, img: Image, img': Image, key: Key) {
    && WellSized(img) && WellSized(img')
    && img.used <= img'.used && img'.arena[..img.used] == img.arena[..img.used]
    && (forall i | 0 <= i < INDEX_SLOTS && InUse(img.index[i]) :: InUse(img'.index[i]))
    && (forall i | 0 <= i < INDEX_SLOTS && InUse(img.index[i]) && img.index[i].hash == h(key) ::
          img'.index[i].(dirty := img.index[i].dirty) == img.index[i])
    && (forall i | 0 <= i < INDEX_SLOTS && InUse(img'.index[i]) && img'.index[i].hash == h(key) ::
          InUse(img.index[i]) && img.index[i].hash == h(key))
  }

  /** While a key's counter and the compaction counter are even, a disciplined store is calm for it. */
  lemma CalmStore(h: Hash, m: Mem, s: Store, key: Key)
    requires MemOk(m) && Disciplined(m, s)
    requires !Odd(m.arenaSeq) && !Odd(m.slots[SlotOf(h(key))])
    requires !Disturbs(h, m, s, key)
    ensures Calm(h, m.img, Apply(m, s).img, key)
    ensures Intact(h, m.img, key) ==> Intact(h, Apply(m, s).img, key)
  {
  }

  /** A bucket carrying the key's hash holds it afterwards exactly when it did before. */
  lemma CalmHolds(h: Hash, img: Image, img': Image, key: Key, i: nat)
    requires Calm(h, img, img', key) && Intact(h, img, key)
    requires i < INDEX_SLOTS && InUse(img.index[i])
    ensures HoldsAt(h, img', i, key) <==> HoldsAt(h, img, i, key)
  {
    if img.index[i].hash == h(key) {
      TextFrame(img.arena, img'.arena, img.used, img.index[i].keyOff, img.index[i].keyLen);
    }
  }

  lemma CalmPassed(h: Hash, img: Image, img': Image, key: Key, n: nat)
    requires Calm(h, img, img', key) && Intact(h, img, key)
    requires Passed(h, img, key, n)
    ensures Passed(h, img', key, n)
  {
    forall j | 0 <= j < n
      ensures InUse(img'.index[Bucket(h(key), j)]) && !HoldsAt(h, img', Bucket(h(key), j), key)
    {
      CalmHolds(h, img, img', key, Bucket(h(key), j));
    }
  }

  /** What the key reads as is unchanged. */
  lemma CalmLookup(h: Hash, img: Image, img': Image, key: Key)
    requires Calm(h, img, img', key) && Intact(h, img, key)
    requires RawInv(img)
    ensures Lookup(h, img', key) == Lookup(h, img, key)
  {
    var n := ProbeStops(h, img, key);
    var p := Probe(h, img, key);
    if p.Some? && p.value.1 {
      assert p == Some((p.value.0, true));
      var i := Bucket(h(key), n);
      CalmPassed(h, img, img', key, n);
      CalmHolds(h, img, img', key, i);
      ProbeFound(h, img', key, n);
      assert RawEntry(img, i);
      TextFrame(img.arena, img'.arena, img.used, img.index[i].valOff, img.index[i].valLen);
    } else {
      var p' := Probe(h, img', key);
      if p'.Some? && p'.value.1 {
        assert p' == Some((p'.value.0, true));
        var n' := ProbeStops(h, img', key);
        var i := Bucket(h(key), n');
        CalmHolds(h, img, img', key, i);
        assert RawEntry(img, i);
        DistBucket(h(key), n');
        NotHeldTwice(h, img, key, n, n');
      }
    }
  }

  /** A bucket with no gap before it that holds the key is not past where the search stopped. */
  lemma NotHeldTwice(h: Hash, img: Image, key: Key, n: nat, d: nat)
    requires WellSized(img) && n <= MAX_PROBES && d < MAX_PROBES
    requires Passed(h, img, key, n)
    requires HoldsAt(h, img, Bucket(h(key), d), key)
    requires forall j | 0 <= j < d :: InUse(img.index[Bucket(h(key), j)])
    ensures n <= d && (n == d || InUse(img.index[Bucket(h(key), n)]))
  {
  }
}
