/** A lock-free read that is not torn returns what its key held, at every moment between its counter checks. */
module LockFreeRead {
  import opened Layout
  import opened Index
  import opened Operations
  import opened Stores
  import opened Discipline
  import opened Seqlock

  // ------------------------------------- what a reader has established --

  /** The first `j` buckets do not hold the key, and bucket `j` is within range and in use. */
  ghost predicate At(h: Hash, img: Image, key: Key, j: nat)
    requires WellSized(img)
  {
    j < MAX_PROBES && Passed(h, img, key, j) && InUse(img.index[Bucket(h(key), j)])
  }

  ghost predicate Matching(h: Hash, img: Image, key: Key, j: nat)
    requires WellSized(img)
  {
    At(h, img, key, j) && img.index[Bucket(h(key), j)].hash == h(key)
  }

  ghost predicate HeldAt(h: Hash, img: Image, key: Key, j: nat)
    requires WellSized(img)
  {
    At(h, img, key, j) && HoldsAt(h, img, Bucket(h(key), j), key)
  }

  /** What must be true of the segment when a reader stands at this point and no counter has moved. */
  ghost predicate Facts(h: Hash, img: Image, key: Key, pc: Pc)
    requires WellSized(img)
  {
    match pc
    case LoadStatus(j) => j < MAX_PROBES && Passed(h, img, key, j)
    case LoadHash(j) => At(h, img, key, j)
    case LoadKeyOff(j) => Matching(h, img, key, j)
    case LoadKeyLen(j, off) => Matching(h, img, key, j) && off == img.index[Bucket(h(key), j)].keyOff
    case Compare(j, off, n) =>
      && Matching(h, img, key, j) && off == img.index[Bucket(h(key), j)].keyOff
      && img.index[Bucket(h(key), j)].keyLen == |key| && off + |key| <= ARENA_SIZE
      && n < |key| && img.arena[off..off + n] == key[..n]
    case ReloadStatus(j) => HeldAt(h, img, key, j)
    case LoadValOff(j) => HeldAt(h, img, key, j) && img.index[Bucket(h(key), j)].status == Live
    case LoadValLen(j, off) =>
      HeldAt(h, img, key, j) && img.index[Bucket(h(key), j)].status == Live && off == img.index[Bucket(h(key), j)].valOff
    case Copy(off, len, got) =>
      && |got| < len && off + len <= img.used && got == img.arena[off..off + |got|]
      && Lookup(h, img, key) == Some(Text(img.arena, off, len))
    case CheckSlot(out) => out == AsRead(Lookup(h, img, key))
    case _ => true
  }

  lemma CalmMatching(h: Hash, img: Image, img': Image, key: Key, j: nat)
    requires Calm(h, img, img', key) && Intact(h, img, key)
    ensures At(h, img, key, j) ==> At(h, img', key, j)
    ensures Matching(h, img, key, j) ==>
              Matching(h, img', key, j) &&
              var i := Bucket(h(key), j);
              img'.index[i].(dirty := img.index[i].dirty) == img.index[i]
    ensures HeldAt(h, img, key, j) ==> HeldAt(h, img', key, j)
  {
    if At(h, img, key, j) {
      CalmPassed(h, img, img', key, j);
      CalmHolds(h, img, img', key, Bucket(h(key), j));
    }
  }

  /** A calm change leaves every fact in place. */
  lemma CalmFacts(h: Hash, img: Image, img': Image, key: Key, pc: Pc)
    requires Calm(h, img, img', key) && Intact(h, img, key) && RawInv(img)
    requires Facts(h, img, key, pc)
    ensures Facts(h, img', key, pc)
  {
    CalmLookup(h, img, img', key);
    match pc
    case LoadStatus(j) => CalmPassed(h, img, img', key, j);
    case LoadHash(j) => CalmMatching(h, img, img', key, j);
    case LoadKeyOff(j) => CalmMatching(h, img, img', key, j);
    case LoadKeyLen(j, off) => CalmMatching(h, img, img', key, j);
    case Compare(j, off, n) =>
      CalmMatching(h, img, img', key, j);
      TextFrame(img.arena, img'.arena, img.used, off, n);
    case ReloadStatus(j) => CalmMatching(h, img, img', key, j);
    case LoadValOff(j) => CalmMatching(h, img, img', key, j);
    case LoadValLen(j, off) => CalmMatching(h, img, img', key, j);
    case Copy(off, len, got) =>
      TextFrame(img.arena, img'.arena, img.used, off, len);
      TextFrame(img.arena, img'.arena, img.used, off, |got|);
    case _ =>
  }

  /** The search ran into an empty bucket, or out of buckets. */
  lemma SearchFails(h: Hash, img: Image, key: Key, n: nat)
    requires WellSized(img) && n <= MAX_PROBES && Passed(h, img, key, n)
    requires n < MAX_PROBES ==> !InUse(img.index[Bucket(h(key), n)])
    ensures Lookup(h, img, key) == None
  {
    var p := Probe(h, img, key);
    if p.Some? && p.value.1 {
      assert p == Some((p.value.0, true));
      var stop := ProbeStops(h, img, key);
    }
  }

  lemma NextBucket(h: Hash, img: Image, key: Key, j: nat)
    requires WellSized(img) && At(h, img, key, j)
    requires !HoldsAt(h, img, Bucket(h(key), j), key)
    ensures Facts(h, img, key, NextProbe(j))
  {
    assert Passed(h, img, key, j + 1);
    if j + 1 == MAX_PROBES {
      SearchFails(h, img, key, j + 1);
    }
  }

  lemma CompareOne(arena: Bytes, off: nat, key: Key, n: nat)
    requires n < |key| && off + |key| <= |arena|
    requires arena[off..off + n] == key[..n]
    ensures arena[off + n] == key[n] ==> arena[off..off + n + 1] == key[..n + 1]
    ensures arena[off + n] != key[n] ==> arena[off..off + |key|] != key
  {
    if arena[off + n] == key[n] {
      assert arena[off..off + n + 1] == arena[off..off + n] + [arena[off + n]];
      assert key[..n + 1] == key[..n] + [key[n]];
    } else {
      assert arena[off..off + |key|][n] == arena[off + n];
    }
  }

  lemma LoadKeyLenFacts(h: Hash, m: Mem, r: Reader)
    requires MemOk(m)
    requires r.pc.LoadKeyLen? && Facts(h, m.img, r.key, r.pc)
    ensures Facts(h, m.img, r.key, ReaderStep(h, m, r).pc)
  {
    var off := r.pc.off;
    var e := EntryOf(h, m, r.key, r.pc.j);
    if e.keyLen != |r.key| || off + e.keyLen > ARENA_SIZE {
      NextBucket(h, m.img, r.key, r.pc.j);
    } else if e.keyLen == 0 {
      assert m.img.arena[off..off] == r.key;
    } else {
      assert m.img.arena[off..off] == r.key[..0];
    }
  }

  lemma CompareFacts(h: Hash, m: Mem, r: Reader)
    requires MemOk(m)
    requires r.pc.Compare? && Facts(h, m.img, r.key, r.pc)
    ensures Facts(h, m.img, r.key, ReaderStep(h, m, r).pc)
  {
    var (off, n) := (r.pc.off, r.pc.n);
    CompareOne(m.img.arena, off, r.key, n);
    if m.img.arena[off + n] != r.key[n] {
      NextBucket(h, m.img, r.key, r.pc.j);
    } else if n + 1 == |r.key| {
      assert r.key[..n + 1] == r.key;
    }
  }

  lemma LoadValLenFacts(h: Hash, m: Mem, r: Reader)
    requires MemOk(m) && RawInv(m.img)
    requires r.pc.LoadValLen? && Facts(h, m.img, r.key, r.pc)
    ensures Facts(h, m.img, r.key, ReaderStep(h, m, r).pc) && InData(ReaderStep(h, m, r).pc)
  {
    ProbeFound(h, m.img, r.key, r.pc.j);
    assert RawEntry(m.img, Bucket(h(r.key), r.pc.j));
  }

  lemma CopyFacts(h: Hash, m: Mem, r: Reader)
    requires MemOk(m)
    requires r.pc.Copy? && Facts(h, m.img, r.key, r.pc)
    ensures Facts(h, m.img, r.key, ReaderStep(h, m, r).pc) && InData(ReaderStep(h, m, r).pc)
  {
    var (off, got) := (r.pc.off, r.pc.got);
    assert m.img.arena[off..off + |got| + 1] == got + [m.img.arena[off + |got|]];
  }

  lemma ReloadFacts(h: Hash, m: Mem, r: Reader)
    requires MemOk(m)
    requires r.pc.ReloadStatus? && Facts(h, m.img, r.key, r.pc)
    ensures Facts(h, m.img, r.key, ReaderStep(h, m, r).pc)
  {
    ProbeFound(h, m.img, r.key, r.pc.j);
  }

  lemma LoadProbeFacts(h: Hash, m: Mem, r: Reader)
    requires MemOk(m)
    requires r.pc.LoadStatus? || r.pc.LoadHash?
    requires Facts(h, m.img, r.key, r.pc)
    ensures Facts(h, m.img, r.key, ReaderStep(h, m, r).pc)
  {
    var j := r.pc.j;
    if r.pc.LoadStatus? && !InUse(EntryOf(h, m, r.key, j)) {
      SearchFails(h, m.img, r.key, j);
    } else if r.pc.LoadHash? && EntryOf(h, m, r.key, j).hash != h(r.key) {
      NextBucket(h, m.img, r.key, j);
    }
  }

  /** One load carries the facts from one point of the read to the next. */
  lemma LoadKeepsFacts(h: Hash, m: Mem, r: Reader)
    requires MemOk(m) && RawInv(m.img)
    requires InData(r.pc) && Facts(h, m.img, r.key, r.pc)
    ensures Facts(h, m.img, r.key, ReaderStep(h, m, r).pc)
    ensures r.pc.CheckSlot? || InData(ReaderStep(h, m, r).pc)
  {
    match r.pc
    case LoadStatus(j) => LoadProbeFacts(h, m, r);
    case LoadHash(j) => LoadProbeFacts(h, m, r);
    case LoadKeyOff(j) =>
    case LoadKeyLen(j, off) => LoadKeyLenFacts(h, m, r);
    case Compare(j, off, n) => CompareFacts(h, m, r);
    case ReloadStatus(j) => ReloadFacts(h, m, r);
    case LoadValOff(j) =>
    case LoadValLen(j, off) => LoadValLenFacts(h, m, r);
    case Copy(off, len, got) => CopyFacts(h, m, r);
    case CheckSlot(out) =>
  }

  // -------------------------------------------------------- over a run --

  /** Process `p` performs one read of `key`, its first load at `b` and its last before `e`. */
  ghost predicate OneRead(run: Run, p: Pid, key: Key, b: nat, e: nat) {
    && b < e < |run.states|
    && (forall t | b <= t <= e :: p in run.states[t].readers && run.states[t].readers[p].key == key)
    && run.states[b].readers[p].pc == LoadSlot
    && (forall t | b < t <= e :: !run.states[t].readers[p].pc.LoadSlot?)
    && run.states[e].readers[p].pc.Done?
  }

  /** Neither counter of the key says that a write is under way. */
  predicate AtRest(h: Hash, m: Mem, key: Key) {
    |m.slots| == SLOTS && !Odd(m.arenaSeq) && !Odd(m.slots[SlotOf(h(key))])
  }

  /**
   * No tombstone carrying the key's full hash is reclaimed by a writer in another slot while the key's counters stand
   * even, nor had one been left half reclaimed by a dead writer when the read began. A tombstone of this very key is
   * included, and so are those of other keys with the same hash.
   */
  ghost predicate NoneReclaimed(h: Hash, run: Run, key: Key, b: nat, e: nat)
    requires b <= e < |run.states| && |run.states| == |run.steps| + 1
  {
    && (AtRest(h, run.states[b].mem, key) ==> Intact(h, run.states[b].mem.img, key))
    && forall t | b <= t < e && run.steps[t].DoStore? ::
         var s := run.states[t];
         |s.todo| > 0 && MemOk(s.mem) ==> !Disturbs(h, s.mem, s.todo[0], key)
  }

  /** The counters still read as the reader first found them, both even. */
  predicate Steady(h: Hash, m: Mem, r: Reader)
    requires MemOk(m)
  {
    m.slots[SlotOf(h(r.key))] == r.s1 && m.arenaSeq == r.a1 && !Odd(r.s1) && !Odd(r.a1)
  }

  /** At `t` the reader is among its data loads, the counters are those it first loaded, and the key reads as `out`. */
  ghost predicate Sees(h: Hash, run: Run, p: Pid, key: Key, t: nat, out: Read)
    requires t < |run.states|
  {
    var s := run.states[t];
    && p in s.readers && MemOk(s.mem) && s.readers[p].key == key && InData(s.readers[p].pc)
    && Steady(h, s.mem, s.readers[p]) && Intact(h, s.mem.img, key)
    && out == AsRead(Lookup(h, s.mem.img, key))
  }

  /** The states after `b`, up to `t`, at which the reader is among its data loads. */
  ghost function DataLoads(run: Run, p: Pid, b: nat, t: nat): set<nat>
    requires t < |run.states|
  {
    set u | b < u <= t && p in run.states[u].readers && InData(run.states[u].readers[p].pc)
  }

  /** At every data load so far the key read as `out`, and there has been one. */
  ghost predicate SawOnly(h: Hash, run: Run, p: Pid, key: Key, b: nat, t: nat, out: Read)
    requires b <= t < |run.states|
  {
    DataLoads(run, p, b, t) != {} && forall u | u in DataLoads(run, p, b, t) :: Sees(h, run, p, key, u, out)
  }

  /** The state of a read in progress, as far as the counters vouch for it. */
  ghost predicate Progress(h: Hash, run: Run, p: Pid, key: Key, b: nat, t: nat)
    requires b < t < |run.states|
  {
    var s := run.states[t];
    p in s.readers && MemOk(s.mem) &&
    var r := s.readers[p];
    var m := s.mem;
    var x := SlotOf(h(key));
    && (r.pc.LoadArena? || InData(r.pc) ==> r.s1 <= m.slots[x])
    && (r.pc.LoadArena? || InData(r.pc) ==>
          (m.slots[x] == r.s1 && !Odd(r.s1) && !Odd(m.arenaSeq) ==> Intact(h, m.img, key)))
    && match r.pc
       case LoadSlot => false
       case LoadArena => DataLoads(run, p, b, t) == {}
       case CheckArena(out, s2) =>
         s2 <= m.slots[x] && r.a1 <= m.arenaSeq && (s2 == r.s1 && m.arenaSeq == r.a1 ==> SawOnly(h, run, p, key, b, t, out))
       case Done(out) => out == Torn || SawOnly(h, run, p, key, b, t, out)
       case pc =>
         && r.a1 <= m.arenaSeq && !Odd(r.s1) && !Odd(r.a1)
         && (Steady(h, m, r) ==> Facts(h, m.img, key, pc) && SawOnly(h, run, p, key, b, t, AsRead(Lookup(h, m.img, key))))
  }

  lemma LoadsGrow(run: Run, p: Pid, b: nat, t: nat)
    requires b <= t && t + 1 < |run.states|
    ensures DataLoads(run, p, b, t + 1) ==
            DataLoads(run, p, b, t) + if t + 1 in DataLoads(run, p, b, t + 1) then {t + 1} else {}
  {
  }

  lemma SawOnlyExtends(h: Hash, run: Run, p: Pid, key: Key, b: nat, t: nat, out: Read)
    requires b <= t && t + 1 < |run.states|
    requires SawOnly(h, run, p, key, b, t, out)
    requires p in run.states[t + 1].readers && InData(run.states[t + 1].readers[p].pc) ==> Sees(h, run, p, key, t + 1, out)
    ensures SawOnly(h, run, p, key, b, t + 1, out)
  {
    LoadsGrow(run, p, b, t);
  }

  lemma SawFirst(h: Hash, run: Run, p: Pid, key: Key, b: nat, t: nat, out: Read)
    requires b <= t && t + 1 < |run.states|
    requires DataLoads(run, p, b, t) == {}
    requires Sees(h, run, p, key, t + 1, out)
    ensures SawOnly(h, run, p, key, b, t + 1, out)
  {
    LoadsGrow(run, p, b, t);
  }

  /** Process `p` makes one load at step `t`; memory stands still. */
  ghost predicate LoadsAt(h: Hash, run: Run, p: Pid, key: Key, t: nat) {
    && t + 1 < |run.states|
    && SysInv(run.states[t]) && run.states[t + 1].mem == run.states[t].mem
    && p in run.states[t].readers && p in run.states[t + 1].readers
    && run.states[t].readers[p].key == key
    && run.states[t + 1].readers[p] == ReaderStep(h, run.states[t].mem, run.states[t].readers[p])
  }

  lemma ProgressLoadArena(h: Hash, run: Run, p: Pid, key: Key, b: nat, t: nat)
    requires b < t && LoadsAt(h, run, p, key, t)
    requires run.states[t].readers[p].pc.LoadArena? && Progress(h, run, p, key, b, t)
    ensures Progress(h, run, p, key, b, t + 1)
  {
    var m := run.states[t].mem;
    if InData(run.states[t + 1].readers[p].pc) && Steady(h, m, run.states[t + 1].readers[p]) {
      SawFirst(h, run, p, key, b, t, AsRead(Lookup(h, m.img, key)));
    }
  }

  lemma ProgressLoadData(h: Hash, run: Run, p: Pid, key: Key, b: nat, t: nat)
    requires b < t && LoadsAt(h, run, p, key, t)
    requires InData(run.states[t].readers[p].pc) && !run.states[t].readers[p].pc.CheckSlot?
    requires Progress(h, run, p, key, b, t)
    ensures Progress(h, run, p, key, b, t + 1)
  {
    var m := run.states[t].mem;
    var r := run.states[t].readers[p];
    if Steady(h, m, r) {
      SafeSound(m, run.states[t].todo);
      LoadKeepsFacts(h, m, r);
      SawOnlyExtends(h, run, p, key, b, t, AsRead(Lookup(h, m.img, key)));
    } else {
      DataStaysData(h, m, r);
    }
  }

  /** Even a read that has gone astray ends only as torn or at its counter checks. */
  lemma DataStaysData(h: Hash, m: Mem, r: Reader)
    requires MemOk(m) && InData(r.pc) && !r.pc.CheckSlot?
    ensures var r' := ReaderStep(h, m, r); r'.s1 == r.s1 && r'.a1 == r.a1 && (InData(r'.pc) || r'.pc == Done(Torn))
  {
  }

  lemma ProgressLoadCheck(h: Hash, run: Run, p: Pid, key: Key, b: nat, t: nat)
    requires b < t && LoadsAt(h, run, p, key, t)
    requires run.states[t].readers[p].pc.CheckSlot? || run.states[t].readers[p].pc.CheckArena? || run.states[t].readers[p].pc.Done?
    requires Progress(h, run, p, key, b, t)
    ensures Progress(h, run, p, key, b, t + 1)
  {
    var r := run.states[t].readers[p];
    var m := run.states[t].mem;
    if r.pc.CheckSlot? {
      if Steady(h, m, r) {
        SawOnlyExtends(h, run, p, key, b, t, r.pc.out);
      }
    } else if run.states[t + 1].readers[p].pc.out != Torn {
      SawOnlyExtends(h, run, p, key, b, t, r.pc.out);
    }
  }

  lemma ProgressLoad(h: Hash, run: Run, p: Pid, key: Key, b: nat, t: nat)
    requires b < t && LoadsAt(h, run, p, key, t)
    requires Progress(h, run, p, key, b, t)
    ensures Progress(h, run, p, key, b, t + 1)
  {
    var pc := run.states[t].readers[p].pc;
    if pc.LoadArena? {
      ProgressLoadArena(h, run, p, key, b, t);
    } else if pc.CheckSlot? || pc.CheckArena? || pc.Done? {
      ProgressLoadCheck(h, run, p, key, b, t);
    } else {
      ProgressLoadData(h, run, p, key, b, t);
    }
  }

  /** Somebody else moves; the reader stands still. */
  ghost predicate StandsAt(h: Hash, run: Run, p: Pid, key: Key, t: nat) {
    && t + 1 < |run.states|
    && SysInv(run.states[t]) && SysInv(run.states[t + 1])
    && run.states[t].mem.arenaSeq <= run.states[t + 1].mem.arenaSeq
    && (forall x | 0 <= x < SLOTS :: run.states[t].mem.slots[x] <= run.states[t + 1].mem.slots[x])
    && p in run.states[t].readers && p in run.states[t + 1].readers
    && run.states[t].readers[p].key == key
    && run.states[t + 1].readers[p] == run.states[t].readers[p]
    && Undisturbed(h, run.states[t].mem, run.states[t + 1].mem, key)
  }

  lemma ProgressOtherData(h: Hash, run: Run, p: Pid, key: Key, b: nat, t: nat)
    requires b < t && StandsAt(h, run, p, key, t)
    requires InData(run.states[t].readers[p].pc) && Progress(h, run, p, key, b, t)
    ensures Progress(h, run, p, key, b, t + 1)
  {
    var m := run.states[t].mem;
    var m' := run.states[t + 1].mem;
    var r := run.states[t].readers[p];
    if Steady(h, m', r) {
      SafeSound(m, run.states[t].todo);
      CalmFacts(h, m.img, m'.img, key, r.pc);
      CalmLookup(h, m.img, m'.img, key);
      SawOnlyExtends(h, run, p, key, b, t, AsRead(Lookup(h, m.img, key)));
    }
  }

  lemma ProgressOther(h: Hash, run: Run, p: Pid, key: Key, b: nat, t: nat)
    requires b < t && StandsAt(h, run, p, key, t)
    requires Progress(h, run, p, key, b, t)
    ensures Progress(h, run, p, key, b, t + 1)
  {
    var m' := run.states[t + 1].mem;
    var r := run.states[t].readers[p];
    if InData(r.pc) {
      ProgressOtherData(h, run, p, key, b, t);
    } else if r.pc.CheckArena? && r.pc.s2 == r.s1 && m'.arenaSeq == r.a1 {
      SawOnlyExtends(h, run, p, key, b, t, r.pc.out);
    } else if r.pc.Done? && r.pc.out != Torn {
      SawOnlyExtends(h, run, p, key, b, t, r.pc.out);
    }
  }

  /** One step of memory as a key sees it: calm while its counters stand even, and intact once compaction is over. */
  ghost predicate Undisturbed(h: Hash, m: Mem, m': Mem, key: Key)
    requires MemOk(m) && MemOk(m')
  {
    var x := SlotOf(h(key));
    && (!Odd(m.arenaSeq) && !Odd(m.slots[x]) ==>
          Calm(h, m.img, m'.img, key) && (Intact(h, m.img, key) ==> Intact(h, m'.img, key)))
    && (Odd(m.arenaSeq) && !Odd(m'.arenaSeq) ==> Intact(h, m'.img, key))
  }

  lemma StepUndisturbed(h: Hash, s: Sys, s': Sys, step: Step, key: Key)
    requires SysInv(s) && SysInv(s') && Next(h, s, s', step)
    requires step.DoStore? ==> !Disturbs(h, s.mem, s.todo[0], key)
    ensures Undisturbed(h, s.mem, s'.mem, key)
  {
    if step.DoStore? {
      assert Disciplined(s.mem, s.todo[0]);
      if !Odd(s.mem.arenaSeq) && !Odd(s.mem.slots[SlotOf(h(key))]) {
        CalmStore(h, s.mem, s.todo[0], key);
      }
    }
  }

  /** The first load of the read. */
  lemma ProgressStarts(h: Hash, run: Run, p: Pid, key: Key, b: nat)
    requires b + 1 < |run.states| && LoadsAt(h, run, p, key, b)
    requires run.states[b].readers[p].pc == LoadSlot
    requires AtRest(h, run.states[b].mem, key) ==> Intact(h, run.states[b].mem.img, key)
    ensures Progress(h, run, p, key, b, b + 1)
  {
  }

  /** Either the reader made this step, or it stood still. */
  lemma LoadsOrStands(h: Hash, run: Run, p: Pid, key: Key, b: nat, e: nat, t: nat)
    requires IsRun(h, run) && OneRead(run, p, key, b, e) && b <= t < e
    requires SysInv(run.states[t])
    ensures LoadsAt(h, run, p, key, t) || (t != b && run.states[t + 1].readers[p] == run.states[t].readers[p])
  {
    assert StepsAt(h, run, t);
    assert p in run.states[t + 1].readers && !run.states[t + 1].readers[p].pc.LoadSlot?;
  }

  /** What one step of a run does to memory, as a key being read sees it. */
  lemma RunStep(h: Hash, run: Run, key: Key, b: nat, e: nat, t: nat)
    requires IsRun(h, run) && b <= t < e < |run.states| && NoneReclaimed(h, run, key, b, e)
    ensures SysInv(run.states[t]) && SysInv(run.states[t + 1])
    ensures run.states[t].mem.arenaSeq <= run.states[t + 1].mem.arenaSeq
    ensures forall x | 0 <= x < SLOTS :: run.states[t].mem.slots[x] <= run.states[t + 1].mem.slots[x]
    ensures Undisturbed(h, run.states[t].mem, run.states[t + 1].mem, key)
  {
    RunKeepsInv(h, run, t);
    RunKeepsInv(h, run, t + 1);
    assert StepsAt(h, run, t);
    StepCounters(h, run.states[t], run.states[t + 1], run.steps[t]);
    assert run.steps[t].DoStore? ==> !Disturbs(h, run.states[t].mem, run.states[t].todo[0], key);
    StepUndisturbed(h, run.states[t], run.states[t + 1], run.steps[t], key);
  }

  lemma ProgressStep(h: Hash, run: Run, p: Pid, key: Key, b: nat, e: nat, t: nat)
    requires IsRun(h, run) && OneRead(run, p, key, b, e) && NoneReclaimed(h, run, key, b, e)
    requires b < t < e && Progress(h, run, p, key, b, t)
    ensures Progress(h, run, p, key, b, t + 1)
  {
    RunStep(h, run, key, b, e, t);
    LoadsOrStands(h, run, p, key, b, e, t);
    if LoadsAt(h, run, p, key, t) {
      ProgressLoad(h, run, p, key, b, t);
    } else {
      ProgressOther(h, run, p, key, b, t);
    }
  }

  lemma ProgressFirst(h: Hash, run: Run, p: Pid, key: Key, b: nat, e: nat)
    requires IsRun(h, run) && OneRead(run, p, key, b, e) && NoneReclaimed(h, run, key, b, e)
    ensures Progress(h, run, p, key, b, b + 1)
  {
    RunKeepsInv(h, run, b);
    LoadsOrStands(h, run, p, key, b, e, b);
    ProgressStarts(h, run, p, key, b);
  }

  ghost predicate ProgressUpTo(h: Hash, run: Run, p: Pid, key: Key, b: nat, t: nat)
    requires t < |run.states|
  {
    forall u | b < u <= t :: Progress(h, run, p, key, b, u)
  }

  lemma {:induction false} ProgressHolds(h: Hash, run: Run, p: Pid, key: Key, b: nat, e: nat, t: nat)
    requires IsRun(h, run) && OneRead(run, p, key, b, e) && NoneReclaimed(h, run, key, b, e)
    requires b < t <= e
    ensures ProgressUpTo(h, run, p, key, b, t)
    decreases t
  {
    if t == b + 1 {
      ProgressFirst(h, run, p, key, b, e);
    } else {
      ProgressHolds(h, run, p, key, b, e, t - 1);
      ProgressStep(h, run, p, key, b, e, t - 1);
    }
  }

  /**
   * In every run, a read that is not torn returns exactly what its key held: at each of its data loads, of which there
   * is at least one, a search of the unchanging segment would have given that same answer.
   */
  lemma ReadIsAtomic(h: Hash, run: Run, p: Pid, key: Key, b: nat, e: nat)
    requires IsRun(h, run) && OneRead(run, p, key, b, e) && NoneReclaimed(h, run, key, b, e)
    ensures var out := run.states[e].readers[p].pc.out;
            out == Torn || SawOnly(h, run, p, key, b, e, out)
  {
    ProgressHolds(h, run, p, key, b, e, e);
    assert Progress(h, run, p, key, b, e);
  }

  // ---------------------------------------------- changes are announced --

  /**
   * Whenever a step changes what a key reads as, the key's own counter stands odd, or a compaction or clear holds the
   * arena counter odd. Reclaiming a tombstone that carries the key's hash is the one exception.
   */
  lemma ChangeIsAnnounced(h: Hash, run: Run, t: nat, key: Key)
    requires IsRun(h, run) && t < |run.steps|
    requires var s := run.states[t];
             MemOk(s.mem) && Intact(h, s.mem.img, key)
             && (run.steps[t].DoStore? && |s.todo| > 0 ==> !Disturbs(h, s.mem, s.todo[0], key))
    ensures var m := run.states[t].mem;
            var m' := run.states[t + 1].mem;
            && MemOk(m')
            && (Lookup(h, m'.img, key) != Lookup(h, m.img, key) ==> Odd(m.slots[SlotOf(h(key))]) || Odd(m.arenaSeq))
  {
    RunKeepsInv(h, run, t);
    assert StepsAt(h, run, t);
    StepAnnounced(h, run.states[t], run.states[t + 1], run.steps[t], key);
  }

  lemma StepAnnounced(h: Hash, s: Sys, s': Sys, step: Step, key: Key)
    requires SysInv(s) && Next(h, s, s', step) && Intact(h, s.mem.img, key)
    requires step.DoStore? ==> !Disturbs(h, s.mem, s.todo[0], key)
    ensures MemOk(s'.mem)
    ensures Lookup(h, s'.mem.img, key) != Lookup(h, s.mem.img, key) ==>
              Odd(s.mem.slots[SlotOf(h(key))]) || Odd(s.mem.arenaSeq)
  {
    NextKeepsInv(h, s, s', step);
    StepUndisturbed(h, s, s', step, key);
    if !Odd(s.mem.slots[SlotOf(h(key))]) && !Odd(s.mem.arenaSeq) {
      SafeSound(s.mem, s.todo);
      CalmLookup(h, s.mem.img, s'.mem.img, key);
    }
  }

  // ------------------------------------------------------ reads in quiet --

  /** A reader making its next `n` loads from memory that stands still. */
  function Continue(h: Hash, m: Mem, r: Reader, n: nat): Reader
    requires MemOk(m)
    decreases n
  {
    if n == 0 then r else Continue(h, m, ReaderStep(h, m, r), n - 1)
  }

  /** The counter checks pass. */
  lemma ContinueChecks(h: Hash, m: Mem, r: Reader)
    requires MemOk(m) && r.pc.CheckSlot?
    requires m.slots[SlotOf(h(r.key))] == r.s1 && m.arenaSeq == r.a1
    ensures Continue(h, m, r, 2).pc == Done(r.pc.out)
  {
    var r1 := ReaderStep(h, m, r);
    assert Continue(h, m, r, 2) == Continue(h, m, r1, 1) == Continue(h, m, ReaderStep(h, m, r1), 0);
  }

  /** Which stage of a read a load belongs to, how many buckets it has left, and how far into one it is. */
  function Stage(pc: Pc): nat {
    match pc
    case ReloadStatus(_) => 2
    case LoadValOff(_) => 2
    case LoadValLen(_, _) => 2
    case Copy(_, _, _) => 1
    case CheckSlot(_) => 0
    case _ => 3
  }

  function BucketsLeft(pc: Pc): int {
    match pc
    case LoadStatus(j) => MAX_PROBES - j
    case LoadHash(j) => MAX_PROBES - j
    case LoadKeyOff(j) => MAX_PROBES - j
    case LoadKeyLen(j, _) => MAX_PROBES - j
    case Compare(j, _, _) => MAX_PROBES - j
    case _ => 0
  }

  function LoadsLeft(key: Key, pc: Pc): int {
    match pc
    case LoadStatus(_) => |key| + 4
    case LoadHash(_) => |key| + 3
    case LoadKeyOff(_) => |key| + 2
    case LoadKeyLen(_, _) => |key| + 1
    case Compare(_, _, n) => |key| - n
    case ReloadStatus(_) => 3
    case LoadValOff(_) => 2
    case LoadValLen(_, _) => 1
    case Copy(_, len, got) => len - |got|
    case _ => 0
  }

  /** Each data load is a step towards the counter checks. */
  lemma {:induction false} LoadAdvances(h: Hash, m: Mem, r: Reader)
    requires MemOk(m) && RawInv(m.img)
    requires InData(r.pc) && !r.pc.CheckSlot? && Facts(h, m.img, r.key, r.pc)
    ensures var pc := ReaderStep(h, m, r).pc;
            || Stage(pc) < Stage(r.pc)
            || (Stage(pc) == Stage(r.pc) && 0 <= BucketsLeft(pc) < BucketsLeft(r.pc))
            || (Stage(pc) == Stage(r.pc) && BucketsLeft(pc) == BucketsLeft(r.pc) && 0 <= LoadsLeft(r.key, pc) < LoadsLeft(r.key, r.pc))
  {
    LoadKeepsFacts(h, m, r);
  }

  lemma {:induction false} QuietDataFinishes(h: Hash, m: Mem, r: Reader) returns (n: nat)
    requires MemOk(m) && RawInv(m.img) && Steady(h, m, r)
    requires InData(r.pc) && Facts(h, m.img, r.key, r.pc)
    ensures Continue(h, m, r, n).pc == Done(AsRead(Lookup(h, m.img, r.key)))
    decreases Stage(r.pc), BucketsLeft(r.pc), LoadsLeft(r.key, r.pc)
  {
    if r.pc.CheckSlot? {
      ContinueChecks(h, m, r);
      n := 2;
    } else {
      LoadKeepsFacts(h, m, r);
      LoadAdvances(h, m, r);
      n := QuietDataFinishes(h, m, ReaderStep(h, m, r));
      n := n + 1;
    }
  }

  /**
   * With nobody writing, the loads of a read always come to an end: torn at once if a counter is odd, and otherwise with
   * exactly what a search of the segment finds.
   */
  lemma QuietReadFinishes(h: Hash, m: Mem, key: Key) returns (n: nat)
    requires MemOk(m) && RawInv(m.img)
    ensures Continue(h, m, Reader(key, 0, 0, LoadSlot), n).pc ==
            Done(if Odd(m.slots[SlotOf(h(key))]) || Odd(m.arenaSeq) then Torn else AsRead(Lookup(h, m.img, key)))
  {
    var r1 := ReaderStep(h, m, Reader(key, 0, 0, LoadSlot));
    var r2 := ReaderStep(h, m, r1);
    if Odd(m.slots[SlotOf(h(key))]) || Odd(m.arenaSeq) {
      n := 2;
      assert Continue(h, m, Reader(key, 0, 0, LoadSlot), 2) == Continue(h, m, r1, 1) == Continue(h, m, r2, 0);
    } else {
      n := QuietDataFinishes(h, m, r2);
      n := n + 2;
      assert Continue(h, m, Reader(key, 0, 0, LoadSlot), n) == Continue(h, m, r1, n - 1) == Continue(h, m, r2, n - 2);
    }
  }
}
