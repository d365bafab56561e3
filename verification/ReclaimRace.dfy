/**
 * Why the lock-free read theorem excludes reclaimed tombstones: a writer of another key may claim the bucket a reader
 * has just found, and it moves only its own key's counter, so the reader's counter checks notice nothing.
 */
module ReclaimRace {
  import opened Layout
  import opened Index
  import opened Operations
  import opened Refinement
  import opened Compaction
  import opened MapRefinement
  import opened Discipline
  import opened Seqlock
  import opened LockFreeRead

  lemma {:induction false} ContinueCopy(h: Hash, m: Mem, r: Reader, rest: nat)
    requires MemOk(m) && r.pc.Copy?
    requires var (off, len, got) := (r.pc.off, r.pc.len, r.pc.got);
             |got| < len && off + len <= ARENA_SIZE && got == m.img.arena[off..off + |got|]
    ensures Continue(h, m, r, r.pc.len - |r.pc.got| + rest) ==
            Continue(h, m, r.(pc := CheckSlot(Value(m.img.arena[r.pc.off..r.pc.off + r.pc.len]))), rest)
    decreases r.pc.len - |r.pc.got|
  {
    var (off, len, got) := (r.pc.off, r.pc.len, r.pc.got);
    assert m.img.arena[off..off + |got| + 1] == got + [m.img.arena[off + |got|]];
    if |got| + 1 < len {
      ContinueCopy(h, m, ReaderStep(h, m, r), rest);
    }
  }

  /** From a live bucket on, with its own counters unmoved, a reader returns whatever value the bucket now has. */
  lemma ContinueLive(h: Hash, m: Mem, r: Reader)
    requires MemOk(m) && r.pc.ReloadStatus?
    requires m.slots[SlotOf(h(r.key))] == r.s1 && m.arenaSeq == r.a1
    requires var e := EntryOf(h, m, r.key, r.pc.j);
             e.status == Live && e.valOff + e.valLen <= ARENA_SIZE
    ensures var e := EntryOf(h, m, r.key, r.pc.j);
            Continue(h, m, r, e.valLen + 5).pc == Done(Value(Text(m.img.arena, e.valOff, e.valLen)))
  {
    var e := EntryOf(h, m, r.key, r.pc.j);
    var (r1, v) := (ReaderStep(h, m, r), Text(m.img.arena, e.valOff, e.valLen));
    var r2 := ReaderStep(h, m, r1);
    var r3 := ReaderStep(h, m, r2);
    var r4 := r.(pc := CheckSlot(Value(v)));
    ContinueThree(h, m, r, e.valLen + 2);
    if e.valLen > 0 {
      ContinueCopy(h, m, r3, 2);
    } else {
      assert v == [] && r3 == r4;
    }
    ContinueChecks(h, m, r4);
  }

  lemma ContinueThree(h: Hash, m: Mem, r: Reader, n: nat)
    requires MemOk(m)
    ensures Continue(h, m, r, n + 3) == Continue(h, m, ReaderStep(h, m, ReaderStep(h, m, ReaderStep(h, m, r))), n)
  {
    var r1 := ReaderStep(h, m, r);
    assert Continue(h, m, r, n + 3) == Continue(h, m, r1, n + 2) == Continue(h, m, ReaderStep(h, m, r1), n + 1);
  }

  /** What a put leaves in the tombstone it claims. */
  lemma PutClaims(h: Hash, m: Mem, other: Key, val: Bytes, dirty: bool, i: nat)
    requires MemOk(m) && Inv(h, m.img)
    requires Probe(h, m.img, other) == Some((i, false)) && !CompactsFor(m.img, |other| + |val|)
    ensures var m' := Put(h, m, other, val, dirty).mem;
            var e := m'.img.index[i];
            && e.status == Live && e.valLen == |val| && e.valOff + e.valLen <= ARENA_SIZE && Text(m'.img.arena, e.valOff, e.valLen) == val
            && m'.arenaSeq == m.arenaSeq && m'.slots == BumpSlot(m.slots, SlotOf(h(other)))
  {
    var a := Alloc(m.img, val).value;
    AllocGrows(m.img, val);
    AllocGrows(a, other);
    TextFrame(a.arena, Alloc(a, other).value.arena, a.used, m.img.used, |val|);
  }

  /**
   * Between any two honest loads: a reader that has found its key's clean tombstone and is paused before reloading the
   * bucket's state, while a put of another key, in another slot, claims that bucket. The reader then returns the other
   * key's value as its own key's, though its key has no value before the put or after it.
   */
  lemma ReclaimedReadIsWrong(h: Hash, m: Mem, r: Reader, other: Key, val: Bytes, dirty: bool)
    requires MemOk(m) && Inv(h, m.img)
    requires r.pc.ReloadStatus? && Facts(h, m.img, r.key, r.pc)
    requires Steady(h, m, r)
    requires Probe(h, m.img, other) == Some((Bucket(h(r.key), r.pc.j), false))
    requires SlotOf(h(other)) != SlotOf(h(r.key)) && !CompactsFor(m.img, |other| + |val|)
    ensures var m' := Put(h, m, other, val, dirty).mem;
            && Lookup(h, m.img, r.key) == None && Lookup(h, m'.img, r.key) == None
            && Continue(h, m', r, |val| + 5).pc == Done(Value(val))
  {
    var i := Bucket(h(r.key), r.pc.j);
    OfferedBucket(h, m.img, other);
    TombIsAbsent(h, m.img, r.key, other, i);
    OthersStayAbsent(h, m, r.key, other, val, dirty);
    PutClaims(h, m, other, val, dirty, i);
    ResumeAfter(h, m, Put(h, m, other, val, dirty).mem, r, SlotOf(h(other)));
  }

  /**
   * The get that made this read records its result with the counter it loaded beforehand. The counter still has that
   * value after the put, so every later get is a hit, and returns a value the key never had.
   */
  lemma ReclaimedHitIsWrong(h: Hash, m: Mem, r: Reader, other: Key, val: Bytes, dirty: bool, recorded: nat)
    requires MemOk(m) && Inv(h, m.img)
    requires r.pc.ReloadStatus? && Facts(h, m.img, r.key, r.pc)
    requires Steady(h, m, r) && recorded == m.slots[SlotOf(h(r.key))]
    requires Probe(h, m.img, other) == Some((Bucket(h(r.key), r.pc.j), false))
    requires SlotOf(h(other)) != SlotOf(h(r.key)) && !CompactsFor(m.img, |other| + |val|)
    ensures var m' := Put(h, m, other, val, dirty).mem;
            && recorded == m'.slots[SlotOf(h(r.key))] && !Odd(recorded)
            && Continue(h, m', r, |val| + 5).pc.Done?
            && Continue(h, m', r, |val| + 5).pc.out != AsRead(Lookup(h, m'.img, r.key))
  {
    OfferedBucket(h, m.img, other);
    PutClaims(h, m, other, val, dirty, Bucket(h(r.key), r.pc.j));
    ReclaimedReadIsWrong(h, m, r, other, val, dirty);
  }

  lemma ResumeAfter(h: Hash, m: Mem, m': Mem, r: Reader, x: nat)
    requires MemOk(m) && MemOk(m') && r.pc.ReloadStatus?
    requires Steady(h, m, r) && x < SLOTS && x != SlotOf(h(r.key))
    requires m'.arenaSeq == m.arenaSeq && m'.slots == BumpSlot(m.slots, x)
    requires var e := EntryOf(h, m', r.key, r.pc.j);
             e.status == Live && e.valOff + e.valLen <= ARENA_SIZE
    ensures var e := EntryOf(h, m', r.key, r.pc.j);
            Continue(h, m', r, e.valLen + 5).pc == Done(Value(Text(m'.img.arena, e.valOff, e.valLen)))
  {
    ContinueLive(h, m', r);
  }

  lemma TombIsAbsent(h: Hash, img: Image, key: Key, other: Key, i: nat)
    requires Inv(h, img)
    requires i < INDEX_SLOTS && HoldsAt(h, img, i, key) && Claimable(img.index[i])
    requires forall j | 0 <= j < INDEX_SLOTS && InUse(img.index[j]) :: KeyAt(img, j) != other
    ensures key !in Abs(img) && key != other
  {
    assert EntryOk(h, img, i) && KeyAt(img, i) == key;
    if key in Abs(img) {
      var j := AbsHas(img, key);
    }
  }

  /** A key with no value has none after a put of another. */
  lemma OthersStayAbsent(h: Hash, m: Mem, key: Key, other: Key, val: Bytes, dirty: bool)
    requires MemOk(m) && Inv(h, m.img) && !CompactsFor(m.img, |other| + |val|)
    requires key !in Abs(m.img) && key != other
    ensures Lookup(h, m.img, key) == None && Lookup(h, Put(h, m, other, val, dirty).mem.img, key) == None
  {
    PutRefines(h, m, other, val, dirty);
    LookupIsAbs(h, m.img, key);
    LookupIsAbs(h, Put(h, m, other, val, dirty).mem.img, key);
  }
}
