/** Two tables of two entries each, on which the read race happens and a writer's death hides a live key. */
module SmallTables {
  import opened Layout
  import opened Index
  import opened Operations
  import opened Compaction
  import opened Stores
  import opened Discipline
  import opened Seqlock
  import opened LockFreeRead
  import opened ReclaimRace
  import opened WriterDeath
  import opened ClaimDeath

  /** Buckets 5 and 6 in use, and nothing else. */
  function TwoEntries(e: Entry, f: Entry, bytes: Bytes): (r: Mem)
    requires |bytes| <= ARENA_SIZE
    ensures MemOk(r)
  {
    Mem(Image(seq(INDEX_SLOTS, _ => EMPTY_ENTRY)[5 := e][6 := f], bytes + seq(ARENA_SIZE - |bytes|, _ => 0), |bytes|, 0),
        seq(SLOTS, _ => 0), 0)
  }

  /** Two entries make a sound table if each is in order, within reach, and of a key of its own. */
  lemma TwoEntriesInv(h: Hash, e: Entry, f: Entry, bytes: Bytes)
    requires |bytes| <= ARENA_SIZE && InUse(e) && InUse(f)
    requires var img := TwoEntries(e, f, bytes).img;
             EntryOk(h, img, 5) && EntryOk(h, img, 6) && KeyAt(img, 5) != KeyAt(img, 6)
    requires e.hash == 5 && (f.hash == 5 || f.hash == 6)
    requires UsedSize(e) + UsedSize(f) <= |bytes|
    ensures Inv(h, TwoEntries(e, f, bytes).img)
  {
    var img := TwoEntries(e, f, bytes).img;
    var none := seq(INDEX_SLOTS, _ => EMPTY_ENTRY);
    TotalZero(none);
    TotalUpdate(UsedSize, none, 5, e);
    TotalUpdate(UsedSize, none[5 := e], 6, f);
    forall i | 0 <= i < INDEX_SLOTS
      ensures EntryOk(h, img, i) && Reachable(img, i)
    {
      if i == 6 {
        assert Dist(f.hash, 6) == 6 - f.hash;
        assert Bucket(5, 0) == 5;
      } else if i == 5 {
        assert Dist(5, 5) == 0;
      }
    }
  }

  // ------------------------------------------------------- the read race --

  /** The key `[2]` starts at bucket 6, and every other at bucket 5. */
  function RaceHash(key: Key): HashValue {
    if key == [2] then 6 else 5
  }

  /** Bucket 5 holds the live key `[1]`, and bucket 6 the clean tombstone of `[2]`. */
  function RaceMem(): Mem {
    TwoEntries(Entry(5, 0, 1, 2, 0, Live, true), Entry(6, 1, 1, 0, 0, Tomb, false), [1, 2])
  }

  /** The reader of `[2]` once it has compared the key, and before it reloads the bucket's state. */
  const PAUSED: Reader := Reader([2], 0, 0, ReloadStatus(0))

  lemma RaceTable()
    ensures MemOk(RaceMem()) && Inv(RaceHash, RaceMem().img)
    ensures Probe(RaceHash, RaceMem().img, [3]) == Some((6, false))
    ensures HoldsAt(RaceHash, RaceMem().img, 6, [2])
  {
    var img := RaceMem().img;
    assert img.arena[0..1] == [1] && img.arena[1..2] == [2];
    TwoEntriesInv(RaceHash, img.index[5], img.index[6], [1, 2]);
    assert ProbeFrom(RaceHash, img, [3], 2, Some(6)) == Some((6, false));
    assert ProbeFrom(RaceHash, img, [3], 1, None) == Some((6, false));
  }

  /** A read of `[2]` comes to that point in seven loads. */
  lemma RaceReader()
    ensures Continue(RaceHash, RaceMem(), Reader([2], 7, 7, LoadSlot), 7) == PAUSED
    ensures Facts(RaceHash, RaceMem().img, [2], PAUSED.pc) && Steady(RaceHash, RaceMem(), PAUSED)
  {
    RaceTable();
    RacePlaces();
    var m := RaceMem();
    assert m.img.index[6] == Entry(6, 1, 1, 0, 0, Tomb, false) && m.img.arena[1] == 2;
    RaceLoads(m);
  }

  lemma RaceLoads(m: Mem)
    requires MemOk(m) && m.slots[6] == 0 && m.arenaSeq == 0
    requires m.img.index[6] == Entry(6, 1, 1, 0, 0, Tomb, false) && m.img.arena[1] == 2
    ensures Continue(RaceHash, m, Reader([2], 7, 7, LoadSlot), 7) == PAUSED
  {
    RacePlaces();
    var r0 := Reader([2], 7, 7, LoadSlot);
    var r3 := ReaderStep(RaceHash, m, ReaderStep(RaceHash, m, ReaderStep(RaceHash, m, r0)));
    assert r3 == Reader([2], 0, 0, LoadHash(0));
    var r6 := ReaderStep(RaceHash, m, ReaderStep(RaceHash, m, ReaderStep(RaceHash, m, r3)));
    assert r6 == Reader([2], 0, 0, Compare(0, 1, 0));
    ContinueThree(RaceHash, m, r0, 4);
    ContinueThree(RaceHash, m, r3, 1);
    assert ReaderStep(RaceHash, m, r6) == PAUSED;
    assert Continue(RaceHash, m, PAUSED, 0) == PAUSED;
  }

  /** A sound segment in which a reader of `[2]` may be paused so, and `[3]` is offered the tombstone. */
  ghost predicate RaceReady(m: Mem) {
    && MemOk(m) && Inv(RaceHash, m.img) && m.img.used == 2 && m.img.garbage == 0
    && Continue(RaceHash, m, Reader([2], 7, 7, LoadSlot), 7) == PAUSED
    && Facts(RaceHash, m.img, [2], PAUSED.pc) && Steady(RaceHash, m, PAUSED)
    && Probe(RaceHash, m.img, [3]) == Some((6, false))
  }

  lemma RaceSetting() returns (m: Mem)
    ensures RaceReady(m)
  {
    m := RaceMem();
    RaceTable();
    RaceReader();
  }

  /**
   * While the reader is paused there, `[3]` is set to `val` and claims the tombstone, from another slot. The reader
   * returns `val`, and its get records that with the counter it loaded: every hit on `[2]` returns `val` from then on.
   * But `[2]` has no value before the set or after it.
   */
  lemma RaceHappens(val: Bytes) returns (m: Mem)
    requires |val| < ARENA_SIZE - 3
    ensures RaceReady(m)
    ensures var m' := Put(RaceHash, m, [3], val, true).mem;
            && Lookup(RaceHash, m.img, [2]) == None && Lookup(RaceHash, m'.img, [2]) == None
            && Continue(RaceHash, m', PAUSED, |val| + 5).pc == Done(Value(val))
            && m'.slots[SlotOf(RaceHash([2]))] == m.slots[SlotOf(RaceHash([2]))]
  {
    m := RaceSetting();
    RacePlaces();
    RaceRuns(RaceHash, m, PAUSED, [3], val);
  }

  /** The tombstone is in the first bucket of `[2]`, and the two keys are in different slots. */
  lemma RacePlaces()
    ensures Bucket(RaceHash([2]), 0) == 6 && SlotOf(RaceHash([2])) == 6 && SlotOf(RaceHash([3])) == 5
  {
    assert [3 as byte][0] != [2 as byte][0];
  }

  lemma RaceRuns(h: Hash, m: Mem, r: Reader, other: Key, val: Bytes)
    requires MemOk(m) && Inv(h, m.img)
    requires r.pc.ReloadStatus? && Facts(h, m.img, r.key, r.pc) && Steady(h, m, r)
    requires Probe(h, m.img, other) == Some((Bucket(h(r.key), r.pc.j), false))
    requires SlotOf(h(other)) != SlotOf(h(r.key)) && !CompactsFor(m.img, |other| + |val|)
    ensures var m' := Put(h, m, other, val, true).mem;
            && Lookup(h, m.img, r.key) == None && Lookup(h, m'.img, r.key) == None
            && Continue(h, m', r, |val| + 5).pc == Done(Value(val))
            && m'.slots[SlotOf(h(r.key))] == m.slots[SlotOf(h(r.key))]
  {
    ReclaimedReadIsWrong(h, m, r, other, val, true);
    ReclaimedHitIsWrong(h, m, r, other, val, true, m.slots[SlotOf(h(r.key))]);
  }

  // --------------------------------------------------------- the hidden key --

  function OneHash(key: Key): HashValue {
    5
  }

  /** Bucket 5 is the clean tombstone of `[7]`, and bucket 6 holds the live key `[1]`, never written to disk. */
  function HideMem(): Mem {
    TwoEntries(Entry(5, 0, 1, 0, 0, Tomb, false), Entry(5, 1, 1, 2, 0, Live, true), [7, 1])
  }

  lemma HideTable()
    ensures MemOk(HideMem()) && Inv(OneHash, HideMem().img)
    ensures Probe(OneHash, HideMem().img, [1, 9]) == Some((5, false))
    ensures Probe(OneHash, HideMem().img, [1]) == Some((6, true))
  {
    var img := HideMem().img;
    assert img.arena[0..1] == [7] && img.arena[1..2] == [1];
    TwoEntriesInv(OneHash, img.index[5], img.index[6], [7, 1]);
    assert ProbeFrom(OneHash, img, [1, 9], 2, Some(5)) == Some((5, false));
    assert ProbeFrom(OneHash, img, [1, 9], 1, Some(5)) == Some((5, false));
    assert HoldsAt(OneHash, img, 6, [1]);
    assert ProbeFrom(OneHash, img, [1], 1, Some(5)) == Some((6, true));
  }

  /** The two entries, and where searches end. */
  ghost predicate HideReady(m: Mem) {
    && MemOk(m) && Inv(OneHash, m.img) && m.img.used == 2
    && m.img.index[5] == Entry(5, 0, 1, 0, 0, Tomb, false) && m.img.index[6] == Entry(5, 1, 1, 2, 0, Live, true)
    && Probe(OneHash, m.img, [1]) == Some((6, true)) && Probe(OneHash, m.img, [1, 9]) == Some((5, false))
  }

  lemma HideSetting() returns (m: Mem)
    ensures HideReady(m)
  {
    m := HideMem();
    HideTable();
  }

  lemma HideHides(m: Mem)
    requires HideReady(m)
    ensures Hides(OneHash, m.img, 5, [1, 9], [], [1])
    ensures Lookup(OneHash, m.img, [1]) == Some([])
  {
    HideShadows(m.img);
    HideBytes(m.img);
  }

  lemma HideShadows(img: Image)
    requires WellSized(img) && Probe(OneHash, img, [1]) == Some((6, true))
    requires img.index[5] == Entry(5, 0, 1, 0, 0, Tomb, false) && img.index[6] == Entry(5, 1, 1, 2, 0, Live, true)
    ensures Shadows(OneHash, img, 5, [1]) && Lookup(OneHash, img, [1]) == Some([])
  {
    assert Dist(5, 5) == 0 && Dist(5, 6) == 1;
    FoundAt(OneHash, img, [1], 6);
    ShadowedBy(OneHash, img, [1], 5, 6);
  }

  lemma ShadowedBy(h: Hash, img: Image, k: Key, i: nat, f: nat)
    requires WellSized(img) && i < INDEX_SLOTS && f < INDEX_SLOTS && FoundBucket(h, img, k) == Some(f)
    requires CleanTomb(img.index[i]) && img.index[i].hash == h(k) && img.index[i].keyLen == |k|
    requires Dist(h(k), i) < Dist(h(k), f)
    ensures Shadows(h, img, i, k)
  {
  }

  lemma FoundAt(h: Hash, img: Image, k: Key, f: nat)
    requires WellSized(img) && f < INDEX_SLOTS && Probe(h, img, k) == Some((f, true))
    requires img.index[f].status == Live && img.index[f].valOff == 2 && img.index[f].valLen == 0
    ensures FoundBucket(h, img, k) == Some(f) && Lookup(h, img, k) == Some([])
  {
    assert Text(img.arena, 2, 0) == [];
  }

  lemma HideBytes(img: Image)
    requires WellSized(img) && img.used == 2
    ensures ArenaEq(Allocated(img, [1, 9], []).arena, 2, 1, [1])
  {
    assert Allocated(img, [1, 9], []).arena[2..3] == [1];
  }

  /** Setting `[1, 9]` here claims bucket 5, and a writer that dies after some store of it takes `[1]` with it. */
  lemma HidingHappens() returns (m: Mem, n: nat)
    ensures HideReady(m) && Hides(OneHash, m.img, 5, [1, 9], [], [1])
    ensures Lookup(OneHash, m.img, [1]) == Some([])
    ensures n <= |PutLockedScript(OneHash, m.img, 5, false, [1, 9], [], true)|
    ensures ReadsAfterDeath(OneHash, m, 5, [1, 9], [], true, n, [1]) == None
  {
    m := HideSetting();
    HideHides(m);
    SoundIsResidue(OneHash, m.img);
    n := DeathCanHide(OneHash, m, 5, [1, 9], [], true, [1]);
  }
}
