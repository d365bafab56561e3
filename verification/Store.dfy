/** One attached process: the segment seen through its private cache, when nobody else is running. */
module ProcessStore {
  import opened Layout
  import opened Index
  import opened Operations
  import opened Refinement
  import opened Compaction
  import opened MapRefinement
  import opened Stores
  import opened Discipline
  import opened Seqlock
  import opened SharedSegment
  import opened PrivateCache
  import opened Names
  import opened Layers
  import opened WriterDeath

  const MAX_SEQ_RETRIES: nat := 1000

  /** A copy of `key` recorded at `seen`: not newer than the counter, and current if the counter has not moved. */
  ghost predicate Good(h: Hash, m: Mem, key: Key, seen: nat, text: Option<Bytes>) {
    && MemOk(m) && seen <= m.slots[SlotOf(h(key))]
    && (seen == m.slots[SlotOf(h(key))] ==> text == Lookup(h, m.img, key))
  }

  /** The put either changes nothing it is not asked to, or lost an entry to compaction. */
  ghost predicate DropsNothing(h: Hash, m: Mem, key: Key, val: Bytes)
    requires MemOk(m)
  {
    PutCompacts(h, m, key, val) ==> Lossless(h, m.img)
  }

  /** The put needs a compaction, and that gives up this key's value. */
  ghost predicate Forgets(h: Hash, m: Mem, key: Key, val: Bytes, k: Key)
    requires MemOk(m)
  {
    PutCompacts(h, m, key, val) && Lookup(h, Compact(h, m.img), k) != Lookup(h, m.img, k)
  }

  lemma NothingForgotten(h: Hash, m: Mem, key: Key, val: Bytes, k: Key)
    requires MemOk(m) && Inv(h, m.img) && DropsNothing(h, m, key, val)
    ensures !Forgets(h, m, key, val, k)
  {
    CompactKeepsMeaning(h, m.img);
    LookupIsAbs(h, m.img, k);
    LookupIsAbs(h, Compact(h, m.img), k);
  }

  /**
   * A copy stays good through a put exactly when the put's compaction does not give up its key's value, or the counter
   * has moved on since the copy was recorded, or moves now because the put lands on the same slot.
   */
  lemma PutKeepsGood(h: Hash, m: Mem, key: Key, val: Bytes, k: Key, seen: nat, text: Option<Bytes>)
    requires Good(h, m, k, seen, text) && Inv(h, m.img)
    ensures var r := Put(h, m, key, val, true);
            Good(h, r.mem, k, seen, text) <==>
              || !Forgets(h, m, key, val, k)
              || seen < m.slots[SlotOf(h(k))]
              || (r.ok && SlotOf(h(k)) == SlotOf(h(key)))
  {
    if !HoldsValue(h, m.img, key, val) {
      PutMovesSlot(h, m, key, val, true);
      PutReads(h, m, key, val, k);
    }
  }

  /** What each key reads as after a put that had a change to make. */
  lemma PutReads(h: Hash, m: Mem, key: Key, val: Bytes, k: Key)
    requires MemOk(m) && Inv(h, m.img) && !HoldsValue(h, m.img, key, val)
    ensures var r := Put(h, m, key, val, true);
            && WellSized(r.mem.img)
            && Lookup(h, r.mem.img, k) == if r.ok && k == key then Some(val)
                                          else Lookup(h, EnsureSpace(h, m, |key| + |val|).mem.img, k)
  {
    var (reserved, put) := (EnsureSpace(h, m, |key| + |val|).mem.img, Put(h, m, key, val, true));
    PutAfterReserving(h, m, key, val, true);
    ReadsOf(h, reserved, put.mem.img, if put.ok then PutMap(Abs(reserved), key, val, true) else Abs(reserved), k);
  }

  lemma ReadsOf(h: Hash, img: Image, img': Image, a: map<Key, Cell>, k: Key)
    requires Inv(h, img) && Inv(h, img') && Abs(img') == a
    ensures Lookup(h, img', k) == (if k in a then a[k].val else None)
    ensures Lookup(h, img, k) == (if k in Abs(img) then Abs(img)[k].val else None)
  {
    LookupIsAbs(h, img, k);
    LookupIsAbs(h, img', k);
  }

  // ------------------------------------------------ when a set succeeds --

  /** Every bucket that searches for the key look at is taken, by something that is not the key and may not be claimed. */
  ghost predicate FullRange(h: Hash, img: Image, key: Key)
    requires WellSized(img)
  {
    forall j | 0 <= j < MAX_PROBES ::
      !Claimable(img.index[Bucket(h(key), j)]) && !HoldsAt(h, img, Bucket(h(key), j), key)
  }

  lemma FullRangeExactly(h: Hash, img: Image, key: Key)
    requires WellSized(img)
    ensures Probe(h, img, key).None? <==> FullRange(h, img, key)
  {
    var n := ProbeStops(h, img, key);
    var p := Probe(h, img, key);
    if p.Some? && p.value.1 {
      assert p == Some((p.value.0, true));
      assert HoldsAt(h, img, Bucket(h(key), n), key);
    } else if p.Some? {
      assert p == Some((p.value.0, false));
      var d :| 0 <= d <= n && d < MAX_PROBES && p.value.0 == Bucket(h(key), d) && Claimable(img.index[p.value.0]);
      assert Claimable(img.index[Bucket(h(key), d)]);
    }
  }

  /** What the table looks like once a put has reserved its space. */
  function Reserved(h: Hash, m: Mem, key: Key, val: Bytes): (r: Image)
    requires MemOk(m)
    ensures WellSized(r)
  {
    EnsureSpace(h, m, |key| + |val|).mem.img
  }

  /** Key and value do not fit, before compacting or after; a key the table has already needs no room of its own. */
  ghost predicate TooLong(h: Hash, m: Mem, key: Key, val: Bytes)
    requires MemOk(m)
  {
    var r := Reserved(h, m, key, val);
    || (m.img.used + |key| + |val| > ARENA_SIZE && r.used + |key| + |val| > ARENA_SIZE)
    || r.used + |val| + (if FoundBucket(h, r, key).Some? then 0 else |key|) > ARENA_SIZE
  }

  /** A put that has a change to make fails exactly when it does not fit or finds no bucket, whatever has died before it. */
  ghost predicate Refuses(h: Hash, m: Mem, key: Key, val: Bytes)
    requires MemOk(m)
  {
    TooLong(h, m, key, val) || FullRange(h, Reserved(h, m, key, val), key)
  }

  lemma PutSucceedsExactly(h: Hash, m: Mem, key: Key, val: Bytes, dirty: bool)
    requires MemOk(m)
    ensures var r := Put(h, m, key, val, dirty);
            && (r.ok <==> HoldsValue(h, m.img, key, val) || !Refuses(h, m, key, val))
            && (r.ok && !HoldsValue(h, m.img, key, val) ==> r.mem.slots == BumpSlot(m.slots, SlotOf(h(key))))
  {
    FullRangeExactly(h, Reserved(h, m, key, val), key);
  }

  /** In a sound table that is when the bytes do not fit in what reserving left, or no bucket may be claimed. */
  lemma SoundRefusal(h: Hash, m: Mem, key: Key, val: Bytes)
    requires MemOk(m) && Inv(h, m.img)
    ensures Inv(h, Reserved(h, m, key, val))
    ensures TooLong(h, m, key, val) <==> Reserved(h, m, key, val).used + |key| + |val| > ARENA_SIZE
    ensures FullRange(h, Reserved(h, m, key, val), key) <==> NoRoom(h, Reserved(h, m, key, val), key)
  {
    var r := Reserved(h, m, key, val);
    EnsureSpaceRefines(h, m, |key| + |val|);
    CompactKeepsMeaning(h, m.img);
    KeptFits(h, m.img);
    FullRangeExactly(h, r, key);
    ProbeNoneExactly(h, r, key);
  }

  /** What a set does to the map, and to the copy it leaves behind. */
  lemma SetMeans(h: Hash, m: Mem, key: Key, val: Bytes)
    requires MemOk(m) && Inv(h, m.img) && DropsNothing(h, m, key, val)
    ensures var r := Put(h, m, key, val, true);
            && Inv(h, r.mem.img)
            && Abs(r.mem.img) == (if r.ok then PutMap(Abs(m.img), key, val, true) else Abs(m.img))
            && (r.ok ==> Lookup(h, r.mem.img, key) == Some(val))
  {
    PutRefines(h, m, key, val, true);
    HoldsValueIsMap(h, m.img, key, val);
    LookupIsAbs(h, Put(h, m, key, val, true).mem.img, key);
  }

  /** Setting a value that a search finds already there does nothing, whatever dead writers have left elsewhere. */
  lemma HeldSetIsFree(h: Hash, m: Mem, key: Key, val: Bytes, dirty: bool)
    requires MemOk(m) && RawInv(m.img)
    ensures HoldsValue(h, m.img, key, val) <==> Lookup(h, m.img, key) == Some(val)
    ensures Lookup(h, m.img, key) == Some(val) ==> Put(h, m, key, val, dirty) == Outcome(m, true)
  {
    var p := Probe(h, m.img, key);
    if p.Some? && p.value.1 && m.img.index[p.value.0].status == Live {
      assert RawEntry(m.img, p.value.0);
    }
  }

  /** A put keeps a segment in which writers have died sound enough to be searched. */
  lemma PutKeepsRaw(h: Hash, m: Mem, key: Key, val: Bytes, dirty: bool)
    requires MemOk(m) && !Odd(m.arenaSeq) && RawInv(m.img)
    ensures RawInv(Put(h, m, key, val, dirty).mem.img)
  {
    SafePut(h, m, key, val, dirty);
    SafeEnd(m, PutScript(h, m, key, val, dirty));
    PutApplies(h, m, key, val, dirty);
    ResultArenaEven(h, m, OpPut(key, val, dirty));
  }

  /** The bucket that a put of `key` writes is then the first that searches for the key take for its own. */
  lemma WrittenIsFound(h: Hash, img: Image, i: nat, found: bool, key: Key, val: Bytes, dirty: bool)
    requires WellSized(img) && Intact(h, img, key) && Probe(h, img, key) == Some((i, found))
    requires PutLocked(h, img, i, found, key, val, dirty).1
    ensures Lookup(h, PutLocked(h, img, i, found, key, val, dirty).0, key) == Some(val)
  {
    var img' := PutLocked(h, img, i, found, key, val, dirty).0;
    var n := ProbeStops(h, img, key);
    var d := WrittenAt(h, img, i, found, key, n);
    forall j | 0 <= j < d
      ensures InUse(img'.index[Bucket(h(key), j)]) && !HoldsAt(h, img', Bucket(h(key), j), key)
    {
      PassedStays(h, img, img', i, key, d, j);
    }
    WrittenHolds(h, img, i, found, key, val, dirty);
    ProbeFound(h, img', key, d);
  }

  lemma WrittenAt(h: Hash, img: Image, i: nat, found: bool, key: Key, n: nat) returns (d: nat)
    requires WellSized(img) && Probe(h, img, key) == Some((i, found)) && n <= MAX_PROBES && Passed(h, img, key, n)
    requires found ==> n < MAX_PROBES && i == Bucket(h(key), n)
    requires !found ==> exists d | 0 <= d <= n && d < MAX_PROBES :: i == Bucket(h(key), d) && Claimable(img.index[i])
    ensures d < MAX_PROBES && i == Bucket(h(key), d) && Passed(h, img, key, d)
  {
    if found {
      d := n;
    } else {
      d :| 0 <= d <= n && d < MAX_PROBES && i == Bucket(h(key), d) && Claimable(img.index[i]);
    }
  }

  lemma PassedStays(h: Hash, img: Image, img': Image, i: nat, key: Key, d: nat, j: nat)
    requires Rewrites(img, img', i) && Intact(h, img, key) && i == Bucket(h(key), d)
    requires j < d < MAX_PROBES && Passed(h, img, key, d)
    ensures InUse(img'.index[Bucket(h(key), j)]) && !HoldsAt(h, img', Bucket(h(key), j), key)
  {
    var b := Bucket(h(key), j);
    DistBucket(h(key), j);
    DistBucket(h(key), d);
    var e := img.index[b];
    if e.hash == h(key) {
      TextFrame(img.arena, img'.arena, img.used, e.keyOff, e.keyLen);
    }
  }

  lemma WrittenHolds(h: Hash, img: Image, i: nat, found: bool, key: Key, val: Bytes, dirty: bool)
    requires WellSized(img) && Intact(h, img, key) && i < INDEX_SLOTS && (found ==> HoldsAt(h, img, i, key))
    requires PutLocked(h, img, i, found, key, val, dirty).1
    ensures var img' := PutLocked(h, img, i, found, key, val, dirty).0;
            && Rewrites(img, img', i) && HoldsAt(h, img', i, key)
            && img'.index[i].status == Live && ValAt(img', i) == val
  {
    var a := Alloc(img, val).value;
    AllocGrows(img, val);
    if found {
      TextFrame(img.arena, a.arena, img.used, img.index[i].keyOff, img.index[i].keyLen);
    } else {
      AllocGrows(a, key);
      TextFrame(a.arena, Alloc(a, key).value.arena, a.used, img.used, |val|);
    }
  }

  /**
   * A set that succeeds is read back, whatever dead writers have left, unless one has left a bucket with the key's full
   * hash and its key half rewritten; and a compaction clears that away.
   */
  lemma SetIsReadBack(h: Hash, m: Mem, key: Key, val: Bytes, dirty: bool)
    requires MemOk(m) && !Odd(m.arenaSeq) && RawInv(m.img)
    requires Intact(h, m.img, key) || PutCompacts(h, m, key, val)
    ensures var r := Put(h, m, key, val, dirty);
            r.ok ==> Lookup(h, r.mem.img, key) == Some(val)
  {
    HeldSetIsFree(h, m, key, val, dirty);
    if !HoldsValue(h, m.img, key, val) {
      if CompactsFor(m.img, |key| + |val|) {
        WipedRaw(m.img);
        ReinsertAllRaw(h, Wiped(m.img), Keeps(m.img, INDEX_SLOTS));
      }
      var s := EnsureSpace(h, m, |key| + |val|).mem.img;
      var p := Probe(h, s, key);
      if Put(h, m, key, val, dirty).ok {
        WrittenIsFound(h, s, p.value.0, p.value.1, key, val, dirty);
      }
    }
  }

  /** What a set does, in a table that dead writers may have left, and in a sound one. */
  lemma WriteMeans(h: Hash, m: Mem, key: Key, val: Bytes)
    requires MemOk(m) && RawInv(m.img)
    ensures var r := Put(h, m, key, val, true);
            && (Lookup(h, m.img, key) == Some(val) ==> r == Outcome(m, true))
            && (Lookup(h, m.img, key) != Some(val) ==>
                  && (r.ok <==> !Refuses(h, m, key, val))
                  && (r.ok ==> r.mem.slots == BumpSlot(m.slots, SlotOf(h(key)))))
            && (!Odd(m.arenaSeq) ==> RawInv(r.mem.img))
            && (!Odd(m.arenaSeq) && (Intact(h, m.img, key) || PutCompacts(h, m, key, val)) && r.ok ==>
                  Lookup(h, r.mem.img, key) == Some(val))
            && (Inv(h, m.img) && DropsNothing(h, m, key, val) ==>
                  && Inv(h, r.mem.img)
                  && Abs(r.mem.img) == (if r.ok then PutMap(Abs(m.img), key, val, true) else Abs(m.img))
                  && (r.ok ==> Lookup(h, r.mem.img, key) == Some(val)))
  {
    HeldSetIsFree(h, m, key, val, true);
    PutSucceedsExactly(h, m, key, val, true);
    if !Odd(m.arenaSeq) {
      PutKeepsRaw(h, m, key, val, true);
      if Intact(h, m.img, key) || PutCompacts(h, m, key, val) {
        SetIsReadBack(h, m, key, val, true);
      }
    }
    if Inv(h, m.img) && DropsNothing(h, m, key, val) {
      SetMeans(h, m, key, val);
    }
  }

  /** Removing a key changes what a search finds for that key and no other, whatever dead writers have left. */
  lemma RemoveReads(h: Hash, m: Mem, key: Key, dirty: bool, k: Key)
    requires MemOk(m)
    ensures Lookup(h, Remove(h, m, key, dirty).mem.img, k) == if k == key then None else Lookup(h, m.img, k)
  {
    var b := LiveBucket(h, m.img, key);
    if b.Some? {
      assert Probe(h, m.img, key) == Some((b.value, true));
      var n := ProbeStops(h, m.img, key);
      SearchAgrees(h, m.img, RemoveAt(m.img, b.value, dirty), k);
      FoundIsHeld(h, m.img, k);
      FoundIsHeld(h, RemoveAt(m.img, b.value, dirty), k);
    }
  }

  lemma RemoveKeepsGood(h: Hash, m: Mem, key: Key, k: Key, seen: nat, text: Option<Bytes>)
    requires Good(h, m, k, seen, text)
    ensures Good(h, Remove(h, m, key, true).mem, k, seen, text)
  {
    RemoveReads(h, m, key, true, k);
    if LiveBucket(h, m.img, key).None? {
      assert Remove(h, m, key, true).mem == m;
    }
  }

  lemma RemoveKeepsRaw(h: Hash, m: Mem, key: Key, dirty: bool)
    requires MemOk(m) && RawInv(m.img)
    ensures RawInv(Remove(h, m, key, dirty).mem.img)
  {
    var (img, img') := (m.img, Remove(h, m, key, dirty).mem.img);
    forall i | 0 <= i < INDEX_SLOTS
      ensures RawEntry(img', i)
    {
      assert RawEntry(img, i);
    }
  }

  /** What an unset does to the map of a sound segment. */
  lemma UnsetMeans(h: Hash, m: Mem, key: Key)
    requires MemOk(m) && Inv(h, m.img)
    ensures var r := Remove(h, m, key, true);
            && Inv(h, r.mem.img)
            && (Lookup(h, m.img, key) != None ==> Abs(r.mem.img) == Abs(m.img)[key := Cell(None, true)])
  {
    RemoveRefines(h, m, key, true);
    LookupIsAbs(h, m.img, key);
  }

  lemma RepairKeepsGood(h: Hash, m: Mem, x: nat, k: Key, seen: nat, text: Option<Bytes>)
    requires Good(h, m, k, seen, text) && x < SLOTS
    ensures Good(h, RepairSeq(m, x), k, seen, text)
  {
  }

  /** A sound segment can be searched, and a search of it finds what the map holds. */
  lemma QuietReadIsMap(h: Hash, img: Image, key: Key)
    requires Inv(h, img)
    ensures RawInv(img)
    ensures Lookup(h, img, key) == if key in Abs(img) then Abs(img)[key].val else None
  {
    forall i | 0 <= i < INDEX_SLOTS
      ensures RawEntry(img, i)
    {
      assert EntryOk(h, img, i) && Reachable(img, i);
    }
    LookupIsAbs(h, img, key);
  }

  class Store {
    const seg: Segment
    const cache: Cache

    ghost predicate Shaped()
      reads this, seg, seg.index, seg.arena, seg.slots, cache, cache.owned
    {
      seg.Shaped() && cache.Valid()
    }

    /**
     * The segment can be searched, as it can be whatever writers have died in it outside compactions and clears, and
     * every cache entry that counts as valid is a good copy.
     */
    ghost predicate Coherent()
      reads this, seg, seg.index, seg.arena, seg.slots, cache, cache.owned
    {
      && Shaped() && RawInv(seg.Data())
      && forall k | k in cache.entries && cache.entries[k].valid ::
           Good(seg.h, seg.Memory(), k, cache.entries[k].slotSeen, TextOf(cache.entries[k].value))
    }

    /** What the store holds for `key`. */
    ghost function ValueOf(key: Key): Option<Bytes>
      requires seg.Shaped()
      reads this, seg, seg.index, seg.arena
    {
      Lookup(seg.h, seg.Data(), key)
    }

    constructor (segment: Segment)
      requires segment.Shaped() && RawInv(segment.Data())
      ensures seg == segment && fresh(cache) && Coherent()
    {
      seg := segment;
      cache := new Cache();
    }

    /** The key's counter or the arena's is odd: a writer died, and nobody has repaired it. */
    ghost predicate Stuck(key: Key)
      requires seg.Shaped()
      reads this, seg, seg.slots
    {
      Odd(seg.slots[SlotOf(seg.h(key))]) || Odd(seg.arenaSeq)
    }

    /** No dead writer has left a bucket with this key's full hash and its key half rewritten, or compaction will see to it. */
    ghost predicate ReadsBack(key: Key, val: Bytes)
      requires seg.Shaped()
      reads this, seg, seg.index, seg.arena, seg.slots
    {
      !Odd(seg.arenaSeq) && (Intact(seg.h, seg.Data(), key) || PutCompacts(seg.h, seg.Memory(), key, val))
    }

    predicate IsHit(key: Key)
      requires cache.Valid() && seg.Shaped()
      reads this, seg, seg.slots, cache, cache.owned
    {
      key in cache.entries && cache.entries[key].valid && cache.entries[key].slotSeen == seg.slots[SlotOf(seg.h(key))]
    }

    /** Put a value read or written into the cache. */
    method Refresh(key: Key, got: Option<Bytes>, seen: nat) returns (p: Buffer?)
      requires Shaped()
      modifies cache, cache.owned
      ensures Shaped() && TextOf(p) == got && seg.Memory() == old(seg.Memory())
      ensures key in cache.entries && cache.entries[key].value == p
      ensures cache.entries[key].valid && cache.entries[key].slotSeen == seen
      ensures key in old(cache.entries) ==>
                if TextOf(old(cache.entries[key].value)) == TextOf(p) then p == old(cache.entries[key].value)
                else cache.entries[key].retired == old(cache.entries[key].value)
      ensures forall k | k in old(cache.entries) && k != key ::
                k in cache.entries && cache.entries[k] == old(cache.entries[k]) && unchanged(old(cache.entries[k]))
      ensures old(Coherent()) && Good(seg.h, seg.Memory(), key, seen, got) ==> Coherent()
    {
      var e := cache.Resolve(key, got, seen, true);
      p := e.value;
    }

    /** Serve the disk's copy, and leave the entry unusable as a hit. */
    method Degraded(key: Key, onDisk: Option<Bytes>) returns (p: Buffer?)
      requires Coherent()
      modifies cache, cache.owned
      ensures Coherent() && TextOf(p) == onDisk && seg.Memory() == old(seg.Memory())
      ensures key in cache.entries && cache.entries[key].value == p && !cache.entries[key].valid
      ensures key in old(cache.entries) ==>
                if TextOf(old(cache.entries[key].value)) == TextOf(p) then p == old(cache.entries[key].value)
                else cache.entries[key].retired == old(cache.entries[key].value)
      ensures forall k | k in old(cache.entries) && k != key ::
                k in cache.entries && cache.entries[k] == old(cache.entries[k]) && unchanged(old(cache.entries[k]))
    {
      var e := cache.Resolve(key, onDisk, 0, false);
      p := e.value;
    }

    /** Retry a lock-free read until it is not torn, up to the limit. */
    method ReadRetrying(key: Key) returns (ok: bool, got: Option<Bytes>, seen: nat)
      requires seg.Shaped() && RawInv(seg.Data())
      ensures ok <==> !Stuck(key)
      ensures ok ==> got == ValueOf(key) && seen == seg.slots[SlotOf(seg.h(key))]
    {
      var x := SlotOf(seg.h(key));
      ok, got, seen := false, None, 0;
      for n := 0 to MAX_SEQ_RETRIES
        invariant !ok && (n > 0 ==> Stuck(key))
      {
        var before := seg.slots[x];
        var r := seg.ReadValue(key);
        match r {
          case Value(v) =>
            return true, Some(v), before;
          case Absent =>
            return true, None, before;
          case Torn =>
        }
      }
    }

    /** Under the lock nobody is writing, so an odd counter is a dead writer's and the repaired read cannot be torn. */
    method ReadRepairing(key: Key) returns (got: Option<Bytes>, seen: nat)
      requires Coherent()
      modifies seg`arenaSeq, seg.slots
      ensures Coherent() && seg.Data() == old(seg.Data()) && !Stuck(key)
      ensures seg.Memory() == RepairSeq(old(seg.Memory()), SlotOf(seg.h(key)))
      ensures got == ValueOf(key) && seen == seg.slots[SlotOf(seg.h(key))]
    {
      var x := SlotOf(seg.h(key));
      ghost var m0 := seg.Memory();
      var repaired := seg.Repair(x);
      forall k | k in cache.entries && cache.entries[k].valid
        ensures Good(seg.h, seg.Memory(), k, cache.entries[k].slotSeen, TextOf(cache.entries[k].value))
      {
        RepairKeepsGood(seg.h, m0, x, k, cache.entries[k].slotSeen, TextOf(cache.entries[k].value));
      }
      var r := seg.ReadValue(key);
      got := if r.Value? then Some(r.v) else None;
      seen := seg.slots[x];
    }

    /**
     * A pointer to the key's value, null when it has none. `locked` says whether the writer lock can be had, and
     * `onDisk` what the key's file holds. Only a get that finds a dead writer's counter and cannot have the lock
     * answers from the disk; every other one answers with what the store holds.
     */
    method Get(key: Key, locked: bool, onDisk: Option<Bytes>) returns (p: Buffer?)
      requires Coherent()
      modifies seg`arenaSeq, seg.slots, cache, cache.owned
      ensures Coherent() && seg.Data() == old(seg.Data())
      ensures seg.Memory() == if locked && old(Stuck(key)) && !old(IsHit(key))
                              then RepairSeq(old(seg.Memory()), SlotOf(seg.h(key))) else old(seg.Memory())
      ensures locked || !old(Stuck(key)) || old(IsHit(key)) ==> TextOf(p) == ValueOf(key)
      ensures !locked && old(Stuck(key)) && !old(IsHit(key)) ==> TextOf(p) == onDisk
      ensures old(IsHit(key)) ==> p == old(cache.entries[key].value)
      ensures locked || !old(Stuck(key)) || old(IsHit(key)) ==> IsHit(key) && cache.entries[key].value == p
      ensures key in cache.entries
      ensures key in old(cache.entries) ==>
                if TextOf(old(cache.entries[key].value)) == TextOf(p) then p == old(cache.entries[key].value)
                else cache.entries[key].retired == old(cache.entries[key].value)
      ensures forall k | k in old(cache.entries) && k != key ::
                k in cache.entries && cache.entries[k] == old(cache.entries[k]) && unchanged(old(cache.entries[k]))
    {
      var hit, held := FromCache(key);
      if hit {
        return held;
      }
      p := FromSegment(key, locked, onDisk);
    }

    /** No lock, no copy. */
    method FromCache(key: Key) returns (hit: bool, p: Buffer?)
      requires Coherent()
      modifies cache
      ensures Coherent() && cache.owned >= old(cache.owned) && fresh(cache.owned - old(cache.owned))
      ensures seg.Memory() == old(seg.Memory())
      ensures hit <==> old(IsHit(key))
      ensures hit ==> p == old(cache.entries[key].value) && TextOf(p) == ValueOf(key)
      ensures hit ==> IsHit(key) && cache.entries[key].value == p
      ensures forall k | k in old(cache.entries) ::
                k in cache.entries && cache.entries[k] == old(cache.entries[k]) && unchanged(old(cache.entries[k]))
    {
      var e := cache.EntryFor(key);
      hit := e.valid && e.slotSeen == seg.slots[SlotOf(seg.h(key))];
      p := e.value;
    }

    method FromSegment(key: Key, locked: bool, onDisk: Option<Bytes>) returns (p: Buffer?)
      requires Coherent()
      modifies seg`arenaSeq, seg.slots, cache, cache.owned
      ensures Coherent() && seg.Data() == old(seg.Data())
      ensures seg.Memory() == if locked && old(Stuck(key))
                              then RepairSeq(old(seg.Memory()), SlotOf(seg.h(key))) else old(seg.Memory())
      ensures locked || !old(Stuck(key)) ==> TextOf(p) == ValueOf(key)
      ensures !locked && old(Stuck(key)) ==> TextOf(p) == onDisk
      ensures locked || !old(Stuck(key)) ==> IsHit(key) && cache.entries[key].value == p
      ensures key in cache.entries
      ensures key in old(cache.entries) ==>
                if TextOf(old(cache.entries[key].value)) == TextOf(p) then p == old(cache.entries[key].value)
                else cache.entries[key].retired == old(cache.entries[key].value)
      ensures forall k | k in old(cache.entries) && k != key ::
                k in cache.entries && cache.entries[k] == old(cache.entries[k]) && unchanged(old(cache.entries[k]))
    {
      var ok, got, seen := ReadRetrying(key);
      if !ok {
        if locked {
          got, seen := ReadRepairing(key);
        } else {
          p := Degraded(key, onDisk);
          return;
        }
      }
      p := Refresh(key, got, seen);
    }

    /** The cached copy counts and is this value. */
    method ValueMatches(key: Key, val: Bytes) returns (b: bool)
      requires Coherent()
      modifies cache
      ensures Coherent() && cache.owned >= old(cache.owned) && fresh(cache.owned - old(cache.owned))
      ensures seg.Memory() == old(seg.Memory())
      ensures b <==> old(IsHit(key)) && ValueOf(key) == Some(val)
      ensures b ==> IsHit(key) && TextOf(cache.entries[key].value) == Some(val)
    {
      var hit, p := FromCache(key);
      if !hit {
        return false;
      }
      b := p != null && |p.bytes| == |val| + 1 && p.bytes[..|val|] == val;
    }

    /**
     * Set a key. What could never be written to disk is refused; a value already held costs nothing and keeps the
     * counters still; any other set succeeds with the lock, unless it does not fit or finds no bucket, and it moves the
     * key's counter. It is then an update of the map, owed to the disk; only a compaction that loses an entry can keep it
     * from meaning that.
     */
    method Set(key: Key, val: Bytes, locked: bool) returns (ok: bool)
      requires Coherent()
      modifies seg, seg.index, seg.arena, seg.slots, cache, cache.owned
      ensures Shaped()
      ensures ok <==>
                && ValidKey(key)
                && if old(ValueOf(key)) == Some(val) then locked || old(IsHit(key))
                   else locked && !old(Refuses(seg.h, seg.Memory(), key, val))
      ensures ok && old(ValueOf(key)) != Some(val) ==>
                seg.slots[..] == BumpSlot(old(seg.slots[..]), SlotOf(seg.h(key)))
      ensures ok ==> IsHit(key) && TextOf(cache.entries[key].value) == Some(val)
      ensures !ValidKey(key) ==> !ok && seg.Memory() == old(seg.Memory())
      ensures !locked ==> seg.Memory() == old(seg.Memory()) && (ok ==> ValueOf(key) == Some(val))
      ensures ValidKey(key) && old(ValueOf(key)) == Some(val) && (locked || old(IsHit(key))) ==> ok && seg.Memory() == old(seg.Memory())
      ensures !Odd(old(seg.arenaSeq)) ==> RawInv(seg.Data())
      ensures ok && old(ReadsBack(key, val)) ==> ValueOf(key) == Some(val)
      ensures old(seg.Valid()) ==> seg.Valid()
      ensures old(seg.Valid() && DropsNothing(seg.h, seg.Memory(), key, val)) ==>
                && Coherent()
                && Abs(seg.Data()) == (if ok then PutMap(old(Abs(seg.Data())), key, val, true) else old(Abs(seg.Data())))
                && (ok ==> ValueOf(key) == Some(val))
    {
      if !ValidKey(key) {
        return false;
      }
      var same := ValueMatches(key, val);
      if same {
        if seg.Valid() {
          QuietReadIsMap(seg.h, seg.Data(), key);
        }
        return true;
      }
      if !locked {
        return false;
      }
      ok := Write(key, val);
      if ok {
        var p := Refresh(key, Some(val), seg.slots[SlotOf(seg.h(key))]);
      }
    }

    /** The part of a set that runs under the writer lock. */
    method Write(key: Key, val: Bytes) returns (ok: bool)
      requires Coherent()
      modifies seg, seg.index, seg.arena, seg.slots
      ensures Shaped() && Outcome(seg.Memory(), ok) == Put(seg.h, old(seg.Memory()), key, val, true)
      ensures !Odd(old(seg.arenaSeq)) ==> RawInv(seg.Data())
      ensures old(ValueOf(key)) == Some(val) ==> ok && seg.Memory() == old(seg.Memory())
      ensures old(ValueOf(key)) != Some(val) ==> (ok <==> !old(Refuses(seg.h, seg.Memory(), key, val)))
      ensures ok && old(ValueOf(key)) != Some(val) ==>
                seg.slots[..] == BumpSlot(old(seg.slots[..]), SlotOf(seg.h(key)))
      ensures ok && old(ReadsBack(key, val)) ==> ValueOf(key) == Some(val)
      ensures old(seg.Valid()) ==> seg.Valid()
      ensures old(seg.Valid() && DropsNothing(seg.h, seg.Memory(), key, val)) ==>
                && Coherent()
                && Abs(seg.Data()) == (if ok then PutMap(old(Abs(seg.Data())), key, val, true) else old(Abs(seg.Data())))
                && (ok ==> ValueOf(key) == Some(val))
    {
      ghost var m0 := seg.Memory();
      ghost var sound := seg.Valid();
      WriteMeans(seg.h, m0, key, val);
      ok := seg.PutValue(key, val, true);
      if sound && DropsNothing(seg.h, m0, key, val) {
        QuietReadIsMap(seg.h, seg.Data(), key);
        forall k | k in cache.entries && cache.entries[k].valid
          ensures Good(seg.h, seg.Memory(), k, cache.entries[k].slotSeen, TextOf(cache.entries[k].value))
        {
          NothingForgotten(seg.h, m0, key, val, k);
          PutKeepsGood(seg.h, m0, key, val, k, cache.entries[k].slotSeen, TextOf(cache.entries[k].value));
        }
      }
    }

    /**
     * Unset a key: afterwards it has no value, and every other key has the value it had. In a sound segment the disk is
     * owed the deletion of a key that had one.
     */
    method Unset(key: Key, locked: bool) returns (ok: bool)
      requires Coherent()
      modifies seg, seg.index, seg.slots, cache, cache.owned
      ensures Coherent() && (ok <==> ValidKey(key) && locked)
      ensures !ok || old(ValueOf(key)) == None ==> seg.Memory() == old(seg.Memory())
      ensures ok ==> forall k :: ValueOf(k) == if k == key then None else old(ValueOf(k))
      ensures ok && old(ValueOf(key)) != None ==> seg.slots[..] == BumpSlot(old(seg.slots[..]), SlotOf(seg.h(key)))
      ensures ok ==> IsHit(key) && TextOf(cache.entries[key].value) == None
      ensures old(seg.Valid()) ==> seg.Valid()
      ensures old(seg.Valid()) && ok && old(ValueOf(key)) != None ==>
                Abs(seg.Data()) == old(Abs(seg.Data()))[key := Cell(None, true)]
    {
      if !ValidKey(key) || !locked {
        return false;
      }
      ghost var m0 := seg.Memory();
      if seg.Valid() {
        UnsetMeans(seg.h, m0, key);
      }
      forall k
        ensures Lookup(seg.h, Remove(seg.h, m0, key, true).mem.img, k) ==
                if k == key then None else Lookup(seg.h, m0.img, k)
      {
        RemoveReads(seg.h, m0, key, true, k);
      }
      Erase(key);
      var p := Refresh(key, None, seg.slots[SlotOf(seg.h(key))]);
      ok := true;
    }

    /** The part of an unset that runs under the writer lock. */
    method Erase(key: Key)
      requires Coherent()
      modifies seg, seg.index, seg.slots
      ensures Coherent() && seg.Memory() == Remove(seg.h, old(seg.Memory()), key, true).mem
      ensures old(seg.Valid()) ==> seg.Valid()
    {
      ghost var m0 := seg.Memory();
      var was := seg.RemoveKey(key, true);
      RemoveKeepsRaw(seg.h, m0, key, true);
      forall k | k in cache.entries && cache.entries[k].valid
        ensures Good(seg.h, seg.Memory(), k, cache.entries[k].slotSeen, TextOf(cache.entries[k].value))
      {
        RemoveKeepsGood(seg.h, m0, key, k, cache.entries[k].slotSeen, TextOf(cache.entries[k].value));
      }
    }

    /**
     * Empty the segment and this process's cache, and move every counter, so that no process has a hit left. `listed` says
     * whether the files could be listed, to be removed, and `flushed` whether the last flush succeeded.
     */
    method Clear(locked: bool, listed: bool, flushed: bool) returns (ok: bool)
      requires Coherent()
      modifies seg, seg.index, seg.arena, seg.slots, cache.owned
      ensures Coherent() && (ok <==> locked && listed && flushed)
      ensures locked ==> forall x | 0 <= x < SLOTS :: seg.slots[x] > old(seg.slots[x])
      ensures locked ==> seg.Valid()
      ensures if locked then Abs(seg.Data()) == map[] else seg.Memory() == old(seg.Memory())
      ensures locked ==> forall k | k in cache.entries :: !cache.entries[k].valid
    {
      if !locked {
        return false;
      }
      seg.ClearAll();
      QuietReadIsMap(seg.h, seg.Data(), []);
      cache.InvalidateAll();
      ok := listed && flushed;
    }
  }
}
