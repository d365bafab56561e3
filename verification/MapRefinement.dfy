/** The segment's operations, compaction included, refine operations on a finite map with dirty flags. */
module MapRefinement {
  import opened Layout
  import opened Index
  import opened Operations
  import opened Refinement
  import opened Compaction

  // --------------------------------------------------------------- put --

  /** The map after a successful put. A value already held costs nothing; a debt to the disk is never forgotten. */
  ghost function PutMap(a: map<Key, Cell>, key: Key, val: Bytes, dirty: bool): map<Key, Cell> {
    if key in a && a[key].val == Some(val) then a
    else a[key := Cell(Some(val), dirty || (key in a && a[key].dirty))]
  }

  /** This put reaches the point of reserving space, and reserving compacts. */
  predicate PutCompacts(h: Hash, m: Mem, key: Key, val: Bytes)
    requires MemOk(m)
  {
    !HoldsValue(h, m.img, key, val) && CompactsFor(m.img, |key| + |val|)
  }

  lemma HoldsValueIsMap(h: Hash, img: Image, key: Key, val: Bytes)
    requires Inv(h, img)
    ensures HoldsValue(h, img, key, val) <==> key in Abs(img) && Abs(img)[key].val == Some(val)
  {
    LookupIsAbs(h, img, key);
    ProbeExact(h, img, key);
    if Probe(h, img, key).Some? && Probe(h, img, key).value.1 {
      assert EntryOk(h, img, Probe(h, img, key).value.0);
    }
  }

  lemma EnsureSpaceRefines(h: Hash, m: Mem, need: nat)
    requires MemOk(m) && Inv(h, m.img)
    ensures var s := EnsureSpace(h, m, need);
            && Inv(h, s.mem.img)
            && (s.ok ==> s.mem.img.used + need <= ARENA_SIZE)
            && ((CompactsFor(m.img, need) ==> Lossless(h, m.img)) ==>
                  && Abs(s.mem.img) == Abs(m.img)
                  && (s.ok <==> KeptBytes(m.img) + need <= ARENA_SIZE))
  {
    CompactKeepsMeaning(h, m.img);
    KeptFits(h, m.img);
  }

  /**
   * When a reservation compacts: never while the request fits and no more than a quarter of the arena is garbage, and then
   * nothing changes; otherwise always, and no garbage is left.
   */
  lemma ReservesInBounds(h: Hash, m: Mem, need: nat)
    requires MemOk(m)
    ensures var s := EnsureSpace(h, m, need);
            if m.img.used + need <= ARENA_SIZE && 4 * m.img.garbage <= ARENA_SIZE then s == Outcome(m, true)
            else s.mem.img.garbage == 0 && s.mem.arenaSeq > m.arenaSeq && !(s.mem.arenaSeq % 2 == 1)
  {
    ReinsertsNoGarbage(h, Wiped(m.img), Keeps(m.img, INDEX_SLOTS));
  }

  lemma {:induction false} ReinsertsNoGarbage(h: Hash, img: Image, ks: seq<Keep>)
    requires WellSized(img)
    ensures ReinsertAll(h, img, ks).garbage == img.garbage
    decreases |ks|
  {
    if |ks| > 0 {
      ReinsertsNoGarbage(h, img, ks[..|ks| - 1]);
    }
  }

  /** A put is a map update when it succeeds, and changes nothing in the map when it fails. */
  lemma PutRefines(h: Hash, m: Mem, key: Key, val: Bytes, dirty: bool)
    requires MemOk(m) && Inv(h, m.img)
    ensures var r := Put(h, m, key, val, dirty);
            && Inv(h, r.mem.img)
            && ((PutCompacts(h, m, key, val) ==> Lossless(h, m.img)) ==>
                  Abs(r.mem.img) == if r.ok then PutMap(Abs(m.img), key, val, dirty) else Abs(m.img))
  {
    HoldsValueIsMap(h, m.img, key, val);
    if !HoldsValue(h, m.img, key, val) {
      EnsureSpaceRefines(h, m, |key| + |val|);
      var s := EnsureSpace(h, m, |key| + |val|);
      if s.ok && Probe(h, s.mem.img, key).Some? {
        PutLockedRefines(h, s.mem.img, key, val, dirty);
      }
    }
  }

  /** What a put makes of the map its reservation left, whether or not the compaction lost anything. */
  lemma PutAfterReserving(h: Hash, m: Mem, key: Key, val: Bytes, dirty: bool)
    requires MemOk(m) && Inv(h, m.img) && !HoldsValue(h, m.img, key, val)
    ensures var reserved := EnsureSpace(h, m, |key| + |val|).mem.img;
            var r := Put(h, m, key, val, dirty);
            && Inv(h, reserved) && Inv(h, r.mem.img)
            && Abs(r.mem.img) == if r.ok then PutMap(Abs(reserved), key, val, dirty) else Abs(reserved)
  {
    HoldsValueIsMap(h, m.img, key, val);
    CompactKeepsMeaning(h, m.img);
    EnsureSpaceRefines(h, m, |key| + |val|);
    var s := EnsureSpace(h, m, |key| + |val|);
    if s.ok && Probe(h, s.mem.img, key).Some? {
      PutLockedRefines(h, s.mem.img, key, val, dirty);
    }
  }

  /** Compaction re-inserts every entry of the map, but for perhaps this key's. */
  ghost predicate Retains(h: Hash, img: Image, key: Key, spare: bool)
    requires WellSized(img) && Inv(h, img)
  {
    Inv(h, Compact(h, img)) && forall k | k in Abs(img) && !(spare && k == key) :: k in Abs(Compact(h, img))
  }

  /** The put replaces whatever its key's entry held, debt included. */
  ghost predicate Replaces(h: Hash, img: Image, key: Key, dirty: bool)
    requires Inv(h, img)
  {
    dirty || key !in Abs(img) || !Abs(img)[key].dirty
  }

  /**
   * A put is the map update when it succeeds, and leaves the map alone when it fails, exactly when the compaction it
   * needed, if any, re-inserted every entry, other than one that the put itself replaces.
   */
  lemma PutRefinesExactly(h: Hash, m: Mem, key: Key, val: Bytes, dirty: bool)
    requires MemOk(m) && Inv(h, m.img)
    ensures var r := Put(h, m, key, val, dirty);
            && Inv(h, r.mem.img)
            && (Abs(r.mem.img) == (if r.ok then PutMap(Abs(m.img), key, val, dirty) else Abs(m.img)) <==>
                 (PutCompacts(h, m, key, val) ==> Retains(h, m.img, key, r.ok && Replaces(h, m.img, key, dirty))))
  {
    PutRefines(h, m, key, val, dirty);
    if PutCompacts(h, m, key, val) {
      HoldsValueIsMap(h, m.img, key, val);
      PutAfterReserving(h, m, key, val, dirty);
      CompactKeepsMeaning(h, m.img);
      SamePut(Abs(m.img), Abs(Compact(h, m.img)), key, val, dirty, Put(h, m, key, val, dirty).ok);
    }
  }

  /** A map and a part of it become the same by a put exactly when what is missing is what the put replaces. */
  lemma SamePut(a: map<Key, Cell>, b: map<Key, Cell>, key: Key, val: Bytes, dirty: bool, ok: bool)
    requires forall k | k in b :: k in a && b[k] == a[k]
    requires key !in a || a[key].val != Some(val)
    ensures (if ok then PutMap(b, key, val, dirty) else b) == (if ok then PutMap(a, key, val, dirty) else a)
            <==> forall k | k in a && !(ok && k == key && (dirty || !a[k].dirty)) :: k in b
  {
    var (a', b') := (if ok then PutMap(a, key, val, dirty) else a, if ok then PutMap(b, key, val, dirty) else b);
    if a' == b' {
      forall k | k in a && !(ok && k == key && (dirty || !a[k].dirty))
        ensures k in b
      {
        assert k in a' && a'[k] == b'[k];
      }
    }
  }

  /** A put that fails leaves the map as it was exactly when the compaction it needed, if any, lost nothing. */
  lemma FailedPutKeepsMap(h: Hash, m: Mem, key: Key, val: Bytes, dirty: bool)
    requires MemOk(m) && Inv(h, m.img) && !Put(h, m, key, val, dirty).ok
    ensures Inv(h, Put(h, m, key, val, dirty).mem.img)
    ensures Abs(Put(h, m, key, val, dirty).mem.img) == Abs(m.img) <==> (PutCompacts(h, m, key, val) ==> Lossless(h, m.img))
  {
    PutAfterReserving(h, m, key, val, dirty);
    CompactKeepsMeaning(h, m.img);
  }

  /** Every bucket in the key's probe range is taken, by something that may not be claimed. */
  ghost predicate NoRoom(h: Hash, img: Image, key: Key)
    requires WellSized(img)
  {
    !Present(img, key) && forall j | 0 <= j < MAX_PROBES :: !Claimable(img.index[Bucket(h(key), j)])
  }

  /**
   * A put that has a change to make fails exactly when its bytes do not fit in what reserving left, or no bucket may be
   * claimed. They do not fit exactly when the bytes worth keeping leave no room for them, unless a compaction on the way
   * gave up an entry, which can only make room.
   */
  lemma PutFailsExactly(h: Hash, m: Mem, key: Key, val: Bytes, dirty: bool)
    requires MemOk(m) && Inv(h, m.img)
    requires !(key in Abs(m.img) && Abs(m.img)[key].val == Some(val))
    ensures var reserved := EnsureSpace(h, m, |key| + |val|).mem.img;
            && Inv(h, reserved)
            && (!Put(h, m, key, val, dirty).ok <==>
                  reserved.used + |key| + |val| > ARENA_SIZE || NoRoom(h, reserved, key))
            && (reserved.used + |key| + |val| > ARENA_SIZE ==> KeptBytes(m.img) + |key| + |val| > ARENA_SIZE)
            && ((CompactsFor(m.img, |key| + |val|) ==> Lossless(h, m.img)) ==>
                  (reserved.used + |key| + |val| > ARENA_SIZE <==> KeptBytes(m.img) + |key| + |val| > ARENA_SIZE))
  {
    HoldsValueIsMap(h, m.img, key, val);
    CompactKeepsMeaning(h, m.img);
    KeptFits(h, m.img);
    EnsureSpaceRefines(h, m, |key| + |val|);
    var s := EnsureSpace(h, m, |key| + |val|);
    ProbeNoneExactly(h, s.mem.img, key);
    if s.ok && Probe(h, s.mem.img, key).Some? {
      PutLockedRefines(h, s.mem.img, key, val, dirty);
    }
  }

  lemma ProbeNoneExactly(h: Hash, img: Image, key: Key)
    requires Inv(h, img)
    ensures Probe(h, img, key).None? <==> NoRoom(h, img, key)
  {
    ProbeExact(h, img, key);
    var n := ProbeStops(h, img, key);
    if NoRoom(h, img, key) && Probe(h, img, key).Some? {
      OfferedBucket(h, img, key);
    }
  }

  // ------------------------------------------------- clear and commit --

  lemma ClearRefines(h: Hash, m: Mem)
    requires MemOk(m)
    ensures Inv(h, Clear(m).img) && Abs(Clear(m).img) == map[]
    ensures forall x | 0 <= x < SLOTS :: Clear(m).slots[x] > m.slots[x] && Clear(m).slots[x] % 2 == 0
  {
    WipedIsEmpty(h, m.img);
  }

  /** The map after a key's debt to the disk has been settled. */
  ghost function RetireMap(a: map<Key, Cell>, key: Key): map<Key, Cell> {
    if key !in a then a
    else if a[key].val.None? then a - {key}
    else a[key := Cell(a[key].val, false)]
  }

  lemma RetireRefines(h: Hash, m: Mem, p: Pending)
    requires MemOk(m) && Inv(h, m.img)
    ensures var r := Retire(h, m, p);
            && Inv(h, r.img) && r.slots == m.slots && r.arenaSeq == m.arenaSeq
            && Abs(r.img) == if m.slots[SlotOf(p.hash)] == p.seen then RetireMap(Abs(m.img), p.key) else Abs(m.img)
  {
    if m.slots[SlotOf(p.hash)] == p.seen {
      ProbeExact(h, m.img, p.key);
      var q := Probe(h, m.img, p.key);
      if q.Some? && q.value.1 {
        RetireFound(h, m, p, q.value.0);
      } else if p.key in Abs(m.img) {
        var j := AbsHas(m.img, p.key);
      }
    }
  }

  lemma RetireFound(h: Hash, m: Mem, p: Pending, i: nat)
    requires MemOk(m) && Inv(h, m.img) && m.slots[SlotOf(p.hash)] == p.seen
    requires Probe(h, m.img, p.key) == Some((i, true))
    ensures Inv(h, Retire(h, m, p).img) && Abs(Retire(h, m, p).img) == RetireMap(Abs(m.img), p.key)
  {
    var (img, img') := (m.img, Retire(h, m, p).img);
    ProbeExact(h, img, p.key);
    assert EntryOk(h, img, i) && Reachable(img, i);
    OthersDiffer(h, img, p.key, i);
    RewriteKeepsInv(h, img, img', i, p.key);
    RewriteUpdatesMap(h, img, img', i, p.key);
    if p.key in Abs(img) {
      var j := AbsHas(img, p.key);
      assert j == i;
    } else if Kept(img.index[i]) {
      AbsAt(img, i);
    }
  }

  /** What is owed to the disk for `key`, if anything. */
  ghost predicate Owed(h: Hash, m: Mem, needsWrite: (Key, nat) -> bool, p: Pending)
    requires MemOk(m) && Inv(h, m.img)
  {
    var a := Abs(m.img);
    && p.key in a && p.val == a[p.key].val
    && p.hash == h(p.key) && p.seen == m.slots[SlotOf(h(p.key))]
    && (a[p.key].dirty || needsWrite(p.key, |a[p.key].val.value|))
  }

  lemma CellDirty(h: Hash, img: Image, i: nat)
    requires Inv(h, img) && i < INDEX_SLOTS && Kept(img.index[i])
    ensures CellAt(img, i).dirty || CellAt(img, i).val.Some?
    ensures CellAt(img, i).val.Some? ==> |CellAt(img, i).val.value| == img.index[i].valLen
    ensures ArenaSlice(img.arena, img.index[i].keyOff, img.index[i].keyLen) == Some(KeyAt(img, i))
    ensures ArenaSlice(img.arena, img.index[i].valOff, img.index[i].valLen) == Some(ValAt(img, i))
  {
    assert EntryOk(h, img, i);
  }

  lemma PendingOfKept(h: Hash, m: Mem, i: nat, needsWrite: (Key, nat) -> bool)
    requires MemOk(m) && Inv(h, m.img) && i < INDEX_SLOTS && Kept(m.img.index[i])
    ensures var p := PendingOf(h, m, m.img.index[i], needsWrite);
            && (p.Some? ==> p.value.key == KeyAt(m.img, i) && Owed(h, m, needsWrite, p.value))
            && (p.None? ==> !CellAt(m.img, i).dirty && !needsWrite(KeyAt(m.img, i), |CellAt(m.img, i).val.value|))
  {
    CellDirty(h, m.img, i);
    AbsAt(m.img, i);
  }

  lemma {:induction false} SnapshotSound(h: Hash, m: Mem, needsWrite: (Key, nat) -> bool, n: nat, p: Pending) returns (i: nat)
    requires MemOk(m) && Inv(h, m.img) && n <= INDEX_SLOTS
    requires p in Snapshot(h, m, needsWrite, n)
    ensures i < n && InUse(m.img.index[i]) && KeyAt(m.img, i) == p.key
    ensures Owed(h, m, needsWrite, p)
  {
    i := n - 1;
    if p in Snapshot(h, m, needsWrite, i) {
      i := SnapshotSound(h, m, needsWrite, i, p);
    } else {
      PendingOfKept(h, m, i, needsWrite);
    }
  }

  lemma {:induction false} SnapshotComplete(h: Hash, m: Mem, needsWrite: (Key, nat) -> bool, n: nat, i: nat)
    requires MemOk(m) && i < n <= INDEX_SLOTS
    requires PendingOf(h, m, m.img.index[i], needsWrite).Some?
    ensures PendingOf(h, m, m.img.index[i], needsWrite).value in Snapshot(h, m, needsWrite, n)
  {
    if i < n - 1 {
      SnapshotComplete(h, m, needsWrite, n - 1, i);
    }
  }

  /** The entry of bucket `n` is of a key that no bucket before it holds. */
  lemma SnapshotNewKey(h: Hash, m: Mem, needsWrite: (Key, nat) -> bool, n: nat, a: nat)
    requires MemOk(m) && Inv(h, m.img) && n < INDEX_SLOTS
    requires a < |Snapshot(h, m, needsWrite, n)| && PendingOf(h, m, m.img.index[n], needsWrite).Some?
    ensures Snapshot(h, m, needsWrite, n)[a].key != PendingOf(h, m, m.img.index[n], needsWrite).value.key
  {
    var s := Snapshot(h, m, needsWrite, n);
    assert s[a] in s;
    var i := SnapshotSound(h, m, needsWrite, n, s[a]);
    PendingOfKept(h, m, n, needsWrite);
  }

  lemma {:induction false} SnapshotDistinct(h: Hash, m: Mem, needsWrite: (Key, nat) -> bool, n: nat, a: nat, b: nat)
    requires MemOk(m) && Inv(h, m.img) && n <= INDEX_SLOTS
    requires a < b < |Snapshot(h, m, needsWrite, n)|
    ensures Snapshot(h, m, needsWrite, n)[a].key != Snapshot(h, m, needsWrite, n)[b].key
  {
    if b < |Snapshot(h, m, needsWrite, n - 1)| {
      SnapshotDistinct(h, m, needsWrite, n - 1, a, b);
    } else {
      SnapshotNewKey(h, m, needsWrite, n - 1, a);
    }
  }

  /** A commit's snapshot lists exactly what the map owes the disk, each key once. */
  lemma SnapshotExact(h: Hash, m: Mem, needsWrite: (Key, nat) -> bool)
    requires MemOk(m) && Inv(h, m.img)
    ensures forall p :: p in Snapshot(h, m, needsWrite, INDEX_SLOTS) <==> Owed(h, m, needsWrite, p)
    ensures forall a, b | 0 <= a < b < |Snapshot(h, m, needsWrite, INDEX_SLOTS)| ::
              Snapshot(h, m, needsWrite, INDEX_SLOTS)[a].key != Snapshot(h, m, needsWrite, INDEX_SLOTS)[b].key
  {
    var s := Snapshot(h, m, needsWrite, INDEX_SLOTS);
    forall p
      ensures p in s <==> Owed(h, m, needsWrite, p)
    {
      if p in s {
        var i := SnapshotSound(h, m, needsWrite, INDEX_SLOTS, p);
      }
      if Owed(h, m, needsWrite, p) {
        var i := AbsHas(m.img, p.key);
        PendingOfKept(h, m, i, needsWrite);
        SnapshotComplete(h, m, needsWrite, INDEX_SLOTS, i);
      }
    }
    forall a, b | 0 <= a < b < |s|
      ensures s[a].key != s[b].key
    {
      SnapshotDistinct(h, m, needsWrite, INDEX_SLOTS, a, b);
    }
  }

  // ------------------------------------------------------- enumeration --

  lemma {:induction false} LivePairSound(h: Hash, img: Image, n: nat, kv: (Key, Bytes)) returns (i: nat)
    requires Inv(h, img) && n <= INDEX_SLOTS
    requires kv in LivePairs(img, n)
    ensures i < n && Kept(img.index[i]) && KeyAt(img, i) == kv.0
    ensures kv.0 in Abs(img) && Abs(img)[kv.0].val == Some(kv.1)
  {
    i := n - 1;
    if kv in LivePairs(img, i) {
      i := LivePairSound(h, img, i, kv);
    } else {
      CellDirty(h, img, i);
      AbsAt(img, i);
    }
  }

  lemma {:induction false} LivePairComplete(h: Hash, img: Image, n: nat, i: nat)
    requires Inv(h, img) && i < n <= INDEX_SLOTS && img.index[i].status == Live
    ensures (KeyAt(img, i), ValAt(img, i)) in LivePairs(img, n)
  {
    CellDirty(h, img, i);
    if i < n - 1 {
      LivePairComplete(h, img, n - 1, i);
    }
  }

  lemma {:induction false} LivePairDistinct(h: Hash, img: Image, n: nat, a: nat, b: nat)
    requires Inv(h, img) && n <= INDEX_SLOTS
    requires a < b < |LivePairs(img, n)|
    ensures LivePairs(img, n)[a].0 != LivePairs(img, n)[b].0
  {
    if b < |LivePairs(img, n - 1)| {
      LivePairDistinct(h, img, n - 1, a, b);
    } else {
      LiveNewKey(h, img, n - 1, a);
    }
  }

  lemma LiveNewKey(h: Hash, img: Image, n: nat, a: nat)
    requires Inv(h, img) && n < INDEX_SLOTS && img.index[n].status == Live
    requires a < |LivePairs(img, n)|
    ensures LivePairs(img, n)[a].0 != KeyAt(img, n)
    ensures ArenaSlice(img.arena, img.index[n].keyOff, img.index[n].keyLen) == Some(KeyAt(img, n))
  {
    var s := LivePairs(img, n);
    assert s[a] in s;
    var i := LivePairSound(h, img, n, s[a]);
    CellDirty(h, img, n);
  }

  /** Enumeration visits every live pair of the map, each key once, and nothing else. */
  lemma LivePairsExact(h: Hash, img: Image)
    requires Inv(h, img)
    ensures forall k, v :: (k, v) in LivePairs(img, INDEX_SLOTS) <==> k in Abs(img) && Abs(img)[k].val == Some(v)
    ensures forall a, b | 0 <= a < b < |LivePairs(img, INDEX_SLOTS)| ::
              LivePairs(img, INDEX_SLOTS)[a].0 != LivePairs(img, INDEX_SLOTS)[b].0
  {
    var s := LivePairs(img, INDEX_SLOTS);
    forall k, v
      ensures (k, v) in s <==> k in Abs(img) && Abs(img)[k].val == Some(v)
    {
      if (k, v) in s {
        var i := LivePairSound(h, img, INDEX_SLOTS, (k, v));
      }
      if k in Abs(img) && Abs(img)[k].val == Some(v) {
        var i := AbsHas(img, k);
        LivePairComplete(h, img, INDEX_SLOTS, i);
      }
    }
    forall a, b | 0 <= a < b < |s|
      ensures s[a].0 != s[b].0
    {
      LivePairDistinct(h, img, INDEX_SLOTS, a, b);
    }
  }
}
