/** What is left when a writer dies between two stores of claiming a bucket for a new key. */
module ClaimDeath {
  import opened Layout
  import opened Index
  import opened Operations
  import opened Stores
  import opened Discipline
  import opened WriterDeath

  /** The segment once a claim has allocated its value and its key. */
  function Allocated(img: Image, key: Key, val: Bytes): (r: Image)
    requires WellSized(img) && img.used + |val| + |key| <= ARENA_SIZE
    ensures WellSized(r)
  {
    Alloc(Alloc(img, val).value, key).value
  }

  /** The key of bucket `i` is the old one, or the new key's bytes at the old length, or the new key. */
  ghost predicate KeyStage(h: Hash, m: Mem, d: Mem, i: nat, key: Key, val: Bytes)
    requires WellSized(m.img) && WellSized(d.img) && i < INDEX_SLOTS && m.img.used + |val| + |key| <= ARENA_SIZE
  {
    var e := m.img.index[i];
    var e' := d.img.index[i];
    || (e'.hash == e.hash && e'.keyLen == e.keyLen && e'.status == e.status && e'.keyOff == e.keyOff)
    || (&& e'.hash == e.hash && e'.keyLen == e.keyLen && e'.status == e.status
        && e'.keyOff == m.img.used + |val| && d.img.arena == Allocated(m.img, key, val).arena)
    || (&& ((e'.hash == e.hash && e'.status == e.status) || e'.hash == h(key))
        && ArenaEq(d.img.arena, e'.keyOff, e'.keyLen, key))
  }

  /** Both regions of the bucket are allocated. */
  predicate Within(img: Image, i: nat)
    requires i < |img.index|
  {
    && img.index[i].keyOff + img.index[i].keyLen <= img.used
    && img.index[i].valOff + img.index[i].valLen <= img.used
  }

  /** Bucket `i` is being claimed for a new key, which it carries whole before it is live. */
  ghost predicate Claimed(h: Hash, m: Mem, d: Mem, i: nat, key: Key, val: Bytes, owes: bool) {
    && WellSized(m.img) && WellSized(d.img) && i < INDEX_SLOTS && m.img.used + |val| + |key| <= ARENA_SIZE
    && m.img.used <= d.img.used && d.img.arena[..m.img.used] == m.img.arena[..m.img.used]
    && d.img.index == m.img.index[i := d.img.index[i]]
    && KeyStage(h, m, d, i, key, val)
    && (|| d.img.index[i].status == m.img.index[i].status
        || (&& d.img.index[i].status == Live && ValAt(d.img, i) == val && Within(d.img, i)
            && (owes ==> d.img.index[i].dirty)))
  }

  ghost function ClaimedFor(h: Hash, m: Mem, i: nat, key: Key, val: Bytes, owes: bool): Mem -> bool {
    d => Claimed(h, m, d, i, key, val, owes)
  }

  lemma {:induction false} ClaimBytes(h: Hash, m: Mem, d: Mem, i: nat, key: Key, val: Bytes, owes: bool, off: nat, bytes: Bytes)
    requires Claimed(h, m, d, i, key, val, owes) && d.img.index == m.img.index && m.img.index[i].status != Live
    requires m.img.used <= off && off + |bytes| <= ARENA_SIZE
    ensures Always(ClaimedFor(h, m, i, key, val, owes), d, ByteStores(off, bytes))
    decreases |bytes|
  {
    if |bytes| > 0 {
      assert ByteStores(off, bytes)[1..] == ByteStores(off + 1, bytes[1..]);
      ClaimBytes(h, m, Apply(d, SetByte(off, bytes[0])), i, key, val, owes, off + 1, bytes[1..]);
    }
  }

  lemma ClaimAlloc(h: Hash, m: Mem, d: Mem, i: nat, key: Key, val: Bytes, owes: bool, bytes: Bytes)
    requires Claimed(h, m, d, i, key, val, owes) && d.img.index == m.img.index && m.img.index[i].status != Live
    requires MemOk(d) && Alloc(d.img, bytes).Some?
    ensures Always(ClaimedFor(h, m, i, key, val, owes), d, AllocScript(d.img, bytes))
    ensures Claimed(h, m, d.(img := Alloc(d.img, bytes).value), i, key, val, owes)
  {
    var off := d.img.used;
    var P := ClaimedFor(h, m, i, key, val, owes);
    ClaimBytes(h, m, d, i, key, val, owes, off, bytes);
    ByteStoresApply(d, off, bytes);
    var d1 := ApplyAll(d, ByteStores(off, bytes));
    AlwaysOne(P, d1, SetUsed(off + |bytes|), []);
    assert [SetUsed(off + |bytes|)] + [] == [SetUsed(off + |bytes|)];
    AlwaysThen(P, d, ByteStores(off, bytes), [SetUsed(off + |bytes|)]);
  }

  /** The bucket holds the new key, and what it says of its value has been announced by nothing yet. */
  ghost predicate HoldsNewKey(h: Hash, m: Mem, d: Mem, i: nat, key: Key, val: Bytes, owes: bool) {
    && Claimed(h, m, d, i, key, val, owes) && m.img.index[i].status != Live && d.img.index[i].status == m.img.index[i].status
    && d.img.index[i].hash == h(key) && ArenaEq(d.img.arena, d.img.index[i].keyOff, d.img.index[i].keyLen, key)
    && d.img.index[i].keyOff + d.img.index[i].keyLen <= d.img.used
  }

  lemma ClaimTail(h: Hash, m: Mem, d: Mem, i: nat, key: Key, val: Bytes, dirty: bool)
    requires HoldsNewKey(h, m, d, i, key, val, dirty) && ValAt(d.img, i) == val && Within(d.img, i)
    ensures Always(ClaimedFor(h, m, i, key, val, dirty), d, FieldStores(i, (if dirty then [FDirty(true)] else []) + [FStatus(Live)]))
  {
    var P := ClaimedFor(h, m, i, key, val, dirty);
    var d' := if dirty then Apply(d, SetEntry(i, FDirty(true))) else d;
    AlwaysField(P, d', i, FStatus(Live), []);
    assert [FStatus(Live)] + [] == [FStatus(Live)];
    if dirty {
      AlwaysField(P, d, i, FDirty(true), [FStatus(Live)]);
    } else {
      assert [] + [FStatus(Live)] == [FStatus(Live)];
    }
  }

  lemma ClaimValue(h: Hash, m: Mem, d: Mem, i: nat, key: Key, val: Bytes, off: nat, dirty: bool)
    requires HoldsNewKey(h, m, d, i, key, val, dirty) && Text(d.img.arena, off, |val|) == val && off + |val| <= d.img.used
    ensures Always(ClaimedFor(h, m, i, key, val, dirty), d, FieldStores(i, ValueFields(off, |val|, dirty)))
  {
    var P := ClaimedFor(h, m, i, key, val, dirty);
    var d1 := Apply(d, SetEntry(i, FValLen(0)));
    var d2 := Apply(d1, SetEntry(i, FValOff(off)));
    var d3 := Apply(d2, SetEntry(i, FValLen(|val|)));
    var tail := (if dirty then [FDirty(true)] else []) + [FStatus(Live)];
    ClaimTail(h, m, d3, i, key, val, dirty);
    AlwaysField(P, d2, i, FValLen(|val|), tail);
    AlwaysField(P, d1, i, FValOff(off), [FValLen(|val|)] + tail);
    AlwaysField(P, d, i, FValLen(0), [FValOff(off)] + ([FValLen(|val|)] + tail));
    assert [FValLen(0)] + ([FValOff(off)] + ([FValLen(|val|)] + tail)) == ValueFields(off, |val|, dirty);
  }

  lemma ClaimKey(h: Hash, m: Mem, d: Mem, i: nat, key: Key, val: Bytes, owes: bool)
    requires Claimed(h, m, d, i, key, val, owes) && d.img.index == m.img.index && m.img.index[i].status != Live
    requires d.img.arena == Allocated(m.img, key, val).arena && d.img.used == m.img.used + |val| + |key|
    ensures var keys := FieldStores(i, KeyFields(m.img.used + |val|, |key|, h(key)));
            && Always(ClaimedFor(h, m, i, key, val, owes), d, keys)
            && HoldsNewKey(h, m, ApplyAll(d, keys), i, key, val, owes)
            && ApplyAll(d, keys).img.arena == d.img.arena && ApplyAll(d, keys).img.used == d.img.used
  {
    var P := ClaimedFor(h, m, i, key, val, owes);
    var off := m.img.used + |val|;
    var d1 := Apply(d, SetEntry(i, FKeyOff(off)));
    var d2 := Apply(d1, SetEntry(i, FKeyLen(|key|)));
    AlwaysField(P, d2, i, FHash(h(key)), []);
    AlwaysField(P, d1, i, FKeyLen(|key|), [FHash(h(key))] + []);
    AlwaysField(P, d, i, FKeyOff(off), [FKeyLen(|key|)] + ([FHash(h(key))] + []));
    assert [FKeyOff(off)] + ([FKeyLen(|key|)] + ([FHash(h(key))] + [])) == KeyFields(off, |key|, h(key));
    FieldStoresApply(d, i, KeyFields(off, |key|, h(key)));
    WithFieldsShort(d.img.index[i], KeyFields(off, |key|, h(key)));
  }

  lemma ClaimFields(h: Hash, m: Mem, d: Mem, i: nat, key: Key, val: Bytes, dirty: bool)
    requires Claimed(h, m, d, i, key, val, dirty) && d.img.index == m.img.index && m.img.index[i].status != Live
    requires d.img.arena == Allocated(m.img, key, val).arena && d.img.used == m.img.used + |val| + |key|
    ensures Always(ClaimedFor(h, m, i, key, val, dirty), d,
                   ClaimScript(h, i, m.img.used + |val|, key, m.img.used, |val|, dirty))
  {
    var keys := FieldStores(i, KeyFields(m.img.used + |val|, |key|, h(key)));
    var values := FieldStores(i, ValueFields(m.img.used, |val|, dirty));
    ClaimKey(h, m, d, i, key, val, dirty);
    var a := Alloc(m.img, val).value;
    TextFrame(a.arena, d.img.arena, a.used, m.img.used, |val|);
    ClaimValue(h, m, ApplyAll(d, keys), i, key, val, m.img.used, dirty);
    AlwaysThen(ClaimedFor(h, m, i, key, val, dirty), d, keys, values);
  }

  /** Value and key are allocated before the bucket is touched. */
  lemma ClaimAllocs(h: Hash, m: Mem, i: nat, key: Key, val: Bytes, owes: bool)
    requires MemOk(m) && i < INDEX_SLOTS && Claimable(m.img.index[i])
    requires m.img.used + |val| + |key| <= ARENA_SIZE
    ensures Always(ClaimedFor(h, m, i, key, val, owes), m, AllocsScript(m.img, key, val))
    ensures ApplyAll(m, AllocsScript(m.img, key, val)) == m.(img := Allocated(m.img, key, val))
  {
    var d := m.(img := Alloc(m.img, val).value);
    ClaimAlloc(h, m, m, i, key, val, owes, val);
    AllocApplies(m, val);
    ClaimAlloc(h, m, d, i, key, val, owes, key);
    AllocApplies(d, key);
    AlwaysThen(ClaimedFor(h, m, i, key, val, owes), m, AllocScript(m.img, val), AllocScript(d.img, key));
    Then(m, AllocScript(m.img, val), d, AllocScript(d.img, key), m.(img := Allocated(m.img, key, val)));
  }

  function AllocsScript(img: Image, key: Key, val: Bytes): seq<Store>
    requires WellSized(img) && img.used + |val| + |key| <= ARENA_SIZE
  {
    AllocScript(img, val) + AllocScript(Alloc(img, val).value, key)
  }

  lemma ClaimParts(h: Hash, img: Image, i: nat, key: Key, val: Bytes, dirty: bool)
    requires WellSized(img) && i < INDEX_SLOTS && img.used + |val| + |key| <= ARENA_SIZE
    ensures PutLockedScript(h, img, i, false, key, val, dirty)
            == AllocsScript(img, key, val) + ClaimScript(h, i, img.used + |val|, key, img.used, |val|, dirty)
  {
  }

  lemma PutStaysClaimed(h: Hash, m: Mem, i: nat, key: Key, val: Bytes, dirty: bool)
    requires MemOk(m) && i < INDEX_SLOTS && Claimable(m.img.index[i])
    requires m.img.used + |val| + |key| <= ARENA_SIZE
    ensures Always(ClaimedFor(h, m, i, key, val, dirty), m, PutLockedScript(h, m.img, i, false, key, val, dirty))
  {
    PartsStayClaimed(h, m, i, key, val, dirty);
    ClaimParts(h, m.img, i, key, val, dirty);
  }

  lemma PartsStayClaimed(h: Hash, m: Mem, i: nat, key: Key, val: Bytes, dirty: bool)
    requires MemOk(m) && i < INDEX_SLOTS && Claimable(m.img.index[i])
    requires m.img.used + |val| + |key| <= ARENA_SIZE
    ensures Always(ClaimedFor(h, m, i, key, val, dirty), m,
                   AllocsScript(m.img, key, val) + ClaimScript(h, i, m.img.used + |val|, key, m.img.used, |val|, dirty))
  {
    ClaimAllocs(h, m, i, key, val, dirty);
    ClaimRest(h, m, i, key, val, dirty);
    AlwaysThen(ClaimedFor(h, m, i, key, val, dirty), m, AllocsScript(m.img, key, val),
               ClaimScript(h, i, m.img.used + |val|, key, m.img.used, |val|, dirty));
  }

  lemma ClaimRest(h: Hash, m: Mem, i: nat, key: Key, val: Bytes, dirty: bool)
    requires MemOk(m) && i < INDEX_SLOTS && Claimable(m.img.index[i])
    requires m.img.used + |val| + |key| <= ARENA_SIZE
    ensures Always(ClaimedFor(h, m, i, key, val, dirty), m.(img := Allocated(m.img, key, val)),
                   ClaimScript(h, i, m.img.used + |val|, key, m.img.used, |val|, dirty))
  {
    AllocsClaimed(h, m, i, key, val, dirty);
    ClaimFields(h, m, m.(img := Allocated(m.img, key, val)), i, key, val, dirty);
  }

  lemma AllocsClaimed(h: Hash, m: Mem, i: nat, key: Key, val: Bytes, owes: bool)
    requires MemOk(m) && i < INDEX_SLOTS && Claimable(m.img.index[i])
    requires m.img.used + |val| + |key| <= ARENA_SIZE
    ensures Claimed(h, m, m.(img := Allocated(m.img, key, val)), i, key, val, owes)
  {
  }

  /**
   * A tombstone that comes before the bucket of `k`, carries its full hash, and whose key was as long as `k`; and the
   * bytes that the claim would give it at that length are those of `k`: the new key's, and what lay beyond them.
   */
  ghost predicate Hides(h: Hash, img: Image, i: nat, key: Key, val: Bytes, k: Key)
    requires WellSized(img) && img.used + |val| + |key| <= ARENA_SIZE
  {
    && Lookup(h, img, k).Some? && Shadows(h, img, i, k)
    && ArenaEq(Allocated(img, key, val).arena, img.used + |val|, |k|, k)
  }

  /** A tombstone that comes before the bucket of `k`, carries its full hash, and whose old key was as long as `k`. */
  ghost predicate Shadows(h: Hash, img: Image, i: nat, k: Key) {
    && WellSized(img) && i < INDEX_SLOTS && CleanTomb(img.index[i])
    && img.index[i].hash == h(k) && img.index[i].keyLen == |k|
    && FoundBucket(h, img, k).Some? && Dist(h(k), i) < Dist(h(k), FoundBucket(h, img, k).value)
  }

  /** Every bucket but the one claimed holds what it held. */
  lemma HeldElsewhere(h: Hash, m: Mem, d: Mem, i: nat, key: Key, val: Bytes, owes: bool, j: nat, k: Key)
    requires Claimed(h, m, d, i, key, val, owes) && j < INDEX_SLOTS && KeyOk(h, m.img, j)
    ensures InUse(m.img.index[j]) ==> InUse(d.img.index[j])
    ensures j != i ==> (HoldsAt(h, d.img, j, k) <==> HoldsAt(h, m.img, j, k))
  {
    var e := m.img.index[j];
    if j != i && InUse(e) {
      TextFrame(m.img.arena, d.img.arena, m.img.used, e.keyOff, e.keyLen);
    }
  }

  /** The claimed bucket is taken for that of `k` only as a tombstone, and only as the condition says. */
  lemma HeldByClaimed(h: Hash, m: Mem, d: Mem, i: nat, key: Key, val: Bytes, owes: bool, k: Key)
    requires Claimed(h, m, d, i, key, val, owes) && KeyOk(h, m.img, i) && Claimable(m.img.index[i]) && k != key
    requires HoldsAt(h, d.img, i, k)
    ensures CleanTomb(m.img.index[i]) && d.img.index[i].status == Tomb
    ensures || HoldsAt(h, m.img, i, k)
            || (&& m.img.index[i].hash == h(k) && m.img.index[i].keyLen == |k|
                && ArenaEq(Allocated(m.img, key, val).arena, m.img.used + |val|, |k|, k))
  {
    var e := m.img.index[i];
    if InUse(e) {
      TextFrame(m.img.arena, d.img.arena, m.img.used, e.keyOff, e.keyLen);
    }
  }

  /** A live key is found where it was, unless the claimed bucket hides it. */
  lemma StillFound(h: Hash, m: Mem, d: Mem, i: nat, key: Key, val: Bytes, owes: bool, k: Key)
    requires Residue(h, m.img) && Claimed(h, m, d, i, key, val, owes) && Claimable(m.img.index[i]) && k != key
    requires Lookup(h, m.img, k).Some? && !Hides(h, m.img, i, key, val, k)
    ensures Lookup(h, d.img, k) == Lookup(h, m.img, k)
  {
    var f := FoundBucket(h, m.img, k).value;
    FoundIsHeld(h, m.img, k);
    var n := ProbeStops(h, m.img, k);
    assert f == Bucket(h(k), n) && f != i && KeyOk(h, m.img, f);
    DistBucket(h(k), n);
    forall j | 0 <= j < n
      ensures InUse(d.img.index[Bucket(h(k), j)]) && !HoldsAt(h, d.img, Bucket(h(k), j), k)
    {
      NotHeldBefore(h, m, d, i, key, val, owes, k, n, j);
    }
    HeldElsewhere(h, m, d, i, key, val, owes, f, k);
    ProbeFound(h, d.img, k, n);
    TextFrame(m.img.arena, d.img.arena, m.img.used, m.img.index[f].valOff, m.img.index[f].valLen);
  }

  lemma NotHeldBefore(h: Hash, m: Mem, d: Mem, i: nat, key: Key, val: Bytes, owes: bool, k: Key, n: nat, j: nat)
    requires Residue(h, m.img) && Claimed(h, m, d, i, key, val, owes) && Claimable(m.img.index[i]) && k != key
    requires Lookup(h, m.img, k).Some? && !Hides(h, m.img, i, key, val, k)
    requires j < n < MAX_PROBES && Passed(h, m.img, k, n) && FoundBucket(h, m.img, k) == Some(Bucket(h(k), n))
    ensures InUse(d.img.index[Bucket(h(k), j)]) && !HoldsAt(h, d.img, Bucket(h(k), j), k)
  {
    var b := Bucket(h(k), j);
    assert KeyOk(h, m.img, b) && KeyOk(h, m.img, i);
    HeldElsewhere(h, m, d, i, key, val, owes, b, k);
    DistBucket(h(k), j);
    DistBucket(h(k), n);
    if b == i && HoldsAt(h, d.img, i, k) {
      HeldByClaimed(h, m, d, i, key, val, owes, k);
      assert false;
    }
  }

  /** A key that read as absent still does. */
  lemma StillAbsent(h: Hash, m: Mem, d: Mem, i: nat, key: Key, val: Bytes, owes: bool, k: Key)
    requires Residue(h, m.img) && Claimed(h, m, d, i, key, val, owes) && Claimable(m.img.index[i]) && k != key
    requires Lookup(h, m.img, k).None?
    ensures Lookup(h, d.img, k).None?
  {
    FoundIsHeld(h, d.img, k);
    if FoundBucket(h, d.img, k).Some? {
      var f := FoundBucket(h, d.img, k).value;
      assert KeyOk(h, m.img, f);
      HeldElsewhere(h, m, d, i, key, val, owes, f, k);
      if f == i {
        HeldByClaimed(h, m, d, i, key, val, owes, k);
      } else {
        HeldIsFound(h, m.img, f, k);
      }
    }
  }

  /** A search that fails in a sound table fails because no bucket holds the key. */
  lemma NotFoundNotHeld(h: Hash, img: Image, k: Key)
    requires Residue(h, img) && !Present(img, k)
    ensures forall j | 0 <= j < INDEX_SLOTS :: !HoldsAt(h, img, j, k)
  {
    forall j | 0 <= j < INDEX_SLOTS
      ensures !HoldsAt(h, img, j, k)
    {
      assert KeyOk(h, img, j);
    }
  }

  /** What the key being claimed for reads as. */
  lemma ClaimedKey(h: Hash, m: Mem, d: Mem, i: nat, key: Key, val: Bytes, owes: bool)
    requires Residue(h, m.img) && Claimed(h, m, d, i, key, val, owes) && m.img.index[i].status != Live
    requires Probe(h, m.img, key) == Some((i, false))
    ensures Lookup(h, m.img, key) == None
    ensures Lookup(h, d.img, key) == None || (Lookup(h, d.img, key) == Some(val) && (owes ==> d.img.index[i].dirty))
  {
    FoundExactly(h, m.img, key);
    FoundIsHeld(h, m.img, key);
    FoundIsHeld(h, d.img, key);
    forall j | 0 <= j < INDEX_SLOTS && HoldsAt(h, d.img, j, key)
      ensures j == i
    {
      ClaimedElsewhere(h, m, d, i, key, val, owes, j);
    }
  }

  lemma ClaimedElsewhere(h: Hash, m: Mem, d: Mem, i: nat, key: Key, val: Bytes, owes: bool, j: nat)
    requires Residue(h, m.img) && Claimed(h, m, d, i, key, val, owes) && !Present(m.img, key)
    requires j < INDEX_SLOTS && HoldsAt(h, d.img, j, key)
    ensures j == i
  {
    assert KeyOk(h, m.img, j);
    var e := m.img.index[j];
    if j != i {
      TextFrame(m.img.arena, d.img.arena, m.img.used, e.keyOff, e.keyLen);
      assert false;
    }
  }

  /**
   * A writer dies after any number of the stores that claim a bucket for a new key. Once the counter is repaired, the
   * key reads as absent, or as its new value and owed to the disk, and every other key as before, unless the claim can
   * hide it.
   */
  lemma DeathWhileClaiming(h: Hash, m: Mem, i: nat, key: Key, val: Bytes, dirty: bool, n: nat, k: Key)
    requires MemOk(m) && Residue(h, m.img)
    requires Probe(h, m.img, key) == Some((i, false)) && m.img.used + |val| + |key| <= ARENA_SIZE
    requires i < INDEX_SLOTS && n <= |PutLockedScript(h, m.img, i, false, key, val, dirty)|
    ensures var d := ApplyAll(m, PutLockedScript(h, m.img, i, false, key, val, dirty)[..n]);
            && MemOk(d)
            && var r := RepairSeq(d, SlotOf(h(key))).img;
               && Lookup(h, m.img, key) == None
               && (Lookup(h, r, key) == None || (Lookup(h, r, key) == Some(val) && (dirty ==> r.index[i].dirty)))
               && (k != key && !Hides(h, m.img, i, key, val, k) ==> Lookup(h, r, k) == Lookup(h, m.img, k))
               && (r.index[i].status != Tomb ==> Residue(h, r))
  {
    var script := PutLockedScript(h, m.img, i, false, key, val, dirty);
    var free := ProbeStops(h, m.img, key);
    PutStaysClaimed(h, m, i, key, val, dirty);
    AlwaysAfter(ClaimedFor(h, m, i, key, val, dirty), m, script, n);
    ApplyAllKeepsSlots(m, script[..n]);
    var d := ApplyAll(m, script[..n]);
    ClaimedKey(h, m, d, i, key, val, dirty);
    if d.img.index[i].status != Tomb {
      ClaimedResidue(h, m, d, i, key, val, dirty);
    }
    if k != key && !Hides(h, m.img, i, key, val, k) {
      if Lookup(h, m.img, k).Some? {
        StillFound(h, m, d, i, key, val, dirty, k);
      } else {
        StillAbsent(h, m, d, i, key, val, dirty, k);
      }
    }
  }

  /** What a claim offers is in range of its key, and no bucket holds it. */
  lemma OfferedInRange(h: Hash, img: Image, key: Key, i: nat)
    requires Residue(h, img) && Probe(h, img, key) == Some((i, false))
    ensures i < INDEX_SLOTS && Claimable(img.index[i]) && InRange(img, h(key), i) && !Present(img, key)
  {
    var n := ProbeStops(h, img, key);
    var j :| 0 <= j <= n && j < MAX_PROBES && i == Bucket(h(key), j) && Claimable(img.index[i]);
    DistBucket(h(key), j);
    FoundExactly(h, img, key);
  }

  /** A claim that is over, or of a bucket that was empty, leaves nothing half done that a search would meet. */
  lemma ClaimedResidue(h: Hash, m: Mem, d: Mem, i: nat, key: Key, val: Bytes, owes: bool)
    requires Residue(h, m.img) && Claimed(h, m, d, i, key, val, owes) && d.img.index[i].status != Tomb
    requires Probe(h, m.img, key) == Some((i, false))
    ensures Residue(h, d.img)
  {
    OfferedInRange(h, m.img, key, i);
    forall j | 0 <= j < INDEX_SLOTS
      ensures KeyOk(h, d.img, j) && Reachable(d.img, j)
      ensures j != i && InUse(m.img.index[j]) ==> KeyAt(d.img, j) == KeyAt(m.img, j) && KeyAt(d.img, j) != key
      ensures j == i && InUse(d.img.index[j]) ==> KeyAt(d.img, j) == key
    {
      ClaimedEntry(h, m, d, i, key, val, owes, j);
    }
  }

  lemma ClaimedEntry(h: Hash, m: Mem, d: Mem, i: nat, key: Key, val: Bytes, owes: bool, j: nat)
    requires Residue(h, m.img) && Claimed(h, m, d, i, key, val, owes) && d.img.index[i].status != Tomb
    requires Claimable(m.img.index[i]) && InRange(m.img, h(key), i) && !Present(m.img, key) && j < INDEX_SLOTS
    ensures KeyOk(h, d.img, j) && Reachable(d.img, j)
    ensures j != i && InUse(m.img.index[j]) ==> KeyAt(d.img, j) == KeyAt(m.img, j) && KeyAt(d.img, j) != key
    ensures j == i && InUse(d.img.index[j]) ==> KeyAt(d.img, j) == key
  {
    var e := m.img.index[j];
    assert KeyOk(h, m.img, j) && Reachable(m.img, j);
    assert forall b | 0 <= b < INDEX_SLOTS && InUse(m.img.index[b]) :: InUse(d.img.index[b]);
    if j != i && InUse(e) {
      TextFrame(m.img.arena, d.img.arena, m.img.used, e.keyOff, e.keyLen);
    }
  }

  /** What `k` reads as when a writer has died after `n` stores of a claim and its counter has been repaired. */
  function ReadsAfterDeath(h: Hash, m: Mem, i: nat, key: Key, val: Bytes, dirty: bool, n: nat, k: Key): Option<Bytes>
    requires MemOk(m) && i < INDEX_SLOTS && n <= |PutLockedScript(h, m.img, i, false, key, val, dirty)|
  {
    var d := ApplyAll(m, PutLockedScript(h, m.img, i, false, key, val, dirty)[..n]);
    if MemOk(d) then Lookup(h, RepairSeq(d, SlotOf(h(key))).img, k) else None
  }

  /** Wherever in a claim the writer dies, every other key reads as before, exactly when the claim cannot hide it. */
  lemma ClaimSparesExactly(h: Hash, m: Mem, i: nat, key: Key, val: Bytes, dirty: bool, k: Key)
    requires MemOk(m) && Residue(h, m.img)
    requires Probe(h, m.img, key) == Some((i, false)) && m.img.used + |val| + |key| <= ARENA_SIZE
    requires i < INDEX_SLOTS && k != key
    ensures (forall n | 0 <= n <= |PutLockedScript(h, m.img, i, false, key, val, dirty)| ::
               ReadsAfterDeath(h, m, i, key, val, dirty, n, k) == Lookup(h, m.img, k))
            <==> !Hides(h, m.img, i, key, val, k)
  {
    if Hides(h, m.img, i, key, val, k) {
      var n := DeathCanHide(h, m, i, key, val, dirty, k);
    } else {
      forall n | 0 <= n <= |PutLockedScript(h, m.img, i, false, key, val, dirty)|
        ensures ReadsAfterDeath(h, m, i, key, val, dirty, n, k) == Lookup(h, m.img, k)
      {
        DeathWhileClaiming(h, m, i, key, val, dirty, n, k);
      }
    }
  }

  /**
   * If it can, a death right after the store of the new key's offset does: searches for `k` then stop at the tombstone,
   * and `k`, live and perhaps never written to disk, is gone, repair or not.
   */
  lemma DeathCanHide(h: Hash, m: Mem, i: nat, key: Key, val: Bytes, dirty: bool, k: Key) returns (n: nat)
    requires MemOk(m) && Residue(h, m.img)
    requires Probe(h, m.img, key) == Some((i, false)) && m.img.used + |val| + |key| <= ARENA_SIZE
    requires Hides(h, m.img, i, key, val, k)
    ensures n <= |PutLockedScript(h, m.img, i, false, key, val, dirty)|
    ensures ReadsAfterDeath(h, m, i, key, val, dirty, n, k) == None
  {
    n := OffsetStored(h, m, i, key, val, dirty);
    OffsetHides(h, m, i, key, val, k);
  }

  /** The segment once a claim has gone so far as to store the new key's offset. */
  function OffsetOnly(m: Mem, i: nat, key: Key, val: Bytes): Mem
    requires MemOk(m) && m.img.used + |val| + |key| <= ARENA_SIZE
  {
    Apply(m.(img := Allocated(m.img, key, val)), SetEntry(i, FKeyOff(m.img.used + |val|)))
  }

  lemma OffsetHides(h: Hash, m: Mem, i: nat, key: Key, val: Bytes, k: Key)
    requires MemOk(m) && Residue(h, m.img) && m.img.used + |val| + |key| <= ARENA_SIZE && Hides(h, m.img, i, key, val, k)
    ensures MemOk(OffsetOnly(m, i, key, val)) && Lookup(h, OffsetOnly(m, i, key, val).img, k) == None
  {
    HiddenBehind(h, m, OffsetOnly(m, i, key, val), i, k);
  }

  /** A claim, up to and including the store of the new key's offset. */
  lemma OffsetStored(h: Hash, m: Mem, i: nat, key: Key, val: Bytes, dirty: bool) returns (n: nat)
    requires MemOk(m) && i < INDEX_SLOTS && m.img.used + |val| + |key| <= ARENA_SIZE
    ensures n <= |PutLockedScript(h, m.img, i, false, key, val, dirty)|
    ensures ApplyAll(m, PutLockedScript(h, m.img, i, false, key, val, dirty)[..n]) == OffsetOnly(m, i, key, val)
  {
    var a := Alloc(m.img, val).value;
    var b := Alloc(a, key).value;
    var (vals, keys, first) := (AllocScript(m.img, val), AllocScript(a, key), SetEntry(i, FKeyOff(a.used)));
    n := |vals| + |keys| + 1;
    assert PutLockedScript(h, m.img, i, false, key, val, dirty)[..n] == vals + keys + [first];
    AllocApplies(m, val);
    AllocApplies(m.(img := a), key);
    ApplyAllOne(m.(img := b), first);
    ThenTwice(m, vals, m.(img := a), keys, m.(img := b), [first], Apply(m.(img := b), first));
  }

  /** Nothing before the tombstone is found for `k`, and the tombstone is. */
  lemma HiddenBehind(h: Hash, m: Mem, d: Mem, i: nat, k: Key)
    requires Residue(h, m.img) && Shadows(h, m.img, i, k) && WellSized(d.img) && m.img.used <= d.img.used
    requires d.img.arena[..m.img.used] == m.img.arena[..m.img.used] && d.img.index == m.img.index[i := d.img.index[i]]
    requires d.img.index[i].status == Tomb && HoldsAt(h, d.img, i, k)
    ensures Lookup(h, d.img, k) == None
  {
    AheadOf(h, m.img, i, k);
    forall j | 0 <= j < Dist(h(k), i)
      ensures InUse(d.img.index[Bucket(h(k), j)]) && !HoldsAt(h, d.img, Bucket(h(k), j), k)
    {
      NotBefore(h, m, d, i, k, Bucket(h(k), j));
    }
    ProbeFound(h, d.img, k, Dist(h(k), i));
  }

  lemma AheadOf(h: Hash, img: Image, i: nat, k: Key)
    requires Residue(h, img) && Shadows(h, img, i, k)
    ensures Dist(h(k), i) < MAX_PROBES && Bucket(h(k), Dist(h(k), i)) == i
    ensures forall j | 0 <= j < Dist(h(k), i) :: InUse(img.index[Bucket(h(k), j)])
    ensures forall j | 0 <= j < Dist(h(k), i) ::
              Bucket(h(k), j) != i && Bucket(h(k), j) != FoundBucket(h, img, k).value
  {
    assert Reachable(img, i);
    forall j | 0 <= j < Dist(h(k), i)
      ensures Dist(h(k), Bucket(h(k), j)) == j
    {
      DistBucket(h(k), j);
    }
  }

  lemma NotBefore(h: Hash, m: Mem, d: Mem, i: nat, k: Key, b: nat)
    requires Residue(h, m.img) && WellSized(d.img) && b < INDEX_SLOTS && b != i && i < INDEX_SLOTS && InUse(m.img.index[b])
    requires m.img.used <= d.img.used && d.img.arena[..m.img.used] == m.img.arena[..m.img.used]
    requires d.img.index == m.img.index[i := d.img.index[i]]
    requires FoundBucket(h, m.img, k).Some? && b != FoundBucket(h, m.img, k).value
    ensures InUse(d.img.index[b]) && !HoldsAt(h, d.img, b, k)
  {
    FoundExactly(h, m.img, k);
    var e := m.img.index[b];
    assert KeyOk(h, m.img, b);
    TextFrame(m.img.arena, d.img.arena, m.img.used, e.keyOff, e.keyLen);
  }
}
