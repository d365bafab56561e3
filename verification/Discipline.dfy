/**
 * The rules every store obeys, at whatever point its writer may die.
 *
 * `RawInv` is what survives a writer's death outside compaction and clearing: weaker than `Inv`, since an abandoned
 * write may leave a half-written bucket, but enough for probing to be sound.
 */
module Discipline {
  import opened Layout
  import opened Index
  import opened Operations
  import opened Stores

  predicate Odd(v: nat) {
    v % 2 == 1
  }

  /** Bucket `i` lies in the probe range of `hash`, with no EMPTY gap before it. */
  ghost predicate InRange(img: Image, hash: nat, i: nat)
    requires WellSized(img) && i < INDEX_SLOTS
  {
    Dist(hash, i) < MAX_PROBES && forall j | 0 <= j < Dist(hash, i) :: InUse(img.index[Bucket(hash, j)])
  }

  ghost predicate RawEntry(img: Image, i: nat)
    requires WellSized(img) && i < INDEX_SLOTS
  {
    var e := img.index[i];
    InUse(e) ==> e.valOff + e.valLen <= img.used && InRange(img, e.hash, i)
  }

  ghost predicate RawInv(img: Image) {
    WellSized(img) && forall i | 0 <= i < INDEX_SLOTS :: RawEntry(img, i)
  }

  /** Whom a store to a field of bucket `i` may disturb: only keys whose counter is odd, or no key at all. */
  predicate FieldAllowed(m: Mem, i: nat, f: Field)
    requires MemOk(m) && i < INDEX_SLOTS
  {
    var e := m.img.index[i];
    match f
    case FHash(v) => Claimable(e) && Odd(m.slots[SlotOf(v)])
    case FKeyOff(_) => Claimable(e)
    case FKeyLen(_) => Claimable(e)
    case FValOff(_) => Odd(m.slots[SlotOf(e.hash)])
    case FValLen(_) => Odd(m.slots[SlotOf(e.hash)])
    case FStatus(s) => s != Empty && Odd(m.slots[SlotOf(e.hash)])
    case FDirty(_) => true
  }

  /** What may be stored while no compaction is under way. */
  predicate Allowed(m: Mem, s: Store)
    requires MemOk(m)
  {
    match s
    case SetEntry(i, f) => i < INDEX_SLOTS && FieldAllowed(m, i, f)
    case SetByte(a, _) => m.img.used <= a < ARENA_SIZE
    case SetUsed(n) => m.img.used <= n <= ARENA_SIZE
    case _ => true
  }

  /** Counters only grow; outside compaction the segment is sound and the store disturbs only announced keys. */
  ghost predicate Disciplined(m: Mem, s: Store) {
    && MemOk(m) && MemOk(Apply(m, s))
    && (s.SetSlot? ==> s.x < SLOTS && s.v > m.slots[s.x])
    && (s.SetArenaSeq? ==> s.v > m.arenaSeq)
    && (!Odd(m.arenaSeq) ==> RawInv(m.img) && Allowed(m, s))
    && (Odd(m.arenaSeq) && !Odd(Apply(m, s).arenaSeq) ==> Whole(Apply(m, s).img))
  }

  /** Every key in use lies in the allocated part of the arena: no bucket is left half rewritten. */
  ghost predicate Whole(img: Image) {
    forall i | 0 <= i < |img.index| && InUse(img.index[i]) :: img.index[i].keyOff + img.index[i].keyLen <= img.used
  }

  /** Every store of `todo` is disciplined when made in turn from `m`, and what remains at the end is sound. */
  ghost predicate Safe(m: Mem, todo: seq<Store>)
    decreases |todo|
  {
    if |todo| == 0 then MemOk(m) && (!Odd(m.arenaSeq) ==> RawInv(m.img))
    else Disciplined(m, todo[0]) && Safe(Apply(m, todo[0]), todo[1..])
  }

  lemma {:induction false} SafeThen(m: Mem, a: seq<Store>, b: seq<Store>)
    requires Safe(m, a) && Safe(ApplyAll(m, a), b)
    ensures Safe(m, a + b)
    decreases |a|
  {
    if |a| == 0 {
      assert a + b == b;
    } else {
      assert (a + b)[1..] == a[1..] + b;
      SafeThen(Apply(m, a[0]), a[1..], b);
    }
  }

  lemma SafeOne(m: Mem, s: Store)
    requires Disciplined(m, s)
    requires !Odd(Apply(m, s).arenaSeq) ==> RawInv(Apply(m, s).img)
    ensures Safe(m, [s])
  {
    assert Safe(Apply(m, s), [s][1..]);
  }

  // --------------------------------------------------------- allocation --

  lemma RawInvFrame(img: Image, img': Image)
    requires RawInv(img)
    requires WellSized(img') && img'.index == img.index && img.used <= img'.used
    ensures RawInv(img')
  {
    forall i | 0 <= i < INDEX_SLOTS
      ensures RawEntry(img', i)
    {
      assert RawEntry(img, i);
    }
  }

  lemma {:induction false} SafeBytes(m: Mem, off: nat, bytes: Bytes)
    requires MemOk(m) && RawInv(m.img)
    requires m.img.used <= off && off + |bytes| <= ARENA_SIZE
    ensures Safe(m, ByteStores(off, bytes))
    decreases |bytes|
  {
    if |bytes| > 0 {
      var m' := Apply(m, SetByte(off, bytes[0]));
      assert ByteStores(off, bytes)[1..] == ByteStores(off + 1, bytes[1..]);
      RawInvFrame(m.img, m'.img);
      SafeBytes(m', off + 1, bytes[1..]);
    }
  }

  lemma {:induction false} SafeAlloc(m: Mem, bytes: Bytes)
    requires MemOk(m) && RawInv(m.img)
    requires Alloc(m.img, bytes).Some?
    ensures Safe(m, AllocScript(m.img, bytes))
    ensures RawInv(Alloc(m.img, bytes).value)
  {
    SafeBytes(m, m.img.used, bytes);
    ByteStoresApply(m, m.img.used, bytes);
    var m' := ApplyAll(m, ByteStores(m.img.used, bytes));
    RawInvFrame(m.img, m'.img);
    RawInvFrame(m.img, Alloc(m.img, bytes).value);
    SafeOne(m', SetUsed(m.img.used + |bytes|));
    SafeThen(m, ByteStores(m.img.used, bytes), [SetUsed(m.img.used + |bytes|)]);
  }

  // -------------------------------------------------------- one bucket --

  lemma RawInvEntry(img: Image, i: nat, e: Entry)
    requires RawInv(img) && i < INDEX_SLOTS
    requires InUse(img.index[i]) ==> InUse(e)
    requires InUse(e) ==> e.valOff + e.valLen <= img.used && InRange(img, e.hash, i)
    ensures RawInv(img.(index := img.index[i := e]))
  {
    var img' := img.(index := img.index[i := e]);
    forall j | 0 <= j < INDEX_SLOTS
      ensures RawEntry(img', j)
    {
      assert RawEntry(img, j);
    }
  }

  lemma SafeField(m: Mem, i: nat, f: Field, rest: seq<Field>)
    requires MemOk(m) && RawInv(m.img) && i < INDEX_SLOTS
    requires FieldAllowed(m, i, f)
    requires Safe(Apply(m, SetEntry(i, f)), FieldStores(i, rest))
    ensures Safe(m, FieldStores(i, [f] + rest))
  {
    assert FieldStores(i, [f] + rest)[1..] == FieldStores(i, rest);
  }

  /** The bucket's own counter is odd, and the bucket may hold a value at `off` under its hash. */
  ghost predicate ReadyForValue(m: Mem, i: nat, off: nat, len: nat) {
    && MemOk(m) && RawInv(m.img) && i < INDEX_SLOTS
    && Odd(m.slots[SlotOf(m.img.index[i].hash)])
    && InRange(m.img, m.img.index[i].hash, i)
    && off + len <= m.img.used
  }

  /** A bucket's fields rewritten without changing its hash or emptying it. */
  lemma StillReady(m: Mem, i: nat, off: nat, len: nat, e: Entry)
    requires ReadyForValue(m, i, off, len)
    requires e.hash == m.img.index[i].hash && (InUse(m.img.index[i]) ==> InUse(e))
    requires InUse(e) ==> e.valOff + e.valLen <= m.img.used
    ensures ReadyForValue(m.(img := m.img.(index := m.img.index[i := e])), i, off, len)
  {
    RawInvEntry(m.img, i, e);
  }

  lemma SafeStatus(m: Mem, i: nat, off: nat, len: nat, s: Status)
    requires ReadyForValue(m, i, off, len) && s != Empty
    requires m.img.index[i].valOff + m.img.index[i].valLen <= m.img.used
    ensures Safe(m, FieldStores(i, [FStatus(s)]))
  {
    StillReady(m, i, off, len, m.img.index[i].(status := s));
    assert FieldStores(i, [FStatus(s)]) == [SetEntry(i, FStatus(s))];
    SafeOne(m, SetEntry(i, FStatus(s)));
  }

  lemma SafeDirtyStatus(m: Mem, i: nat, off: nat, len: nat, dirty: bool, s: Status)
    requires ReadyForValue(m, i, off, len) && s != Empty
    requires m.img.index[i].valOff + m.img.index[i].valLen <= m.img.used
    ensures Safe(m, FieldStores(i, (if dirty then [FDirty(true)] else []) + [FStatus(s)]))
  {
    if dirty {
      var e := m.img.index[i].(dirty := true);
      StillReady(m, i, off, len, e);
      SafeStatus(m.(img := m.img.(index := m.img.index[i := e])), i, off, len, s);
      SafeField(m, i, FDirty(true), [FStatus(s)]);
    } else {
      assert [] + [FStatus(s)] == [FStatus(s)];
      SafeStatus(m, i, off, len, s);
    }
  }

  /** Writing a value: length zeroed, offset, length, flag, state. Sound after each store. */
  lemma {:induction false} SafeValue(m: Mem, i: nat, off: nat, len: nat, dirty: bool)
    requires ReadyForValue(m, i, off, len)
    ensures Safe(m, FieldStores(i, ValueFields(off, len, dirty)))
  {
    var e := m.img.index[i];
    assert RawEntry(m.img, i);
    var e1 := e.(valLen := 0);
    var e2 := e1.(valOff := off);
    var e3 := e2.(valLen := len);
    var m1 := m.(img := m.img.(index := m.img.index[i := e1]));
    var m2 := m.(img := m.img.(index := m.img.index[i := e2]));
    var m3 := m.(img := m.img.(index := m.img.index[i := e3]));
    StillReady(m, i, off, len, e1);
    StillReady(m, i, off, len, e2);
    StillReady(m, i, off, len, e3);
    var tail := (if dirty then [FDirty(true)] else []) + [FStatus(Live)];
    SafeDirtyStatus(m3, i, off, len, dirty, Live);
    assert Apply(m2, SetEntry(i, FValLen(len))) == m3;
    SafeField(m2, i, FValLen(len), tail);
    assert Apply(m1, SetEntry(i, FValOff(off))) == m2;
    SafeField(m1, i, FValOff(off), [FValLen(len)] + tail);
    SafeField(m, i, FValLen(0), [FValOff(off)] + ([FValLen(len)] + tail));
    assert [FValLen(0)] + ([FValOff(off)] + ([FValLen(len)] + tail)) == ValueFields(off, len, dirty);
  }

  /** Claiming a bucket: its key is rewritten while it is empty or a clean tombstone, and only then its value. */
  lemma {:induction false} SafeKey(m: Mem, i: nat, keyOff: nat, keyLen: nat, hash: nat)
    requires MemOk(m) && RawInv(m.img) && i < INDEX_SLOTS
    requires Claimable(m.img.index[i]) && InRange(m.img, hash, i) && Odd(m.slots[SlotOf(hash)])
    ensures Safe(m, FieldStores(i, KeyFields(keyOff, keyLen, hash)))
    ensures RawInv(m.img.(index := m.img.index[i := m.img.index[i].(keyOff := keyOff, keyLen := keyLen, hash := hash)]))
  {
    var e := m.img.index[i];
    assert RawEntry(m.img, i);
    var e1 := e.(keyOff := keyOff);
    var e2 := e1.(keyLen := keyLen);
    var e3 := e2.(hash := hash);
    var m1 := m.(img := m.img.(index := m.img.index[i := e1]));
    var m2 := m.(img := m.img.(index := m.img.index[i := e2]));
    RawInvEntry(m.img, i, e1);
    RawInvEntry(m.img, i, e2);
    RawInvEntry(m.img, i, e3);
    assert FieldStores(i, [FHash(hash)]) == [SetEntry(i, FHash(hash))];
    assert m2.img.index[i := e3] == m.img.index[i := e3];
    SafeOne(m2, SetEntry(i, FHash(hash)));
    assert Apply(m1, SetEntry(i, FKeyLen(keyLen))) == m2;
    SafeField(m1, i, FKeyLen(keyLen), [FHash(hash)]);
    SafeField(m, i, FKeyOff(keyOff), [FKeyLen(keyLen)] + [FHash(hash)]);
    assert [FKeyOff(keyOff)] + ([FKeyLen(keyLen)] + [FHash(hash)]) == KeyFields(keyOff, keyLen, hash);
  }

  // --------------------------------------------------------------- put --

  lemma ProbeInRange(h: Hash, img: Image, key: Key)
    requires RawInv(img) && Probe(h, img, key).Some?
    ensures var (i, found) := Probe(h, img, key).value;
            && InRange(img, h(key), i)
            && (found ==> InUse(img.index[i]) && img.index[i].hash == h(key))
            && (!found ==> Claimable(img.index[i]))
  {
    var (i, found) := Probe(h, img, key).value;
    var n := ProbeStops(h, img, key);
    if found {
      assert Probe(h, img, key) == Some((i, true));
      DistBucket(h(key), n);
    } else {
      assert Probe(h, img, key) == Some((i, false));
      var d :| 0 <= d <= n && d < MAX_PROBES && i == Bucket(h(key), d) && Claimable(img.index[i]);
      DistBucket(h(key), d);
    }
  }

  lemma SafePutLocked(h: Hash, m: Mem, i: nat, found: bool, key: Key, val: Bytes, dirty: bool)
    requires MemOk(m) && RawInv(m.img) && i < INDEX_SLOTS
    requires InRange(m.img, h(key), i) && Odd(m.slots[SlotOf(h(key))])
    requires found ==> InUse(m.img.index[i]) && m.img.index[i].hash == h(key)
    requires !found ==> Claimable(m.img.index[i])
    ensures Safe(m, PutLockedScript(h, m.img, i, found, key, val, dirty))
  {
    var a := Alloc(m.img, val);
    if a.Some? {
      var m1 := m.(img := a.value);
      SafeAlloc(m, val);
      AllocApplies(m, val);
      if found {
        SafeOverwrite(m1, i, m.img, |val|, dirty);
        SafeThen(m, AllocScript(m.img, val), CountScript(m.img, m.img.index[i]) + FieldStores(i, ValueFields(m.img.used, |val|, dirty)));
        assert AllocScript(m.img, val) + (CountScript(m.img, m.img.index[i]) + FieldStores(i, ValueFields(m.img.used, |val|, dirty)))
            == PutLockedScript(h, m.img, i, found, key, val, dirty);
      } else if Alloc(a.value, key).Some? {
        var m2 := m.(img := Alloc(a.value, key).value);
        SafeAlloc(m1, key);
        AllocApplies(m1, key);
        SafeClaim(h, m2, i, a.value.used, key, m.img.used, |val|, dirty);
        SafeThen(m, AllocScript(m.img, val), AllocScript(a.value, key));
        ApplyAllConcat(m, AllocScript(m.img, val), AllocScript(a.value, key));
        SafeThen(m, AllocScript(m.img, val) + AllocScript(a.value, key), ClaimScript(h, i, a.value.used, key, m.img.used, |val|, dirty));
      }
    }
  }

  lemma SafeOverwrite(m: Mem, i: nat, img0: Image, len: nat, dirty: bool)
    requires ReadyForValue(m, i, img0.used, len) && i < |img0.index|
    ensures Safe(m, CountScript(img0, img0.index[i]) + FieldStores(i, ValueFields(img0.used, len, dirty)))
  {
    var count := CountScript(img0, img0.index[i]);
    var value := FieldStores(i, ValueFields(img0.used, len, dirty));
    if count == [] {
      assert count + value == value;
      SafeValue(m, i, img0.used, len, dirty);
    } else {
      var n := img0.garbage + img0.index[i].valLen;
      ReadyDespiteGarbage(m, n, i, img0.used, len);
      SafeValue(Apply(m, SetGarbage(n)), i, img0.used, len, dirty);
      SafeGarbage(m, n, value);
    }
  }

  lemma ReadyDespiteGarbage(m: Mem, n: nat, i: nat, off: nat, len: nat)
    requires ReadyForValue(m, i, off, len)
    ensures ReadyForValue(Apply(m, SetGarbage(n)), i, off, len)
  {
    RawInvFrame(m.img, Apply(m, SetGarbage(n)).img);
  }

  lemma SafeGarbage(m: Mem, n: nat, rest: seq<Store>)
    requires MemOk(m) && RawInv(m.img)
    requires Safe(Apply(m, SetGarbage(n)), rest)
    ensures Safe(m, [SetGarbage(n)] + rest)
  {
    assert ([SetGarbage(n)] + rest)[1..] == rest;
  }

  lemma SafeClaim(h: Hash, m: Mem, i: nat, keyOff: nat, key: Key, off: nat, len: nat, dirty: bool)
    requires MemOk(m) && RawInv(m.img) && i < INDEX_SLOTS
    requires Claimable(m.img.index[i]) && InRange(m.img, h(key), i) && Odd(m.slots[SlotOf(h(key))])
    requires off + len <= m.img.used
    ensures Safe(m, ClaimScript(h, i, keyOff, key, off, len, dirty))
  {
    var fs := KeyFields(keyOff, |key|, h(key));
    var m' := m.(img := m.img.(index := m.img.index[i := m.img.index[i].(keyOff := keyOff, keyLen := |key|, hash := h(key))]));
    SafeKey(m, i, keyOff, |key|, h(key));
    WithFieldsShort(m.img.index[i], fs);
    FieldStoresApply(m, i, fs);
    SafeValue(m', i, off, len, dirty);
    SafeThen(m, FieldStores(i, fs), FieldStores(i, ValueFields(off, len, dirty)));
  }

  /** A body that runs with the slot's counter odd, and leaves the counters alone. */
  lemma SafeWindow(m: Mem, x: nat, body: seq<Store>, m2: Mem)
    requires MemOk(m) && RawInv(m.img) && x < SLOTS
    requires var m1 := m.(slots := m.slots[x := NextOdd(m.slots[x])]);
             Safe(m1, body) && ApplyAll(m1, body) == m2 && m2.slots == m1.slots
    requires MemOk(m2) && RawInv(m2.img)
    ensures Safe(m, Window(m.slots, x, body))
  {
    var begin := SetSlot(x, NextOdd(m.slots[x]));
    var end := SetSlot(x, Bump(m.slots[x]));
    SafeOne(m, begin);
    ApplyAllOne(m, begin);
    SafeOne(m2, end);
    SafeThen(m, [begin], body);
    ApplyAllConcat(m, [begin], body);
    SafeThen(m, [begin] + body, [end]);
  }

  /** What a disciplined run leaves behind is sound. */
  lemma {:induction false} SafeEnd(m: Mem, todo: seq<Store>)
    requires Safe(m, todo)
    ensures MemOk(ApplyAll(m, todo))
    ensures !Odd(ApplyAll(m, todo).arenaSeq) ==> RawInv(ApplyAll(m, todo).img)
    decreases |todo|
  {
    if |todo| > 0 {
      SafeEnd(Apply(m, todo[0]), todo[1..]);
    }
  }

  // -------------------------------------------------------- compaction --

  /** A store that touches neither kind of counter. */
  predicate Plain(s: Store) {
    !s.SetSlot? && !s.SetArenaSeq? && (s.SetUsed? ==> s.n <= ARENA_SIZE)
  }

  predicate AllPlain(ss: seq<Store>) {
    forall s | s in ss :: Plain(s)
  }

  lemma {:induction false} SafePlain(m: Mem, body: seq<Store>)
    requires MemOk(m) && Odd(m.arenaSeq) && AllPlain(body)
    ensures Safe(m, body)
    decreases |body|
  {
    if |body| > 0 {
      assert Plain(body[0]);
      SafePlain(Apply(m, body[0]), body[1..]);
    }
  }

  lemma PlainBoth(a: seq<Store>, b: seq<Store>)
    requires AllPlain(a) && AllPlain(b)
    ensures AllPlain(a + b)
  {
  }

  lemma {:induction false} WipePlain(n: nat)
    ensures AllPlain(WipeEntries(n))
  {
    if n > 0 {
      WipePlain(n - 1);
    }
  }

  lemma AllocPlain(img: Image, bytes: Bytes)
    requires WellSized(img) && Alloc(img, bytes).Some?
    ensures AllPlain(AllocScript(img, bytes))
  {
  }

  lemma ReinsertPlain(h: Hash, img: Image, k: Keep)
    requires WellSized(img)
    ensures AllPlain(ReinsertScript(h, img, k))
  {
    var p := Probe(h, img, k.key);
    if p.Some? && Alloc(img, k.key).Some? {
      var a := Alloc(img, k.key).value;
      AllocPlain(img, k.key);
      assert AllPlain(ReinsertKeyScript(h, img, p.value.0, k));
      if k.val.Some? && Alloc(a, k.val.value).Some? {
        AllocPlain(a, k.val.value);
      }
    }
  }

  lemma {:induction false} ReinsertAllPlain(h: Hash, img: Image, ks: seq<Keep>)
    requires WellSized(img)
    ensures AllPlain(ReinsertAllScript(h, img, ks))
  {
    if |ks| > 0 {
      var n := |ks| - 1;
      ReinsertAllPlain(h, img, ks[..n]);
      ReinsertPlain(h, ReinsertAll(h, img, ks[..n]), ks[n]);
      PlainBoth(ReinsertAllScript(h, img, ks[..n]), ReinsertScript(h, ReinsertAll(h, img, ks[..n]), ks[n]));
    }
  }

  lemma {:induction false} ReinsertAllRaw(h: Hash, img: Image, ks: seq<Keep>)
    requires RawInv(img)
    ensures RawInv(ReinsertAll(h, img, ks))
    ensures Whole(img) ==> Whole(ReinsertAll(h, img, ks))
  {
    if |ks| > 0 {
      var n := |ks| - 1;
      ReinsertAllRaw(h, img, ks[..n]);
      ReinsertRaw(h, ReinsertAll(h, img, ks[..n]), ks[n]);
    }
  }

  lemma ReinsertRaw(h: Hash, img: Image, k: Keep)
    requires RawInv(img)
    ensures RawInv(Reinsert(h, img, k))
    ensures Whole(img) ==> Whole(Reinsert(h, img, k))
  {
    var p := Probe(h, img, k.key);
    if p.Some? && Alloc(img, k.key).Some? {
      var i := p.value.0;
      var img' := Reinsert(h, img, k);
      ProbeInRange(h, img, k.key);
      assert RawEntry(img, i);
      RawInvFrame(img, img'.(index := img.index));
      RawInvEntry(img'.(index := img.index), i, img'.index[i]);
    }
  }

  lemma WipedRaw(img: Image)
    requires WellSized(img)
    ensures RawInv(Wiped(img)) && Whole(Wiped(img))
  {
  }

  lemma SafeArenaWindow(m: Mem, body: seq<Store>, m2: Mem)
    requires MemOk(m) && !Odd(m.arenaSeq) && RawInv(m.img) && AllPlain(body)
    requires ApplyAll(m.(arenaSeq := NextOdd(m.arenaSeq)), body) == m2
    requires MemOk(m2) && m2.arenaSeq == NextOdd(m.arenaSeq) && RawInv(m2.img) && Whole(m2.img)
    ensures Safe(m, ArenaWindow(m.arenaSeq, body))
  {
    var begin := SetArenaSeq(NextOdd(m.arenaSeq));
    var end := SetArenaSeq(Bump(m.arenaSeq));
    SafeOne(m, begin);
    ApplyAllOne(m, begin);
    SafePlain(m.(arenaSeq := NextOdd(m.arenaSeq)), body);
    SafeThen(m, [begin], body);
    SafeOne(m2, end);
    ApplyAllConcat(m, [begin], body);
    SafeThen(m, [begin] + body, [end]);
  }

  lemma SafeCompact(h: Hash, m: Mem)
    requires MemOk(m) && !Odd(m.arenaSeq) && RawInv(m.img)
    ensures Safe(m, CompactScript(h, m))
    ensures RawInv(Compact(h, m.img))
  {
    var ks := Keeps(m.img, INDEX_SLOTS);
    var m1 := m.(arenaSeq := NextOdd(m.arenaSeq));
    WipePlain(INDEX_SLOTS);
    ReinsertAllPlain(h, Wiped(m.img), ks);
    WipedRaw(m.img);
    ReinsertAllRaw(h, Wiped(m.img), ks);
    WipeApplies(m1);
    ReinsertAllApplies(h, m1.(img := Wiped(m.img)), ks);
    ApplyAllConcat(m1, WipeScript(), ReinsertAllScript(h, Wiped(m.img), ks));
    SafeArenaWindow(m, WipeScript() + ReinsertAllScript(h, Wiped(m.img), ks), m1.(img := Compact(h, m.img)));
  }

  // ------------------------------------------------- every operation --

  /** What a process may do while it holds the writer lock. */
  datatype Op =
    | OpPut(key: Key, val: Bytes, dirty: bool)
    | OpRemove(key: Key, dirty: bool)
    | OpClear
    | OpRepair(x: nat)
    | OpWriteback(done: seq<Pending>)

  function Script(h: Hash, m: Mem, op: Op): seq<Store>
    requires MemOk(m)
  {
    match op
    case OpPut(key, val, dirty) => PutScript(h, m, key, val, dirty)
    case OpRemove(key, dirty) => RemoveScript(h, m, key, dirty)
    case OpClear => ClearScript(m)
    case OpRepair(x) => if x < SLOTS then RepairScript(m, x) else []
    case OpWriteback(done) => WritebackScript(h, m, done)
  }

  function Result(h: Hash, m: Mem, op: Op): Mem
    requires MemOk(m)
  {
    match op
    case OpPut(key, val, dirty) => Put(h, m, key, val, dirty).mem
    case OpRemove(key, dirty) => Remove(h, m, key, dirty).mem
    case OpClear => Clear(m)
    case OpRepair(x) => if x < SLOTS then RepairSeq(m, x) else m
    case OpWriteback(done) => Writeback(h, m, done)
  }

  /** Running an operation's stores without interruption computes the operation. */
  lemma ScriptApplies(h: Hash, m: Mem, op: Op)
    requires MemOk(m)
    ensures ApplyAll(m, Script(h, m, op)) == Result(h, m, op)
  {
    match op
    case OpPut(key, val, dirty) => PutApplies(h, m, key, val, dirty);
    case OpRemove(key, dirty) => RemoveApplies(h, m, key, dirty);
    case OpClear => ClearApplies(m);
    case OpRepair(x) => if x < SLOTS { RepairApplies(m, x); }
    case OpWriteback(done) => WritebackApplies(h, m, done);
  }

  lemma SafePut(h: Hash, m: Mem, key: Key, val: Bytes, dirty: bool)
    requires MemOk(m) && !Odd(m.arenaSeq) && RawInv(m.img)
    ensures Safe(m, PutScript(h, m, key, val, dirty))
  {
    var need := |key| + |val|;
    var s := EnsureSpace(h, m, need).mem;
    var p := Probe(h, s.img, key);
    SafeCompact(h, m);
    CompactApplies(h, m);
    if !HoldsValue(h, m.img, key, val) {
      if EnsureSpace(h, m, need).ok && p.Some? {
        var x := SlotOf(h(key));
        var body := PutLockedScript(h, s.img, p.value.0, p.value.1, key, val, dirty);
        var m1 := s.(slots := s.slots[x := NextOdd(s.slots[x])]);
        ProbeInRange(h, s.img, key);
        SafePutLocked(h, m1, p.value.0, p.value.1, key, val, dirty);
        PutLockedScriptApplies(h, m1, p.value.0, p.value.1, key, val, dirty);
        SafeEnd(m1, body);
        SafeWindow(s, x, body, ApplyAll(m1, body));
        SafeThen(m, EnsureSpaceScript(h, m, need), Window(m.slots, x, body));
      } else {
        assert PutScript(h, m, key, val, dirty) == EnsureSpaceScript(h, m, need);
      }
    }
  }

  lemma SafeRemove(h: Hash, m: Mem, key: Key, dirty: bool)
    requires MemOk(m) && !Odd(m.arenaSeq) && RawInv(m.img)
    ensures Safe(m, RemoveScript(h, m, key, dirty))
  {
    var b := LiveBucket(h, m.img, key);
    if b.Some? {
      var x := SlotOf(h(key));
      var m1 := m.(slots := m.slots[x := NextOdd(m.slots[x])]);
      ProbeInRange(h, m.img, key);
      SafeRemoveBody(m1, b.value, dirty);
      RemoveBodyApplies(m1, b.value, dirty);
      SafeEnd(m1, RemoveBody(m.img, b.value, dirty));
      SafeWindow(m, x, RemoveBody(m.img, b.value, dirty), ApplyAll(m1, RemoveBody(m.img, b.value, dirty)));
    }
  }

  lemma SafeRemoveBody(m: Mem, i: nat, dirty: bool)
    requires ReadyForValue(m, i, 0, 0) && InUse(m.img.index[i])
    ensures Safe(m, RemoveBody(m.img, i, dirty))
  {
    var n := m.img.garbage + m.img.index[i].valLen;
    ReadyDespiteGarbage(m, n, i, 0, 0);
    SafeRemoveFields(Apply(m, SetGarbage(n)), i, dirty);
    SafeGarbage(m, n, FieldStores(i, RemoveFields(dirty)));
  }

  lemma SafeRemoveFields(m: Mem, i: nat, dirty: bool)
    requires ReadyForValue(m, i, 0, 0) && InUse(m.img.index[i])
    ensures Safe(m, FieldStores(i, RemoveFields(dirty)))
  {
    var e1 := m.img.index[i].(valLen := 0);
    var tail := (if dirty then [FDirty(true)] else []) + [FStatus(Tomb)];
    assert RawEntry(m.img, i);
    StillReady(m, i, 0, 0, e1);
    RemoveTail(m.(img := m.img.(index := m.img.index[i := e1])), i, dirty);
    SafeField(m, i, FValLen(0), tail);
    assert [FValLen(0)] + tail == RemoveFields(dirty);
  }

  lemma RemoveTail(m: Mem, i: nat, dirty: bool)
    requires ReadyForValue(m, i, 0, 0) && m.img.index[i].valLen == 0 && m.img.index[i].valOff <= m.img.used
    ensures Safe(m, FieldStores(i, (if dirty then [FDirty(true)] else []) + [FStatus(Tomb)]))
  {
    SafeDirtyStatus(m, i, 0, 0, dirty, Tomb);
  }

  lemma {:induction false} SafeBumpSlots(m: Mem, slots: seq<nat>, n: nat)
    requires MemOk(m) && RawInv(m.img) && m.slots == slots && n <= SLOTS
    ensures Safe(m, BumpSlots(slots, n))
  {
    if n > 0 {
      SafeBumpSlots(m, slots, n - 1);
      BumpSlotsApply(m, slots, n - 1);
      SafeOne(ApplyAll(m, BumpSlots(slots, n - 1)), SetSlot(n - 1, NextEven(slots[n - 1])));
      SafeThen(m, BumpSlots(slots, n - 1), [SetSlot(n - 1, NextEven(slots[n - 1]))]);
    }
  }

  lemma SafeClear(m: Mem)
    requires MemOk(m) && !Odd(m.arenaSeq) && RawInv(m.img)
    ensures Safe(m, ClearScript(m))
  {
    var m1 := m.(arenaSeq := NextOdd(m.arenaSeq));
    WipePlain(INDEX_SLOTS);
    WipedRaw(m.img);
    WipeApplies(m1);
    SafeArenaWindow(m, WipeScript(), m1.(img := Wiped(m.img)));
    WipeWindowApplies(m);
    SafeBumpSlots(m.(img := Wiped(m.img), arenaSeq := Bump(m.arenaSeq)), m.slots, SLOTS);
    SafeThen(m, WipeWindow(m), BumpSlots(m.slots, SLOTS));
  }

  lemma {:induction false} SafeWriteback(h: Hash, m: Mem, done: seq<Pending>)
    requires MemOk(m) && RawInv(m.img)
    ensures Safe(m, WritebackScript(h, m, done))
    ensures RawInv(Writeback(h, m, done).img)
  {
    if |done| > 0 {
      var n := |done| - 1;
      var m' := Writeback(h, m, done[..n]);
      SafeWriteback(h, m, done[..n]);
      WritebackApplies(h, m, done[..n]);
      var r := RetireScript(h, m', done[n]);
      if r != [] {
        var i := Probe(h, m'.img, done[n].key).value.0;
        assert RawEntry(m'.img, i);
        RawInvEntry(m'.img, i, m'.img.index[i].(dirty := false));
        SafeOne(m', r[0]);
      }
      SafeThen(m, WritebackScript(h, m, done[..n]), r);
    }
  }

  /** Every operation starts from a sound segment with a disciplined script. */
  lemma SafeOp(h: Hash, m: Mem, op: Op)
    requires MemOk(m) && !Odd(m.arenaSeq) && RawInv(m.img)
    ensures Safe(m, Script(h, m, op))
  {
    match op
    case OpPut(key, val, dirty) => SafePut(h, m, key, val, dirty);
    case OpRemove(key, dirty) => SafeRemove(h, m, key, dirty);
    case OpClear => SafeClear(m);
    case OpRepair(x) =>
      if x < SLOTS && Odd(m.slots[x]) {
        SafeOne(m, SetSlot(x, NextEven(m.slots[x])));
        assert RepairScript(m, x) == [SetSlot(x, NextEven(m.slots[x]))];
      }
    case OpWriteback(done) => SafeWriteback(h, m, done);
  }
}
