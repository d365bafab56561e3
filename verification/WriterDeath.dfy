/** What is left when a writer dies between two stores of an overwrite or a removal, and what repair makes of it. */
module WriterDeath {
  import opened Layout
  import opened Index
  import opened Operations
  import opened Stores
  import opened Discipline
  import opened Seqlock

  // -------------------------------------------- same search, same bucket --

  /** The two images agree, bucket by bucket, on use and on whether `key` is held. */
  ghost predicate SameSearch(h: Hash, img: Image, img': Image, key: Key) {
    && WellSized(img) && WellSized(img')
    && forall j | 0 <= j < INDEX_SLOTS ::
         (InUse(img'.index[j]) <==> InUse(img.index[j])) && (HoldsAt(h, img', j, key) <==> HoldsAt(h, img, j, key))
  }

  /** A bucket that a search finds holds the key. */
  lemma FoundIsHeld(h: Hash, img: Image, key: Key)
    requires WellSized(img)
    ensures var p := Probe(h, img, key);
            p.Some? && p.value.1 ==> p == Some((p.value.0, true)) && HoldsAt(h, img, p.value.0, key)
  {
    var n := ProbeStops(h, img, key);
    var p := Probe(h, img, key);
    if p.Some? && p.value.1 {
      assert p == Some((p.value.0, true));
    }
  }

  lemma SearchFinds(h: Hash, img: Image, img': Image, key: Key)
    requires WellSized(img) && WellSized(img')
    requires forall j | 0 <= j < INDEX_SLOTS ::
               (InUse(img.index[j]) ==> InUse(img'.index[j])) && (HoldsAt(h, img', j, key) <==> HoldsAt(h, img, j, key))
    requires Probe(h, img, key).Some? && Probe(h, img, key).value.1
    ensures Probe(h, img', key) == Probe(h, img, key)
  {
    assert Probe(h, img, key) == Some((Probe(h, img, key).value.0, true));
    var n := ProbeStops(h, img, key);
    assert HoldsAt(h, img', Bucket(h(key), n), key);
    ProbeFound(h, img', key, n);
  }

  /** The same bucket is found, or none. */
  lemma SearchAgrees(h: Hash, img: Image, img': Image, key: Key)
    requires SameSearch(h, img, img', key)
    ensures forall i :: Probe(h, img', key) == Some((i, true)) <==> Probe(h, img, key) == Some((i, true))
  {
    if Probe(h, img, key).Some? && Probe(h, img, key).value.1 {
      SearchFinds(h, img, img', key);
    } else if Probe(h, img', key).Some? && Probe(h, img', key).value.1 {
      SearchFinds(h, img', img, key);
    }
  }

  // ------------------------------------------------------- the residue --

  /** The bucket's regions are allocated and its hash is that of its key. */
  predicate KeyOk(h: Hash, img: Image, i: nat)
    requires i < |img.index|
  {
    var e := img.index[i];
    InUse(e) ==> e.keyOff + e.keyLen <= img.used && e.valOff + e.valLen <= img.used && e.hash == h(KeyAt(img, i))
  }

  /**
   * A table in which writers may have died, any number of them, though not while reclaiming a tombstone: all that
   * searches depend on is in order, but the byte accounts and a bucket's flags may not be.
   */
  ghost predicate Residue(h: Hash, img: Image) {
    && WellSized(img) && Unique(img)
    && forall i | 0 <= i < INDEX_SLOTS :: KeyOk(h, img, i) && Reachable(img, i)
  }

  lemma SoundIsResidue(h: Hash, img: Image)
    requires Inv(h, img)
    ensures Residue(h, img)
  {
    forall i | 0 <= i < INDEX_SLOTS
      ensures KeyOk(h, img, i) && Reachable(img, i)
    {
      assert EntryOk(h, img, i);
    }
  }

  /** A bucket that holds a key is where searches for it end. */
  lemma HeldIsFound(h: Hash, img: Image, f: nat, k: Key)
    requires Residue(h, img) && f < INDEX_SLOTS && HoldsAt(h, img, f, k)
    ensures Probe(h, img, k) == Some((f, true))
  {
    assert KeyOk(h, img, f) && Reachable(img, f) && KeyAt(img, f) == k;
    forall j | 0 <= j < Dist(h(k), f)
      ensures InUse(img.index[Bucket(h(k), j)]) && !HoldsAt(h, img, Bucket(h(k), j), k)
    {
      NotHeldAgain(h, img, f, k, j);
    }
    ProbeFound(h, img, k, Dist(h(k), f));
  }

  /** A key is found exactly when some bucket holds it. */
  lemma FoundExactly(h: Hash, img: Image, key: Key)
    requires Residue(h, img)
    ensures Present(img, key) <==> Probe(h, img, key).Some? && Probe(h, img, key).value.1
    ensures forall i | Probe(h, img, key) == Some((i, true)) :: InUse(img.index[i]) && KeyAt(img, i) == key
  {
    if Present(img, key) {
      var i :| 0 <= i < INDEX_SLOTS && InUse(img.index[i]) && KeyAt(img, i) == key;
      assert KeyOk(h, img, i);
      HeldIsFound(h, img, i, key);
    }
    var n := ProbeStops(h, img, key);
  }

  lemma NotHeldAgain(h: Hash, img: Image, f: nat, k: Key, j: nat)
    requires Residue(h, img) && f < INDEX_SLOTS && InUse(img.index[f]) && KeyAt(img, f) == k
    requires j < Dist(h(k), f)
    ensures !HoldsAt(h, img, Bucket(h(k), j), k)
  {
    var b := Bucket(h(k), j);
    DistBucket(h(k), j);
    assert b != f && KeyOk(h, img, b);
  }

  // ------------------------------------------------- between two stores --

  /** `P` holds before, between and after the stores of `todo`. */
  ghost predicate Always(P: Mem -> bool, d: Mem, todo: seq<Store>)
    decreases |todo|
  {
    P(d) && (|todo| == 0 || Always(P, Apply(d, todo[0]), todo[1..]))
  }

  lemma {:induction false} AlwaysAfter(P: Mem -> bool, d: Mem, todo: seq<Store>, n: nat)
    requires Always(P, d, todo) && n <= |todo|
    ensures P(ApplyAll(d, todo[..n]))
    decreases |todo|
  {
    if n > 0 {
      assert todo[..n][1..] == todo[1..][..n - 1];
      AlwaysAfter(P, Apply(d, todo[0]), todo[1..], n - 1);
    }
  }

  lemma {:induction false} AlwaysThen(P: Mem -> bool, d: Mem, a: seq<Store>, b: seq<Store>)
    requires Always(P, d, a) && Always(P, ApplyAll(d, a), b)
    ensures Always(P, d, a + b)
    decreases |a|
  {
    if |a| == 0 {
      assert a + b == b;
    } else {
      assert (a + b)[1..] == a[1..] + b;
      AlwaysThen(P, Apply(d, a[0]), a[1..], b);
    }
  }

  lemma AlwaysOne(P: Mem -> bool, d: Mem, s: Store, rest: seq<Store>)
    requires P(d) && Always(P, Apply(d, s), rest)
    ensures Always(P, d, [s] + rest)
  {
    assert ([s] + rest)[1..] == rest;
  }

  lemma AlwaysField(P: Mem -> bool, d: Mem, i: nat, f: Field, rest: seq<Field>)
    requires P(d) && Always(P, Apply(d, SetEntry(i, f)), FieldStores(i, rest))
    ensures Always(P, d, FieldStores(i, [f] + rest))
  {
    assert FieldStores(i, [f] + rest)[1..] == FieldStores(i, rest);
  }

  // -------------------------------------------------- partly written --

  /** Bucket `i` has had some of its value stores made; its key is untouched, and offset and length always match. */
  ghost predicate Partial(to: Status, owes: bool, m: Mem, d: Mem, i: nat, val: Bytes) {
    && WellSized(m.img) && WellSized(d.img) && i < INDEX_SLOTS && InUse(m.img.index[i])
    && m.img.used <= d.img.used && d.img.arena[..m.img.used] == m.img.arena[..m.img.used]
    && d.img.index == m.img.index[i := d.img.index[i]]
    && var e := m.img.index[i];
       var e' := d.img.index[i];
       && e'.hash == e.hash && e'.keyOff == e.keyOff && e'.keyLen == e.keyLen && InUse(e')
       && e'.valOff + e'.valLen <= d.img.used
       && (e.dirty || (owes && e'.status != e.status) ==> e'.dirty)
       && (|| (e'.status == e.status && e'.valOff == e.valOff && e'.valLen == e.valLen)
           || (e'.status == e.status && e'.valLen == 0)
           || (to == Tomb && e'.status == Tomb && e'.valLen == 0)
           || (&& (e'.status == e.status || (to == Live && e'.status == Live)) && e'.valOff == m.img.used && e'.valLen == |val|
               && Text(d.img.arena, m.img.used, |val|) == val))
  }

  ghost function PartialFrom(to: Status, owes: bool, m: Mem, i: nat, val: Bytes): Mem -> bool {
    d => Partial(to, owes, m, d, i, val)
  }

  ghost predicate StaysPartial(to: Status, owes: bool, m: Mem, d: Mem, i: nat, val: Bytes, todo: seq<Store>) {
    Always(PartialFrom(to, owes, m, i, val), d, todo)
  }

  lemma {:induction false} PartialBytes(to: Status, owes: bool, m: Mem, d: Mem, i: nat, val: Bytes, off: nat, bytes: Bytes)
    requires Partial(to, owes, m, d, i, val) && d.img.index == m.img.index && m.img.used <= off && off + |bytes| <= ARENA_SIZE
    requires m.img.index[i].valOff + m.img.index[i].valLen <= m.img.used
    ensures StaysPartial(to, owes, m, d, i, val, ByteStores(off, bytes))
    decreases |bytes|
  {
    if |bytes| > 0 {
      assert ByteStores(off, bytes)[1..] == ByteStores(off + 1, bytes[1..]);
      PartialBytes(to, owes, m, Apply(d, SetByte(off, bytes[0])), i, val, off + 1, bytes[1..]);
    }
  }

  lemma PartialAlloc(to: Status, owes: bool, m: Mem, i: nat, val: Bytes)
    requires MemOk(m) && i < INDEX_SLOTS && InUse(m.img.index[i]) && Alloc(m.img, val).Some?
    requires m.img.index[i].valOff + m.img.index[i].valLen <= m.img.used
    ensures StaysPartial(to, owes, m, m, i, val, AllocScript(m.img, val))
  {
    var off := m.img.used;
    PartialBytes(to, owes, m, m, i, val, off, val);
    ByteStoresApply(m, off, val);
    var d := ApplyAll(m, ByteStores(off, val));
    AlwaysOne(PartialFrom(to, owes, m, i, val), d, SetUsed(off + |val|), []);
    assert [SetUsed(off + |val|)] + [] == [SetUsed(off + |val|)];
    AlwaysThen(PartialFrom(to, owes, m, i, val), m, ByteStores(off, val), [SetUsed(off + |val|)]);
  }

  /** The flag and the state are stored last; until then the new value is complete but not announced. */
  lemma PartialTail(to: Status, owes: bool, m: Mem, d: Mem, i: nat, val: Bytes, s: Status)
    requires Partial(to, owes, m, d, i, val) && s == to && s != Empty
    requires s == Live ==> d.img.index[i].valOff == m.img.used && d.img.index[i].valLen == |val| && Text(d.img.arena, m.img.used, |val|) == val
    requires s == Tomb ==> d.img.index[i].valLen == 0
    ensures StaysPartial(to, owes, m, d, i, val, FieldStores(i, (if owes then [FDirty(true)] else []) + [FStatus(s)]))
  {
    var d' := if owes then Apply(d, SetEntry(i, FDirty(true))) else d;
    assert StaysPartial(to, owes, m, d', i, val, FieldStores(i, [FStatus(s)])) by {
      AlwaysField(PartialFrom(to, owes, m, i, val), d', i, FStatus(s), []);
      assert [FStatus(s)] + [] == [FStatus(s)];
    }
    if owes {
      AlwaysField(PartialFrom(to, owes, m, i, val), d, i, FDirty(true), [FStatus(s)]);
    } else {
      assert [] + [FStatus(s)] == [FStatus(s)];
    }
  }

  lemma PartialValue(to: Status, owes: bool, m: Mem, d: Mem, i: nat, val: Bytes)
    requires to == Live && Partial(to, owes, m, d, i, val) && d.img.index == m.img.index
    requires Text(d.img.arena, m.img.used, |val|) == val && m.img.used + |val| <= d.img.used
    requires m.img.index[i].valOff <= m.img.used
    ensures StaysPartial(to, owes, m, d, i, val, FieldStores(i, ValueFields(m.img.used, |val|, owes)))
  {
    var d1 := Apply(d, SetEntry(i, FValLen(0)));
    var d2 := Apply(d1, SetEntry(i, FValOff(m.img.used)));
    var d3 := Apply(d2, SetEntry(i, FValLen(|val|)));
    var tail := (if owes then [FDirty(true)] else []) + [FStatus(Live)];
    PartialTail(to, owes, m, d3, i, val, Live);
    AlwaysField(PartialFrom(to, owes, m, i, val), d2, i, FValLen(|val|), tail);
    AlwaysField(PartialFrom(to, owes, m, i, val), d1, i, FValOff(m.img.used), [FValLen(|val|)] + tail);
    AlwaysField(PartialFrom(to, owes, m, i, val), d, i, FValLen(0), [FValOff(m.img.used)] + ([FValLen(|val|)] + tail));
    assert [FValLen(0)] + ([FValOff(m.img.used)] + ([FValLen(|val|)] + tail)) == ValueFields(m.img.used, |val|, owes);
  }

  lemma PartialCountThen(to: Status, owes: bool, m: Mem, d: Mem, i: nat, val: Bytes)
    requires to == Live && Partial(to, owes, m, d, i, val) && d.img.index == m.img.index
    requires Text(d.img.arena, m.img.used, |val|) == val && m.img.used + |val| <= d.img.used
    requires m.img.index[i].valOff <= m.img.used
    ensures StaysPartial(to, owes, m, d, i, val, CountScript(m.img, m.img.index[i]) + FieldStores(i, ValueFields(m.img.used, |val|, owes)))
  {
    var count := CountScript(m.img, m.img.index[i]);
    var value := FieldStores(i, ValueFields(m.img.used, |val|, owes));
    if count == [] {
      assert count + value == value;
      PartialValue(to, owes, m, d, i, val);
    } else {
      PartialValue(to, owes, m, Apply(d, count[0]), i, val);
      AlwaysOne(PartialFrom(to, owes, m, i, val), d, count[0], value);
      assert [count[0]] + value == count + value;
    }
  }

  lemma PutStaysPartial(h: Hash, m: Mem, i: nat, key: Key, val: Bytes, dirty: bool)
    requires MemOk(m) && i < INDEX_SLOTS && InUse(m.img.index[i]) && Alloc(m.img, val).Some?
    requires m.img.index[i].valOff + m.img.index[i].valLen <= m.img.used
    ensures StaysPartial(Live, dirty, m, m, i, val, PutLockedScript(h, m.img, i, true, key, val, dirty))
  {
    var d := m.(img := Alloc(m.img, val).value);
    PartialAlloc(Live, dirty, m, i, val);
    AllocApplies(m, val);
    PartialCountThen(Live, dirty, m, d, i, val);
    var rest := CountScript(m.img, m.img.index[i]) + FieldStores(i, ValueFields(m.img.used, |val|, dirty));
    AlwaysThen(PartialFrom(Live, dirty, m, i, val), m, AllocScript(m.img, val), rest);
    assert AllocScript(m.img, val) + rest == PutLockedScript(h, m.img, i, true, key, val, dirty);
  }

  lemma {:induction false} RemoveStaysPartial(m: Mem, i: nat, dirty: bool)
    requires MemOk(m) && i < INDEX_SLOTS && InUse(m.img.index[i])
    requires m.img.index[i].valOff + m.img.index[i].valLen <= m.img.used
    ensures StaysPartial(Tomb, dirty, m, m, i, [], RemoveBody(m.img, i, dirty))
  {
    var count := SetGarbage(m.img.garbage + m.img.index[i].valLen);
    RemoveFieldsPartial(m, Apply(m, count), i, dirty);
    AlwaysOne(PartialFrom(Tomb, dirty, m, i, []), m, count, FieldStores(i, RemoveFields(dirty)));
  }

  lemma RemoveFieldsPartial(m: Mem, d: Mem, i: nat, dirty: bool)
    requires Partial(Tomb, dirty, m, d, i, []) && d.img.index == m.img.index && m.img.index[i].valOff <= d.img.used
    ensures StaysPartial(Tomb, dirty, m, d, i, [], FieldStores(i, RemoveFields(dirty)))
  {
    var tail := (if dirty then [FDirty(true)] else []) + [FStatus(Tomb)];
    PartialTail(Tomb, dirty, m, Apply(d, SetEntry(i, FValLen(0))), i, [], Tomb);
    AlwaysField(PartialFrom(Tomb, dirty, m, i, []), d, i, FValLen(0), tail);
    assert [FValLen(0)] + tail == RemoveFields(dirty);
  }

  // -------------------------------------------------------- what is read --

  /** A partly written bucket reads as its old value, its new value, empty or absent; every other key is unchanged. */
  lemma PartialReads(to: Status, owes: bool, h: Hash, m: Mem, d: Mem, key: Key, val: Bytes, k: Key)
    requires Residue(h, m.img)
    requires Probe(h, m.img, key).Some? && Probe(h, m.img, key).value.1
    requires Partial(to, owes, m, d, Probe(h, m.img, key).value.0, val)
    ensures k != key ==> Lookup(h, d.img, k) == Lookup(h, m.img, k)
    ensures var i := Probe(h, m.img, key).value.0;
            Lookup(h, d.img, key) == if d.img.index[i].status == Live then Some(ValAt(d.img, i)) else None
  {
    var i := Probe(h, m.img, key).value.0;
    FoundExactly(h, m.img, key);
    forall j | 0 <= j < INDEX_SLOTS
      ensures InUse(d.img.index[j]) <==> InUse(m.img.index[j])
      ensures HoldsAt(h, d.img, j, k) <==> HoldsAt(h, m.img, j, k)
      ensures HoldsAt(h, d.img, j, key) <==> HoldsAt(h, m.img, j, key)
    {
      PartialHolds(to, owes, h, m, d, i, val, j, k);
      PartialHolds(to, owes, h, m, d, i, val, j, key);
    }
    SearchAgrees(h, m.img, d.img, key);
    SearchAgrees(h, m.img, d.img, k);
    if k != key {
      PartialOther(to, owes, h, m, d, i, key, val, k);
    }
  }

  /** However far it got, another writer may come after it, and die in its turn. */
  lemma PartialResidue(to: Status, owes: bool, h: Hash, m: Mem, d: Mem, i: nat, val: Bytes)
    requires Residue(h, m.img) && Partial(to, owes, m, d, i, val)
    ensures Residue(h, d.img)
  {
    forall j | 0 <= j < INDEX_SLOTS
      ensures KeyOk(h, d.img, j) && Reachable(d.img, j)
      ensures InUse(m.img.index[j]) ==> KeyAt(d.img, j) == KeyAt(m.img, j)
    {
      PartialKey(to, owes, h, m, d, i, val, j);
    }
  }

  lemma PartialKey(to: Status, owes: bool, h: Hash, m: Mem, d: Mem, i: nat, val: Bytes, j: nat)
    requires Residue(h, m.img) && Partial(to, owes, m, d, i, val) && j < INDEX_SLOTS
    ensures KeyOk(h, d.img, j) && Reachable(d.img, j)
    ensures InUse(m.img.index[j]) ==> KeyAt(d.img, j) == KeyAt(m.img, j)
  {
    var e := m.img.index[j];
    assert KeyOk(h, m.img, j) && Reachable(m.img, j);
    if InUse(e) {
      TextFrame(m.img.arena, d.img.arena, m.img.used, e.keyOff, e.keyLen);
    }
  }

  lemma PartialHolds(to: Status, owes: bool, h: Hash, m: Mem, d: Mem, i: nat, val: Bytes, j: nat, k: Key)
    requires WellSized(m.img) && j < INDEX_SLOTS && KeyOk(h, m.img, j)
    requires Partial(to, owes, m, d, i, val)
    ensures InUse(d.img.index[j]) <==> InUse(m.img.index[j])
    ensures HoldsAt(h, d.img, j, k) <==> HoldsAt(h, m.img, j, k)
  {
    var e := m.img.index[j];
    if InUse(e) {
      TextFrame(m.img.arena, d.img.arena, m.img.used, e.keyOff, e.keyLen);
    }
  }

  lemma PartialOther(to: Status, owes: bool, h: Hash, m: Mem, d: Mem, i: nat, key: Key, val: Bytes, k: Key)
    requires Residue(h, m.img) && Partial(to, owes, m, d, i, val) && k != key && KeyAt(m.img, i) == key
    requires forall j :: Probe(h, d.img, k) == Some((j, true)) <==> Probe(h, m.img, k) == Some((j, true))
    ensures Lookup(h, d.img, k) == Lookup(h, m.img, k)
  {
    var p := Probe(h, m.img, k);
    if p.Some? && p.value.1 {
      FoundExactly(h, m.img, k);
      assert p == Some((p.value.0, true));
      assert Probe(h, d.img, k) == p;
      var j := p.value.0;
      assert j != i && KeyOk(h, m.img, j);
      TextFrame(m.img.arena, d.img.arena, m.img.used, m.img.index[j].valOff, m.img.index[j].valLen);
    } else {
      assert forall j :: Probe(h, d.img, k) != Some((j, true));
    }
  }

  /** Repair makes both counters even, never smaller, and moves no counter that did not need it. */
  lemma RepairLeavesData(d: Mem, x: nat)
    requires MemOk(d) && x < SLOTS
    ensures RepairSeq(d, x).img == d.img
    ensures !Odd(RepairSeq(d, x).slots[x]) && !Odd(RepairSeq(d, x).arenaSeq)
    ensures d.slots[x] <= RepairSeq(d, x).slots[x] && d.arenaSeq <= RepairSeq(d, x).arenaSeq
    ensures forall y | 0 <= y < SLOTS && (y != x || !Odd(d.slots[y])) :: RepairSeq(d, x).slots[y] == d.slots[y]
    ensures !Odd(d.arenaSeq) ==> RepairSeq(d, x).arenaSeq == d.arenaSeq
  {
  }

  /** The bucket a search finds the key in, whatever its status. */
  function FoundBucket(h: Hash, img: Image, key: Key): Option<nat>
    requires WellSized(img)
  {
    var p := Probe(h, img, key);
    if p.Some? && p.value.1 then Some(p.value.0) else None
  }

  /**
   * A writer dies after any number of the stores that overwrite a key's value or its tombstone. Once the counter is
   * repaired, the key reads as before, as its new value, or, if it had a value, as empty; and every other key as before.
   * A key that had no value has one only with its debt to the disk.
   */
  lemma DeathWhileOverwriting(h: Hash, m: Mem, key: Key, val: Bytes, dirty: bool, n: nat, k: Key)
    requires MemOk(m) && Residue(h, m.img)
    requires FoundBucket(h, m.img, key).Some? && m.img.used + |val| <= ARENA_SIZE
    requires n <= |PutLockedScript(h, m.img, FoundBucket(h, m.img, key).value, true, key, val, dirty)|
    ensures var d := ApplyAll(m, PutLockedScript(h, m.img, FoundBucket(h, m.img, key).value, true, key, val, dirty)[..n]);
            && MemOk(d)
            && var r := RepairSeq(d, SlotOf(h(key))).img;
               && (|| Lookup(h, r, key) == Lookup(h, m.img, key)
                   || Lookup(h, r, key) == Some(val)
                   || (Lookup(h, r, key) == Some([]) && Lookup(h, m.img, key).Some?))
               && (k != key ==> Lookup(h, r, k) == Lookup(h, m.img, k))
               && (dirty && Lookup(h, m.img, key) == None && Lookup(h, r, key) != None ==>
                     r.index[FoundBucket(h, m.img, key).value].dirty)
               && Residue(h, r)
  {
    var i := FoundBucket(h, m.img, key).value;
    var script := PutLockedScript(h, m.img, i, true, key, val, dirty);
    FoundExactly(h, m.img, key);
    assert KeyOk(h, m.img, i);
    PutStaysPartial(h, m, i, key, val, dirty);
    AlwaysAfter(PartialFrom(Live, dirty, m, i, val), m, script, n);
    ApplyAllKeepsSlots(m, script[..n]);
    ReadsOldNewOrEmpty(Live, dirty, h, m, ApplyAll(m, script[..n]), key, val, k);
  }

  /** What a put of a held key has done once it has stored the new length, with the flag and the state to come. */
  function ValueOnly(m: Mem, i: nat, val: Bytes): Mem
    requires MemOk(m) && i < INDEX_SLOTS && m.img.used + |val| <= ARENA_SIZE
  {
    var e := m.img.index[i];
    m.(img := Alloc(m.img, val).value.(
         index := m.img.index[i := e.(valOff := m.img.used, valLen := |val|)],
         garbage := m.img.garbage + if e.status == Live then e.valLen else 0))
  }

  lemma ValueStored(h: Hash, m: Mem, i: nat, key: Key, val: Bytes, dirty: bool) returns (n: nat)
    requires MemOk(m) && i < INDEX_SLOTS && m.img.used + |val| <= ARENA_SIZE
    ensures n <= |PutLockedScript(h, m.img, i, true, key, val, dirty)|
    ensures ApplyAll(m, PutLockedScript(h, m.img, i, true, key, val, dirty)[..n]) == ValueOnly(m, i, val)
  {
    var e := m.img.index[i];
    var m1 := m.(img := Alloc(m.img, val).value);
    var m2 := m1.(img := m1.img.(garbage := m.img.garbage + if e.status == Live then e.valLen else 0));
    var (vals, count) := (AllocScript(m.img, val), CountScript(m.img, e));
    var fields := [FValLen(0), FValOff(m.img.used), FValLen(|val|)];
    n := |vals| + |count| + 3;
    assert PutLockedScript(h, m.img, i, true, key, val, dirty)[..n] == vals + count + FieldStores(i, fields);
    AllocApplies(m, val);
    if count != [] {
      ApplyAllOne(m1, count[0]);
    }
    FieldStoresApply(m2, i, fields);
    WithFieldsShort(e, fields);
    ThenTwice(m, vals, m1, count, m2, FieldStores(i, fields), ValueOnly(m, i, val));
  }

  /**
   * A value written over another can go unowed. A writer dies with the new value complete and the flag still to be set:
   * the key reads as the new value, and is as clean as it was, so that no commit need ever write it.
   */
  lemma OverwriteCanGoUnowed(h: Hash, m: Mem, key: Key, val: Bytes, dirty: bool) returns (n: nat)
    requires MemOk(m) && Residue(h, m.img)
    requires LiveBucket(h, m.img, key).Some? && m.img.used + |val| <= ARENA_SIZE
    ensures n <= |PutLockedScript(h, m.img, LiveBucket(h, m.img, key).value, true, key, val, dirty)|
    ensures var i := LiveBucket(h, m.img, key).value;
            var d := ApplyAll(m, PutLockedScript(h, m.img, i, true, key, val, dirty)[..n]);
            && MemOk(d)
            && var r := RepairSeq(d, SlotOf(h(key))).img;
               Lookup(h, r, key) == Some(val) && r.index[i].dirty == m.img.index[i].dirty
  {
    var i := LiveBucket(h, m.img, key).value;
    FoundExactly(h, m.img, key);
    assert KeyOk(h, m.img, i);
    n := ValueStored(h, m, i, key, val, dirty);
    var d := ValueOnly(m, i, val);
    PutStaysPartial(h, m, i, key, val, dirty);
    AlwaysAfter(PartialFrom(Live, dirty, m, i, val), m, PutLockedScript(h, m.img, i, true, key, val, dirty), n);
    PartialReads(Live, dirty, h, m, d, key, val, key);
    assert ValAt(d.img, i) == val;
  }

  lemma ReadsOldNewOrEmpty(to: Status, owes: bool, h: Hash, m: Mem, d: Mem, key: Key, val: Bytes, k: Key)
    requires Residue(h, m.img) && FoundBucket(h, m.img, key).Some?
    requires Partial(to, owes, m, d, FoundBucket(h, m.img, key).value, val)
    ensures Residue(h, d.img)
    ensures k != key ==> Lookup(h, d.img, k) == Lookup(h, m.img, k)
    ensures || Lookup(h, d.img, key) == Lookup(h, m.img, key)
            || (Lookup(h, d.img, key) == Some(val) && (to == Live || Lookup(h, m.img, key).Some?))
            || (Lookup(h, d.img, key) == Some([]) && Lookup(h, m.img, key).Some?)
            || (Lookup(h, d.img, key) == None && to == Tomb)
    ensures owes && (Lookup(h, d.img, key) == None) != (Lookup(h, m.img, key) == None) ==>
              d.img.index[FoundBucket(h, m.img, key).value].dirty
  {
    var i := FoundBucket(h, m.img, key).value;
    FoundExactly(h, m.img, key);
    assert KeyOk(h, m.img, i);
    PartialReads(to, owes, h, m, d, key, val, k);
    PartialBucket(to, owes, h, m, d, i, val);
    PartialResidue(to, owes, h, m, d, i, val);
  }

  lemma PartialBucket(to: Status, owes: bool, h: Hash, m: Mem, d: Mem, i: nat, val: Bytes)
    requires WellSized(m.img) && Partial(to, owes, m, d, i, val) && KeyOk(h, m.img, i)
    ensures d.img.index[i].status == Live && m.img.index[i].status == Live ==>
              ValAt(d.img, i) == ValAt(m.img, i) || ValAt(d.img, i) == [] || ValAt(d.img, i) == val
    ensures d.img.index[i].status == Live && m.img.index[i].status != Live ==> to == Live && ValAt(d.img, i) == val
    ensures d.img.index[i].status != Live && m.img.index[i].status == Live ==> to == Tomb
  {
    TextFrame(m.img.arena, d.img.arena, m.img.used, m.img.index[i].valOff, m.img.index[i].valLen);
  }

  lemma {:induction false} ApplyAllKeepsSlots(m: Mem, ss: seq<Store>)
    requires |m.slots| == SLOTS
    ensures |ApplyAll(m, ss).slots| == SLOTS
    decreases |ss|
  {
    if |ss| > 0 {
      ApplyAllKeepsSlots(Apply(m, ss[0]), ss[1..]);
    }
  }

  /**
   * A writer dies while removing a live key: it reads as its old value, empty or absent, and no other key is touched. If
   * it reads as absent the disk is owed its deletion.
   */
  lemma DeathWhileRemoving(h: Hash, m: Mem, key: Key, dirty: bool, n: nat, k: Key)
    requires MemOk(m) && Residue(h, m.img)
    requires LiveBucket(h, m.img, key).Some?
    requires n <= |RemoveBody(m.img, LiveBucket(h, m.img, key).value, dirty)|
    ensures var d := ApplyAll(m, RemoveBody(m.img, LiveBucket(h, m.img, key).value, dirty)[..n]);
            && MemOk(d)
            && var r := RepairSeq(d, SlotOf(h(key))).img;
               && (Lookup(h, r, key) == Lookup(h, m.img, key) || Lookup(h, r, key) == Some([]) || Lookup(h, r, key) == None)
               && (k != key ==> Lookup(h, r, k) == Lookup(h, m.img, k))
               && (dirty && Lookup(h, r, key) == None ==> r.index[LiveBucket(h, m.img, key).value].dirty)
               && Residue(h, r)
  {
    var i := LiveBucket(h, m.img, key).value;
    var script := RemoveBody(m.img, i, dirty);
    assert KeyOk(h, m.img, i);
    RemoveStaysPartial(m, i, dirty);
    AlwaysAfter(PartialFrom(Tomb, dirty, m, i, []), m, script, n);
    ApplyAllKeepsSlots(m, script[..n]);
    ReadsOldNewOrEmpty(Tomb, dirty, h, m, ApplyAll(m, script[..n]), key, [], k);
  }
}
