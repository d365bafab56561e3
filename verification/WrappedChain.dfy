/**
 * A table whose probe chain wraps past its end, for which compaction drops a live, uncommitted key.
 *
 * Sixty-four keys start at bucket 8128 and fill the table to its end; one more starts at the last bucket and so
 * sits in bucket 0. Compaction re-inserts bucket 0 first, which takes the last bucket, and then the sixty-fourth
 * key finds every bucket of its probe range in use.
 */
module WrappedChain {
  import opened Layout
  import opened Index
  import opened Operations
  import opened Refinement
  import opened Compaction
  import opened MapRefinement

  const FIRST: nat := INDEX_SLOTS - MAX_PROBES
  const LAST: nat := INDEX_SLOTS - 1

  /** Keys of one byte from 64 to 127 start at FIRST, all others at LAST. */
  function CrowdedHash(key: Key): HashValue {
    if |key| == 1 && 64 <= key[0] < 128 then FIRST else LAST
  }

  function EntryFor(i: nat): Entry {
    if i == 0 then Entry(LAST, MAX_PROBES, 1, 0, 0, Live, true)
    else if FIRST <= i < INDEX_SLOTS then Entry(FIRST, i - FIRST, 1, 0, 0, Live, true)
    else EMPTY_ENTRY
  }

  function Crowded(): Image {
    Image(seq(INDEX_SLOTS, i requires 0 <= i => EntryFor(i)),
          seq(ARENA_SIZE, a requires 0 <= a => if a < 64 then (64 + a) as byte else if a == 64 then 48 else 0), MAX_PROBES + 1, 0)
  }

  lemma {:induction false} CrowdedBytes(n: nat)
    requires n <= INDEX_SLOTS
    ensures Total(UsedSize, Crowded().index[..n])
            == (if n > 0 then 1 else 0) + if n > FIRST then n - FIRST else 0
  {
    if n > 0 {
      CrowdedBytes(n - 1);
      assert Crowded().index[..n][..n - 1] == Crowded().index[..n - 1];
    }
  }

  lemma CrowdedKey(i: nat)
    requires i == 0 || FIRST <= i < INDEX_SLOTS
    ensures KeyAt(Crowded(), i) == [(if i == 0 then 48 else 64 + (i - FIRST)) as byte]
  {
  }

  lemma CrowdedReachable(i: nat)
    requires i < INDEX_SLOTS
    ensures Reachable(Crowded(), i)
  {
    var e := Crowded().index[i];
    if i == 0 {
      assert Dist(e.hash, 0) == 1;
      assert Bucket(e.hash, 0) == LAST;
    } else if i >= FIRST {
      assert Dist(e.hash, i) == i - FIRST;
      forall j | 0 <= j < Dist(e.hash, i)
        ensures InUse(Crowded().index[Bucket(e.hash, j)])
      {
        assert Bucket(e.hash, j) == FIRST + j;
      }
    }
  }

  lemma CrowdedInv()
    ensures Inv(CrowdedHash, Crowded())
  {
    var img := Crowded();
    CrowdedBytes(INDEX_SLOTS);
    assert img.index[..INDEX_SLOTS] == img.index;
    forall i | 0 <= i < INDEX_SLOTS
      ensures EntryOk(CrowdedHash, img, i) && Reachable(img, i)
    {
      if InUse(img.index[i]) {
        CrowdedKey(i);
      }
      CrowdedReachable(i);
    }
    forall i, j | 0 <= i < j < INDEX_SLOTS && InUse(img.index[i]) && InUse(img.index[j])
      ensures KeyAt(img, i) != KeyAt(img, j)
    {
      CrowdedKey(i);
      CrowdedKey(j);
    }
  }

  predicate Taken(i: nat) {
    i == 0 || FIRST <= i < INDEX_SLOTS
  }

  function KeyFor(i: nat): Key
    requires Taken(i)
  {
    [(if i == 0 then 48 else 64 + (i - FIRST)) as byte]
  }

  /** What the argument needs to know of the crowded table. */
  ghost predicate CrowdedShape(img: Image) {
    && Inv(CrowdedHash, img)
    && forall i | 0 <= i < INDEX_SLOTS :: (Kept(img.index[i]) <==> Taken(i)) && (Taken(i) ==> KeyAt(img, i) == KeyFor(i))
  }

  lemma CrowdedHasShape()
    ensures CrowdedShape(Crowded())
  {
    CrowdedInv();
    forall i | 0 <= i < INDEX_SLOTS
      ensures (Kept(Crowded().index[i]) <==> Taken(i)) && (Taken(i) ==> KeyAt(Crowded(), i) == KeyFor(i))
    {
      if Taken(i) {
        CrowdedKey(i);
      }
    }
  }

  /** The rebuilt table once the entries of the first `n` buckets have been re-inserted. */
  function Rebuilt(img: Image, n: nat): Image
    requires WellSized(img) && n <= INDEX_SLOTS
  {
    ReinsertAll(CrowdedHash, Wiped(img), Keeps(img, n))
  }

  /** The buckets in use: the last one, and `m` from FIRST on. */
  ghost predicate Filled(img: Image, m: nat)
    requires WellSized(img)
  {
    forall b | 0 <= b < INDEX_SLOTS :: InUse(img.index[b]) <==> b == LAST || FIRST <= b < FIRST + m
  }

  /** Where a new key lands when `n` buckets of its range are in use and the next is empty. */
  lemma OfferedFirstEmpty(h: Hash, img: Image, key: Key, n: nat)
    requires WellSized(img) && n < MAX_PROBES
    requires forall e | e in img.index :: !CleanTomb(e)
    requires Probe(h, img, key).Some? ==> !Probe(h, img, key).value.1
    requires forall j | 0 <= j < n :: InUse(img.index[Bucket(h(key), j)])
    requires !InUse(img.index[Bucket(h(key), n)])
    ensures Probe(h, img, key) == Some((Bucket(h(key), n), false))
  {
    var stop := ProbeStops(h, img, key);
    StopsBefore(h, img, key, stop, n);
    var b := Probe(h, img, key).value.0;
    assert Probe(h, img, key) == Some((b, false));
    var d :| 0 <= d <= stop && d < MAX_PROBES && b == Bucket(h(key), d) && Claimable(img.index[b]);
    assert img.index[b] in img.index;
  }

  lemma LandsInFirstEmpty(img: Image, k: Keep, n: nat)
    requires Inv(CrowdedHash, img) && Packed(img)
    requires k.key !in Abs(img) && (k.val.None? ==> k.dirty) && img.used + KeepSize(k) <= ARENA_SIZE
    requires n < MAX_PROBES
    requires forall j | 0 <= j < n :: InUse(img.index[Bucket(CrowdedHash(k.key), j)])
    requires !InUse(img.index[Bucket(CrowdedHash(k.key), n)])
    ensures var img' := Reinsert(CrowdedHash, img, k);
            forall b | 0 <= b < INDEX_SLOTS ::
              InUse(img'.index[b]) <==> InUse(img.index[b]) || b == Bucket(CrowdedHash(k.key), n)
  {
    MissingNotFound(CrowdedHash, img, k.key);
    OfferedFirstEmpty(CrowdedHash, img, k.key, n);
    ReinsertLands(CrowdedHash, img, k);
  }

  /** One more of the sixty-four keys takes the next bucket. */
  lemma FilledStep(img: Image, k: Keep, m: nat)
    requires Inv(CrowdedHash, img) && Packed(img) && Filled(img, m)
    requires k.key !in Abs(img) && (k.val.None? ==> k.dirty) && img.used + KeepSize(k) <= ARENA_SIZE
    requires m < MAX_PROBES - 1 && CrowdedHash(k.key) == FIRST
    ensures Filled(Reinsert(CrowdedHash, img, k), m + 1)
  {
    assert forall j | 0 <= j <= m :: Bucket(FIRST, j) == FIRST + j;
    LandsInFirstEmpty(img, k, m);
  }

  lemma RebuiltReady(img: Image, i: nat)
    requires CrowdedShape(img) && Taken(i)
    ensures var k := KeepOf(img, img.index[i]);
            && Inv(CrowdedHash, Rebuilt(img, i)) && Packed(Rebuilt(img, i))
            && k.Some? && k.value.key == KeyFor(i)
            && k.value.key !in Abs(Rebuilt(img, i)) && (k.value.val.None? ==> k.value.dirty)
            && Rebuilt(img, i).used + KeepSize(k.value) <= ARENA_SIZE
            && Rebuilt(img, i + 1) == Reinsert(CrowdedHash, Rebuilt(img, i), k.value)
  {
    BeforeTurn(CrowdedHash, img, i);
    var ks := Keeps(img, i + 1);
    assert ks[..|ks| - 1] == Keeps(img, i);
  }

  lemma RebuiltFirst(img: Image)
    requires CrowdedShape(img)
    ensures Filled(Rebuilt(img, 1), 0)
  {
    RebuiltReady(img, 0);
    assert Bucket(LAST, 0) == LAST;
    LandsInFirstEmpty(Rebuilt(img, 0), KeepOf(img, img.index[0]).value, 0);
  }

  lemma RebuiltNext(img: Image, i: nat)
    requires CrowdedShape(img) && FIRST <= i < LAST && Filled(Rebuilt(img, i), i - FIRST)
    ensures Filled(Rebuilt(img, i + 1), i + 1 - FIRST)
  {
    RebuiltReady(img, i);
    FilledStep(Rebuilt(img, i), KeepOf(img, img.index[i]).value, i - FIRST);
  }

  lemma RebuiltSame(img: Image, i: nat)
    requires CrowdedShape(img) && 0 < i < FIRST
    ensures Rebuilt(img, i + 1) == Rebuilt(img, i)
  {
    assert !Taken(i) && !Kept(img.index[i]);
    assert Keeps(img, i + 1) == Keeps(img, i);
  }

  lemma {:induction false} RebuiltFills(img: Image, n: nat)
    requires CrowdedShape(img)
    requires 1 <= n < INDEX_SLOTS
    ensures Filled(Rebuilt(img, n), if n > FIRST then n - FIRST else 0)
    decreases n
  {
    if n == 1 {
      RebuiltFirst(img);
    } else {
      RebuiltFills(img, n - 1);
      if FIRST < n {
        RebuiltNext(img, n - 1);
      } else {
        RebuiltSame(img, n - 1);
      }
    }
  }

  lemma FilledRange(img: Image)
    requires WellSized(img) && Filled(img, MAX_PROBES - 1)
    ensures forall j | 0 <= j < MAX_PROBES :: InUse(img.index[Bucket(FIRST, j)])
  {
    forall j | 0 <= j < MAX_PROBES
      ensures InUse(img.index[Bucket(FIRST, j)])
    {
      assert Bucket(FIRST, j) == FIRST + j;
    }
  }

  /** With the whole range in use, a missing key gets no bucket. */
  lemma FilledRefuses(img: Image, key: Key)
    requires Inv(CrowdedHash, img) && Packed(img) && Filled(img, MAX_PROBES - 1)
    requires key !in Abs(img) && CrowdedHash(key) == FIRST
    ensures Probe(CrowdedHash, img, key).None?
  {
    MissingNotFound(CrowdedHash, img, key);
    FilledRange(img);
    RangeRefuses(CrowdedHash, img, key);
  }

  lemma RangeRefuses(h: Hash, img: Image, key: Key)
    requires WellSized(img) && (forall e | e in img.index :: !CleanTomb(e))
    requires Probe(h, img, key).Some? ==> !Probe(h, img, key).value.1
    requires forall j | 0 <= j < MAX_PROBES :: InUse(img.index[Bucket(h(key), j)])
    ensures Probe(h, img, key).None?
  {
    if Probe(h, img, key).Some? {
      var b := Probe(h, img, key).value.0;
      assert img.index[b] in img.index;
      var stop := ProbeStops(h, img, key);
    }
  }

  lemma CrowdedDrops(img: Image)
    requires CrowdedShape(img)
    ensures !Lossless(CrowdedHash, img)
    ensures Inv(CrowdedHash, Compact(CrowdedHash, img)) && [127] !in Abs(Compact(CrowdedHash, img))
  {
    RebuiltFills(img, LAST);
    RebuiltReady(img, LAST);
    FilledRefuses(Rebuilt(img, LAST), [127]);
    var ks := Keeps(img, INDEX_SLOTS);
    assert ks[..|ks| - 1] == Keeps(img, LAST);
  }

  /** Compaction loses a live key that has never been written to disk, from a table satisfying the invariant. */
  lemma CompactionCanDrop()
    ensures Inv(CrowdedHash, Crowded()) && !Lossless(CrowdedHash, Crowded())
    ensures [127] in Abs(Crowded()) && Abs(Crowded())[[127]] == Cell(Some([]), true)
    ensures Inv(CrowdedHash, Compact(CrowdedHash, Crowded())) && [127] !in Abs(Compact(CrowdedHash, Crowded()))
  {
    CrowdedHasShape();
    CrowdedDrops(Crowded());
    CrowdedKey(LAST);
    AbsAt(Crowded(), LAST);
  }

  lemma PutTooLarge(h: Hash, m: Mem, key: Key, val: Bytes)
    requires MemOk(m) && !HoldsValue(h, m.img, key, val) && |key| + |val| > ARENA_SIZE
    ensures PutCompacts(h, m, key, val)
    ensures !Put(h, m, key, val, true).ok && Put(h, m, key, val, true).mem.img == Compact(h, m.img)
  {
  }

  lemma CrowdedLacks(img: Image, key: Key)
    requires CrowdedShape(img) && |key| != 1
    ensures key !in Abs(img)
  {
    if key in Abs(img) {
      var i := AbsHas(img, key);
    }
  }

  /** So a put can fail and still change the map: it compacted, and that dropped a key. */
  lemma FailedPutCanLoseKey()
    ensures exists h: Hash, m: Mem, key: Key, val: Bytes ::
              && MemOk(m) && Inv(h, m.img)
              && !Put(h, m, key, val, true).ok
              && Inv(h, Put(h, m, key, val, true).mem.img) && Abs(Put(h, m, key, val, true).mem.img) != Abs(m.img)
  {
    var m := Mem(Crowded(), seq(SLOTS, _ => 0), 0);
    var key: Key := [0, 0];
    var val: Bytes := seq(ARENA_SIZE, _ => 0);
    CompactionCanDrop();
    CrowdedHasShape();
    CrowdedLacks(Crowded(), key);
    HoldsValueIsMap(CrowdedHash, Crowded(), key, val);
    PutTooLarge(CrowdedHash, m, key, val);
    FailedPutWitness(CrowdedHash, m, key, val);
  }

  lemma FailedPutWitness(h: Hash, m: Mem, key: Key, val: Bytes)
    requires MemOk(m) && Inv(h, m.img)
    requires !Put(h, m, key, val, true).ok
    requires Inv(h, Put(h, m, key, val, true).mem.img) && [127] in Abs(m.img) && [127] !in Abs(Put(h, m, key, val, true).mem.img)
    ensures exists h: Hash, m: Mem, key: Key, val: Bytes ::
              && MemOk(m) && Inv(h, m.img)
              && !Put(h, m, key, val, true).ok
              && Inv(h, Put(h, m, key, val, true).mem.img) && Abs(Put(h, m, key, val, true).mem.img) != Abs(m.img)
  {
  }
}
