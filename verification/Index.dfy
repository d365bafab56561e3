/** The open-addressed index: probing, the representation invariant, and the map it stands for. */
module Index {
  import opened Layout

  /** The `j`-th bucket a key of this hash is looked for in. */
  function Bucket(hash: nat, j: nat): (i: nat)
    ensures i < INDEX_SLOTS
  {
    (hash % INDEX_SLOTS + j) % INDEX_SLOTS
  }

  /** How many probes it takes to reach bucket `i`. */
  function Dist(hash: nat, i: nat): (d: nat)
    requires i < INDEX_SLOTS
    ensures d < INDEX_SLOTS
    ensures Bucket(hash, d) == i
  {
    (i + INDEX_SLOTS - hash % INDEX_SLOTS) % INDEX_SLOTS
  }

  lemma DistBucket(hash: nat, j: nat)
    requires j < INDEX_SLOTS
    ensures Dist(hash, Bucket(hash, j)) == j
  {
  }

  /** The bucket is in use and its stored hash and key bytes are those of `key`. */
  predicate HoldsAt(h: Hash, img: Image, i: nat, key: Key)
    requires i < |img.index|
  {
    var e := img.index[i];
    e.status != Empty && e.hash == h(key) && ArenaEq(img.arena, e.keyOff, e.keyLen, key)
  }

  /** A tombstone whose deletion has already reached the disk. */
  predicate CleanTomb(e: Entry) {
    e.status == Tomb && !e.dirty
  }

  function ProbeFrom(h: Hash, img: Image, key: Key, j: nat, free: Option<nat>): (r: Option<(nat, bool)>)
    requires WellSized(img)
    requires j <= MAX_PROBES
    requires free.Some? ==> free.value < INDEX_SLOTS
    ensures r.Some? ==> r.value.0 < INDEX_SLOTS
    decreases MAX_PROBES - j
  {
    if j == MAX_PROBES then
      if free.Some? then Some((free.value, false)) else None
    else
      var i := Bucket(h(key), j);
      var e := img.index[i];
      if e.status == Empty then
        Some((if free.Some? then free.value else i, false))
      else if HoldsAt(h, img, i, key) then
        Some((i, true))
      else
        ProbeFrom(h, img, key, j + 1, if free.None? && CleanTomb(e) then Some(i) else free)
  }

  /** Locate `key`: the bucket that holds it, or else one that may be claimed for it. */
  function Probe(h: Hash, img: Image, key: Key): (r: Option<(nat, bool)>)
    requires WellSized(img)
    ensures r.Some? ==> r.value.0 < INDEX_SLOTS
  {
    ProbeFrom(h, img, key, 0, None)
  }

  /** What a lookup of `key` yields in an unchanging segment; `None` means absent. */
  function Lookup(h: Hash, img: Image, key: Key): (r: Option<Bytes>)
    requires WellSized(img)
  {
    var p := Probe(h, img, key);
    if p.Some? && p.value.1 && img.index[p.value.0].status == Live then
      Some(Text(img.arena, img.index[p.value.0].valOff, img.index[p.value.0].valLen))
    else
      None
  }

  // ------------------------------------------------ what probing finds --

  /** The first `n` buckets of `key` are in use and none of them holds it. */
  ghost predicate Passed(h: Hash, img: Image, key: Key, n: nat)
    requires WellSized(img)
  {
    forall j | 0 <= j < n ::
      img.index[Bucket(h(key), j)].status != Empty && !HoldsAt(h, img, Bucket(h(key), j), key)
  }

  /** A bucket that may be claimed for a key that is not in the index. */
  predicate Claimable(e: Entry) {
    e.status == Empty || CleanTomb(e)
  }

  lemma {:induction false} ProbeFromFound(h: Hash, img: Image, key: Key, j: nat, free: Option<nat>, d: nat)
    requires WellSized(img)
    requires j <= d < MAX_PROBES
    requires free.Some? ==> free.value < INDEX_SLOTS
    requires Passed(h, img, key, d)
    requires HoldsAt(h, img, Bucket(h(key), d), key)
    ensures ProbeFrom(h, img, key, j, free) == Some((Bucket(h(key), d), true))
    decreases d - j
  {
    if j < d {
      var i := Bucket(h(key), j);
      assert img.index[i].status != Empty && !HoldsAt(h, img, i, key);
      ProbeFromFound(h, img, key, j + 1, if free.None? && CleanTomb(img.index[i]) then Some(i) else free, d);
    }
  }

  /** A key within its probe range is found, whatever claimable tombstones lie ahead of it. */
  lemma ProbeFound(h: Hash, img: Image, key: Key, d: nat)
    requires WellSized(img)
    requires d < MAX_PROBES
    requires Passed(h, img, key, d)
    requires HoldsAt(h, img, Bucket(h(key), d), key)
    ensures Probe(h, img, key) == Some((Bucket(h(key), d), true))
  {
    ProbeFromFound(h, img, key, 0, None, d);
  }

  /** `free` is the first claimable bucket among the first `j`. */
  ghost predicate FirstFree(h: Hash, img: Image, key: Key, j: nat, free: Option<nat>)
    requires WellSized(img)
  {
    if free.None? then
      forall k | 0 <= k < j :: !CleanTomb(img.index[Bucket(h(key), k)])
    else
      && free.value < INDEX_SLOTS
      && exists d | 0 <= d < j :: Bucket(h(key), d) == free.value && CleanTomb(img.index[free.value])
  }

  /** Where a probe stops, and why. */
  lemma {:induction false} ProbeFromStops(h: Hash, img: Image, key: Key, j: nat, free: Option<nat>) returns (n: nat)
    requires WellSized(img)
    requires j <= MAX_PROBES
    requires Passed(h, img, key, j)
    requires FirstFree(h, img, key, j, free)
    ensures j <= n <= MAX_PROBES && Passed(h, img, key, n)
    ensures ProbeFrom(h, img, key, j, free).None? ==>
              n == MAX_PROBES && forall k | 0 <= k < n :: !Claimable(img.index[Bucket(h(key), k)])
    ensures forall i | ProbeFrom(h, img, key, j, free) == Some((i, true)) ::
              n < MAX_PROBES && i == Bucket(h(key), n) && HoldsAt(h, img, i, key)
    ensures forall i | ProbeFrom(h, img, key, j, free) == Some((i, false)) ::
              && (n < MAX_PROBES ==> img.index[Bucket(h(key), n)].status == Empty)
              && exists d | 0 <= d <= n && d < MAX_PROBES :: i == Bucket(h(key), d) && Claimable(img.index[i])
    decreases MAX_PROBES - j
  {
    n := j;
    if j < MAX_PROBES {
      var i := Bucket(h(key), j);
      var e := img.index[i];
      if e.status != Empty && !HoldsAt(h, img, i, key) {
        n := ProbeFromStops(h, img, key, j + 1, if free.None? && CleanTomb(e) then Some(i) else free);
      }
    }
  }

  lemma ProbeStops(h: Hash, img: Image, key: Key) returns (n: nat)
    requires WellSized(img)
    ensures n <= MAX_PROBES && Passed(h, img, key, n)
    ensures Probe(h, img, key).None? ==>
              n == MAX_PROBES && forall k | 0 <= k < n :: !Claimable(img.index[Bucket(h(key), k)])
    ensures forall i | Probe(h, img, key) == Some((i, true)) ::
              n < MAX_PROBES && i == Bucket(h(key), n) && HoldsAt(h, img, i, key)
    ensures forall i | Probe(h, img, key) == Some((i, false)) ::
              && (n < MAX_PROBES ==> img.index[Bucket(h(key), n)].status == Empty)
              && exists d | 0 <= d <= n && d < MAX_PROBES :: i == Bucket(h(key), d) && Claimable(img.index[i])
  {
    n := ProbeFromStops(h, img, key, 0, None);
  }

  // ---------------------------------------- representation invariant --

  function KeyAt(img: Image, i: nat): Key
    requires i < |img.index|
  {
    Text(img.arena, img.index[i].keyOff, img.index[i].keyLen)
  }

  function ValAt(img: Image, i: nat): Bytes
    requires i < |img.index|
  {
    Text(img.arena, img.index[i].valOff, img.index[i].valLen)
  }

  predicate InUse(e: Entry) {
    e.status != Empty
  }

  /** The entry's regions are allocated, its hash is that of its key, and a tombstone has no value. */
  predicate EntryOk(h: Hash, img: Image, i: nat)
    requires i < |img.index|
  {
    var e := img.index[i];
    && (InUse(e) ==> e.keyOff + e.keyLen <= img.used && e.valOff + e.valLen <= img.used && e.hash == h(KeyAt(img, i)))
    && (e.status == Tomb ==> e.valLen == 0)
    && (e.status == Empty ==> !e.dirty)
  }

  /** No EMPTY gap, and no more than MAX_PROBES buckets, between an entry's first bucket and the one it is in. */
  ghost predicate Reachable(img: Image, i: nat)
    requires WellSized(img) && i < INDEX_SLOTS
  {
    var e := img.index[i];
    InUse(e) ==>
      && Dist(e.hash, i) < MAX_PROBES
      && forall j | 0 <= j < Dist(e.hash, i) :: InUse(img.index[Bucket(e.hash, j)])
  }

  ghost predicate Unique(img: Image)
    requires WellSized(img)
  {
    forall i, j | 0 <= i < j < INDEX_SLOTS && InUse(img.index[i]) && InUse(img.index[j]) :: KeyAt(img, i) != KeyAt(img, j)
  }

  function Total(size: Entry -> nat, es: seq<Entry>): nat {
    if |es| == 0 then 0 else Total(size, es[..|es| - 1]) + size(es[|es| - 1])
  }

  function UsedSize(e: Entry): nat {
    if InUse(e) then e.keyLen + e.valLen else 0
  }

  /** Entries that compaction keeps: live ones, and deletions the disk does not know of yet. */
  predicate Kept(e: Entry) {
    e.status == Live || (e.status == Tomb && e.dirty)
  }

  function KeptSize(e: Entry): nat {
    if Kept(e) then e.keyLen + e.valLen else 0
  }

  function UsedBytes(img: Image): nat {
    Total(UsedSize, img.index)
  }

  function KeptBytes(img: Image): nat {
    Total(KeptSize, img.index)
  }

  ghost predicate Inv(h: Hash, img: Image) {
    && WellSized(img)
    && (forall i | 0 <= i < INDEX_SLOTS :: EntryOk(h, img, i))
    && (forall i | 0 <= i < INDEX_SLOTS :: Reachable(img, i))
    && Unique(img)
    && UsedBytes(img) + img.garbage <= img.used
  }

  lemma {:induction false} TotalUpdate(size: Entry -> nat, es: seq<Entry>, i: nat, e: Entry)
    requires i < |es|
    ensures Total(size, es[i := e]) == Total(size, es) - size(es[i]) + size(e)
  {
    var n := |es| - 1;
    if i == n {
      assert es[i := e][..n] == es[..n];
    } else {
      TotalUpdate(size, es[..n], i, e);
      assert es[i := e][..n] == es[..n][i := e];
    }
  }

  lemma {:induction false} TotalAtLeast(size: Entry -> nat, es: seq<Entry>, i: nat)
    requires i < |es|
    ensures size(es[i]) <= Total(size, es)
  {
    var n := |es| - 1;
    if i < n {
      TotalAtLeast(size, es[..n], i);
    }
  }

  lemma {:induction false} TotalMonotone(f: Entry -> nat, g: Entry -> nat, es: seq<Entry>)
    requires forall i | 0 <= i < |es| :: f(es[i]) <= g(es[i])
    ensures Total(f, es) <= Total(g, es)
  {
    if |es| > 0 {
      TotalMonotone(f, g, es[..|es| - 1]);
    }
  }

  // ------------------------------------------------------ abstraction --

  /** A key the store knows: its value, or an uncommitted deletion, and whether the disk is owed a write. */
  datatype Cell = Cell(val: Option<Bytes>, dirty: bool)

  function CellAt(img: Image, i: nat): Cell
    requires i < |img.index|
  {
    Cell(if img.index[i].status == Live then Some(ValAt(img, i)) else None, img.index[i].dirty)
  }

  /** The finite map the index and arena stand for. Clean tombstones stand for nothing. */
  ghost function Abs(img: Image): map<Key, Cell>
    requires WellSized(img) && Unique(img)
  {
    map i | 0 <= i < INDEX_SLOTS && Kept(img.index[i]) :: KeyAt(img, i) := CellAt(img, i)
  }

  lemma AbsAt(img: Image, i: nat)
    requires WellSized(img) && Unique(img)
    requires i < INDEX_SLOTS && Kept(img.index[i])
    ensures KeyAt(img, i) in Abs(img) && Abs(img)[KeyAt(img, i)] == CellAt(img, i)
  {
  }

  lemma AbsHas(img: Image, key: Key) returns (i: nat)
    requires WellSized(img) && Unique(img)
    requires key in Abs(img)
    ensures i < INDEX_SLOTS && Kept(img.index[i]) && KeyAt(img, i) == key && Abs(img)[key] == CellAt(img, i)
  {
    i :| 0 <= i < INDEX_SLOTS && Kept(img.index[i]) && KeyAt(img, i) == key;
  }

  /** Some bucket in use holds `key`. */
  ghost predicate Present(img: Image, key: Key)
    requires WellSized(img)
  {
    exists i | 0 <= i < INDEX_SLOTS :: InUse(img.index[i]) && KeyAt(img, i) == key
  }

  /** Every entry in the index is found by probing for its key. */
  lemma ProbeFinds(h: Hash, img: Image, i: nat)
    requires Inv(h, img)
    requires i < INDEX_SLOTS && InUse(img.index[i])
    ensures Probe(h, img, KeyAt(img, i)) == Some((i, true))
  {
    var key := KeyAt(img, i);
    var hash := img.index[i].hash;
    assert EntryOk(h, img, i) && Reachable(img, i);
    var d := Dist(hash, i);
    forall j | 0 <= j < d
      ensures InUse(img.index[Bucket(hash, j)]) && !HoldsAt(h, img, Bucket(hash, j), key)
    {
      DistBucket(hash, j);
      assert Bucket(hash, j) != i;
      assert EntryOk(h, img, Bucket(hash, j));
    }
    ProbeFound(h, img, key, d);
  }

  /** A probe claims to have found a key exactly when some bucket holds it. */
  lemma ProbeExact(h: Hash, img: Image, key: Key)
    requires Inv(h, img)
    ensures Present(img, key) <==> Probe(h, img, key).Some? && Probe(h, img, key).value.1
    ensures forall i | Probe(h, img, key) == Some((i, true)) :: InUse(img.index[i]) && KeyAt(img, i) == key
  {
    if Present(img, key) {
      var i :| 0 <= i < INDEX_SLOTS && InUse(img.index[i]) && KeyAt(img, i) == key;
      ProbeFinds(h, img, i);
    }
    var n := ProbeStops(h, img, key);
  }

  /** Looking a key up in the table is looking it up in the map. */
  lemma LookupIsAbs(h: Hash, img: Image, key: Key)
    requires Inv(h, img)
    ensures Lookup(h, img, key) == if key in Abs(img) then Abs(img)[key].val else None
  {
    ProbeExact(h, img, key);
    if key in Abs(img) {
      var i := AbsHas(img, key);
      ProbeFinds(h, img, i);
    } else if Lookup(h, img, key).Some? {
      AbsAt(img, Probe(h, img, key).value.0);
    }
  }
}
