/** Compaction rebuilds the index and arena without changing what they stand for. */
module Compaction {
  import opened Layout
  import opened Index
  import opened Operations
  import opened Refinement

  function KeepSize(k: Keep): nat {
    |k.key| + if k.val.Some? then |k.val.value| else 0
  }

  function KeepSizes(ks: seq<Keep>): nat {
    if |ks| == 0 then 0 else KeepSizes(ks[..|ks| - 1]) + KeepSize(ks[|ks| - 1])
  }

  function MapOf(ks: seq<Keep>): map<Key, Cell> {
    if |ks| == 0 then map[]
    else
      var k := ks[|ks| - 1];
      MapOf(ks[..|ks| - 1])[k.key := Cell(k.val, k.dirty)]
  }

  /** Every re-insertion finds a bucket. */
  predicate Reinserts(h: Hash, img: Image, ks: seq<Keep>)
    requires WellSized(img)
  {
    |ks| == 0 ||
    (Reinserts(h, img, ks[..|ks| - 1]) && Probe(h, ReinsertAll(h, img, ks[..|ks| - 1]), ks[|ks| - 1].key).Some?)
  }

  /** Compacting `img` re-inserts every entry it set out to keep. */
  predicate Lossless(h: Hash, img: Image)
    requires WellSized(img)
  {
    Reinserts(h, Wiped(img), Keeps(img, INDEX_SLOTS))
  }

  // ---------------------------------------------------- what is kept --

  lemma {:induction false} MapOfKeys(ks: seq<Keep>, m: nat)
    requires m < |ks|
    ensures ks[m].key in MapOf(ks)
  {
    if m < |ks| - 1 {
      MapOfKeys(ks[..|ks| - 1], m);
    }
  }

  lemma {:induction false} MapOfHas(ks: seq<Keep>, key: Key) returns (m: nat)
    requires key in MapOf(ks)
    ensures m < |ks| && ks[m].key == key
  {
    m := |ks| - 1;
    if ks[m].key != key {
      m := MapOfHas(ks[..m], key);
    }
  }

  lemma KeepOfKept(h: Hash, img: Image, i: nat)
    requires Inv(h, img) && i < INDEX_SLOTS && Kept(img.index[i])
    ensures KeepOf(img, img.index[i]).Some?
    ensures var k := KeepOf(img, img.index[i]).value;
            && k.key == KeyAt(img, i) && Cell(k.val, k.dirty) == CellAt(img, i)
            && KeepSize(k) == KeptSize(img.index[i]) && (k.val.None? ==> k.dirty)
  {
    assert EntryOk(h, img, i);
  }

  /** The list of kept entries is the map, restricted to the first `n` buckets. */
  lemma {:induction false} KeepsAreMap(h: Hash, img: Image, n: nat)
    requires Inv(h, img) && n <= INDEX_SLOTS
    ensures forall i | 0 <= i < n && Kept(img.index[i]) ::
              KeyAt(img, i) in MapOf(Keeps(img, n)) && MapOf(Keeps(img, n))[KeyAt(img, i)] == CellAt(img, i)
    ensures forall k | k in MapOf(Keeps(img, n)) :: exists i | 0 <= i < n :: Kept(img.index[i]) && KeyAt(img, i) == k
  {
    if n > 0 {
      KeepsAreMap(h, img, n - 1);
      if Kept(img.index[n - 1]) {
        KeepOfKept(h, img, n - 1);
        assert Keeps(img, n)[..|Keeps(img, n)| - 1] == Keeps(img, n - 1);
      } else {
        assert Keeps(img, n) == Keeps(img, n - 1);
      }
    }
  }

  lemma KeepsAreAbs(h: Hash, img: Image)
    requires Inv(h, img)
    ensures MapOf(Keeps(img, INDEX_SLOTS)) == Abs(img)
  {
    KeepsAreMap(h, img, INDEX_SLOTS);
  }

  lemma {:induction false} KeepsSize(h: Hash, img: Image, n: nat)
    requires Inv(h, img) && n <= INDEX_SLOTS
    ensures KeepSizes(Keeps(img, n)) == Total(KeptSize, img.index[..n])
    ensures forall k | k in Keeps(img, n) :: k.val.None? ==> k.dirty
  {
    if n > 0 {
      KeepsSize(h, img, n - 1);
      assert img.index[..n][..n - 1] == img.index[..n - 1];
      if Kept(img.index[n - 1]) {
        KeepOfKept(h, img, n - 1);
        assert Keeps(img, n)[..|Keeps(img, n)| - 1] == Keeps(img, n - 1);
      } else {
        assert Keeps(img, n) == Keeps(img, n - 1);
      }
    }
  }

  lemma KeptFits(h: Hash, img: Image)
    requires Inv(h, img)
    ensures KeepSizes(Keeps(img, INDEX_SLOTS)) == KeptBytes(img) <= UsedBytes(img) <= ARENA_SIZE
  {
    KeepsSize(h, img, INDEX_SLOTS);
    assert img.index[..INDEX_SLOTS] == img.index;
    TotalMonotone(KeptSize, UsedSize, img.index);
  }

  // --------------------------------------------------- one re-insertion --

  /** No garbage, no clean tombstones, and every allocated byte belongs to an entry. */
  ghost predicate Packed(img: Image) {
    && img.garbage == 0
    && img.used == UsedBytes(img)
    && forall e | e in img.index :: Claimable(e) ==> e.status == Empty
  }

  lemma {:induction false} TotalZero(es: seq<Entry>)
    requires forall e | e in es :: !InUse(e)
    ensures Total(UsedSize, es) == 0
  {
    if |es| > 0 {
      TotalZero(es[..|es| - 1]);
    }
  }

  lemma WipedIsEmpty(h: Hash, img: Image)
    requires WellSized(img)
    ensures Inv(h, Wiped(img)) && Packed(Wiped(img)) && Abs(Wiped(img)) == map[]
  {
    TotalZero(Wiped(img).index);
  }

  /** The entry a re-insertion writes: its key and value are in the arena, and nothing allocated before has moved. */
  lemma ReinsertWrites(h: Hash, img: Image, k: Keep, i: nat)
    requires WellSized(img) && i < INDEX_SLOTS
    requires Probe(h, img, k.key) == Some((i, false)) && img.used + KeepSize(k) <= ARENA_SIZE
    ensures var img' := Reinsert(h, img, k);
            && Rewrites(img, img', i)
            && InUse(img'.index[i]) && KeyAt(img', i) == k.key && CellAt(img', i) == Cell(k.val, k.dirty)
            && img'.used == img.used + KeepSize(k) && img'.garbage == img.garbage
            && UsedSize(img'.index[i]) == KeepSize(k) && img'.index[i].hash == h(k.key)
            && img'.index[i].keyOff + img'.index[i].keyLen <= img'.used
            && img'.index[i].valOff + img'.index[i].valLen <= img'.used
            && (k.val.None? <==> img'.index[i].status == Tomb)
  {
    var img' := Reinsert(h, img, k);
    var a := Alloc(img, k.key).value;
    AllocGrows(img, k.key);
    if k.val.Some? {
      AllocGrows(a, k.val.value);
      assert img'.arena[..img.used] == a.arena[..img.used] by {
        assert a.arena[..img.used] == a.arena[..a.used][..img.used];
        assert img'.arena[..img.used] == img'.arena[..a.used][..img.used];
      }
      TextFrame(a.arena, img'.arena, a.used, img.used, |k.key|);
    }
  }

  lemma ReinsertLands(h: Hash, img: Image, k: Keep)
    requires Inv(h, img) && Packed(img)
    requires k.key !in Abs(img) && (k.val.None? ==> k.dirty)
    requires img.used + KeepSize(k) <= ARENA_SIZE
    requires Probe(h, img, k.key).Some?
    ensures var img' := Reinsert(h, img, k);
            var i := Probe(h, img, k.key).value.0;
            && Inv(h, img') && Packed(img')
            && Abs(img') == Abs(img)[k.key := Cell(k.val, k.dirty)]
            && img'.used == img.used + KeepSize(k)
            && img.index[i].status == Empty && Rewrites(img, img', i)
            && InUse(img'.index[i]) && KeyAt(img', i) == k.key
  {
    var (i, found) := Probe(h, img, k.key).value;
    ProbeExact(h, img, k.key);
    if found {
      assert img.index[i] in img.index;
      AbsAt(img, i);
    }
    OfferedBucket(h, img, k.key);
    assert img.index[i] in img.index;
    var img' := Reinsert(h, img, k);
    ReinsertWrites(h, img, k, i);
    assert EntryOk(h, img, i) && Reachable(img, i);
    RewriteKeepsInv(h, img, img', i, k.key);
    RewriteUpdatesMap(h, img, img', i, k.key);
    TotalUpdate(UsedSize, img.index, i, img'.index[i]);
  }

  // -------------------------------------------------- all re-insertions --

  ghost predicate DistinctKeys(ks: seq<Keep>) {
    forall a, b | 0 <= a < b < |ks| :: ks[a].key != ks[b].key
  }

  lemma {:induction false} KeepsDistinct(h: Hash, img: Image, n: nat)
    requires Inv(h, img) && n <= INDEX_SLOTS
    ensures DistinctKeys(Keeps(img, n))
  {
    if n > 0 {
      KeepsDistinct(h, img, n - 1);
      if Kept(img.index[n - 1]) {
        KeepOfKept(h, img, n - 1);
        var ks := Keeps(img, n - 1);
        forall a | 0 <= a < |ks|
          ensures ks[a].key != KeyAt(img, n - 1)
        {
          KeepsAreMap(h, img, n - 1);
          MapOfKeys(ks, a);
        }
      }
    }
  }

  /** Some entry's key is not in the map. */
  ghost predicate Misses(ks: seq<Keep>, a: map<Key, Cell>) {
    exists m | 0 <= m < |ks| :: ks[m].key !in a
  }

  /** `a` is part of `b`. */
  ghost predicate Within(a: map<Key, Cell>, b: map<Key, Cell>) {
    forall k | k in a :: k in b && a[k] == b[k]
  }

  /** A map built from the entries before the last, with the last one added or left out. */
  lemma {:induction false} OneMore(ks: seq<Keep>, a: map<Key, Cell>)
    requires |ks| > 0 && DistinctKeys(ks) && Within(a, MapOf(ks[..|ks| - 1]))
    ensures var last := ks[|ks| - 1];
            var a' := a[last.key := Cell(last.val, last.dirty)];
            && last.key !in a && Within(a, MapOf(ks)) && Misses(ks, a) && Within(a', MapOf(ks))
            && (a == MapOf(ks[..|ks| - 1]) ==> a' == MapOf(ks))
            && (Misses(ks[..|ks| - 1], a) ==> Misses(ks, a'))
  {
    var (before, last) := (ks[..|ks| - 1], ks[|ks| - 1]);
    if last.key in a {
      var m := MapOfHas(before, last.key);
    }
    assert ks[|ks| - 1].key !in a;
    if Misses(before, a) {
      var m :| 0 <= m < |before| && before[m].key !in a;
      assert ks[m] == before[m];
    }
  }

  /** What the map is after re-inserting `ks` into an empty segment, entries that found no bucket left out. */
  ghost predicate Rebuilt(h: Hash, img: Image, ks: seq<Keep>, img': Image)
    requires WellSized(img)
  {
    && Inv(h, img') && Packed(img') && img'.used <= KeepSizes(ks)
    && Within(Abs(img'), MapOf(ks))
    && (Reinserts(h, img, ks) ==> Abs(img') == MapOf(ks) && img'.used == KeepSizes(ks))
    && (!Reinserts(h, img, ks) ==> Misses(ks, Abs(img')))
  }

  lemma {:induction false} RebuiltFound(h: Hash, img: Image, ks: seq<Keep>)
    requires WellSized(img) && |ks| > 0 && DistinctKeys(ks) && KeepSizes(ks) <= ARENA_SIZE
    requires ks[|ks| - 1].val.None? ==> ks[|ks| - 1].dirty
    requires var prev := ReinsertAll(h, img, ks[..|ks| - 1]);
             Rebuilt(h, img, ks[..|ks| - 1], prev) && Probe(h, prev, ks[|ks| - 1].key).Some?
    ensures Rebuilt(h, img, ks, ReinsertAll(h, img, ks))
  {
    var n := |ks| - 1;
    var prev := ReinsertAll(h, img, ks[..n]);
    OneMore(ks, Abs(prev));
    ReinsertLands(h, prev, ks[n]);
  }

  lemma {:induction false} RebuiltNotFound(h: Hash, img: Image, ks: seq<Keep>, prev: Image)
    requires WellSized(img) && |ks| > 0 && DistinctKeys(ks)
    requires prev == ReinsertAll(h, img, ks[..|ks| - 1])
    requires Rebuilt(h, img, ks[..|ks| - 1], prev) && Probe(h, prev, ks[|ks| - 1].key).None?
    ensures Rebuilt(h, img, ks, prev)
  {
    OneMore(ks, Abs(prev));
  }

  /** What a rebuild from an empty segment yields, dropped entries and all. */
  lemma {:induction false} ReinsertAllRebuilds(h: Hash, img: Image, ks: seq<Keep>)
    requires Inv(h, img) && Packed(img) && Abs(img) == map[] && img.used == 0
    requires DistinctKeys(ks) && KeepSizes(ks) <= ARENA_SIZE
    requires forall k | k in ks :: k.val.None? ==> k.dirty
    ensures Rebuilt(h, img, ks, ReinsertAll(h, img, ks))
  {
    if |ks| > 0 {
      var n := |ks| - 1;
      ReinsertAllRebuilds(h, img, ks[..n]);
      if Probe(h, ReinsertAll(h, img, ks[..n]), ks[n].key).Some? {
        RebuiltFound(h, img, ks);
      } else {
        RebuiltNotFound(h, img, ks, ReinsertAll(h, img, ks[..n]));
      }
    }
  }

  /**
   * Compaction restores the whole invariant, and keeps every value, flag and uncommitted deletion
   * exactly when every re-insertion finds a bucket.
   */
  lemma CompactKeepsMeaning(h: Hash, img: Image)
    requires Inv(h, img)
    ensures Inv(h, Compact(h, img)) && Packed(Compact(h, img))
    ensures Abs(Compact(h, img)) == Abs(img) <==> Lossless(h, img)
    ensures forall k | k in Abs(Compact(h, img)) :: k in Abs(img) && Abs(Compact(h, img))[k] == Abs(img)[k]
    ensures Lossless(h, img) ==> Compact(h, img).used == KeptBytes(img)
    ensures Compact(h, img).used <= KeptBytes(img)
  {
    var ks := Keeps(img, INDEX_SLOTS);
    WipedIsEmpty(h, img);
    KeptFits(h, img);
    KeepsSize(h, img, INDEX_SLOTS);
    KeepsDistinct(h, img, INDEX_SLOTS);
    KeepsAreAbs(h, img);
    ReinsertAllRebuilds(h, Wiped(img), ks);
    if !Lossless(h, img) {
      var m :| 0 <= m < |ks| && ks[m].key !in Abs(Compact(h, img));
      MapOfKeys(ks, m);
    }
  }

  // ------------------------------------------------ tables without wrap --

  /** No kept entry's probe chain runs past the end of the table. */
  ghost predicate Unwrapped(img: Image)
    requires WellSized(img)
  {
    forall i | 0 <= i < INDEX_SLOTS && Kept(img.index[i]) :: img.index[i].hash % INDEX_SLOTS <= i
  }

  /** The rebuilt table uses only the first `n` buckets, each entry at or before the bucket it came from. */
  ghost predicate MovedDown(img: Image, cur: Image, n: nat)
    requires WellSized(img) && WellSized(cur) && n <= INDEX_SLOTS
  {
    && (forall b | n <= b < INDEX_SLOTS :: !InUse(cur.index[b]))
    && (forall i | 0 <= i < n && Kept(img.index[i]) :: Holds(img, cur, i))
  }

  ghost predicate Holds(img: Image, cur: Image, i: nat)
    requires WellSized(img) && WellSized(cur) && i < INDEX_SLOTS
  {
    exists b | 0 <= b <= i ::
      InUse(cur.index[b]) && KeyAt(cur, b) == KeyAt(img, i) && img.index[i].hash % INDEX_SLOTS <= b
  }

  lemma {:induction false} UnwrappedReinserts(h: Hash, img: Image, n: nat)
    requires Inv(h, img) && Unwrapped(img) && n <= INDEX_SLOTS
    ensures Reinserts(h, Wiped(img), Keeps(img, n))
    ensures MovedDown(img, ReinsertAll(h, Wiped(img), Keeps(img, n)), n)
  {
    if n > 0 {
      var i := n - 1;
      UnwrappedReinserts(h, img, i);
      if Kept(img.index[i]) {
        UnwrappedReinsertsNext(h, img, i);
      } else {
        assert Keeps(img, n) == Keeps(img, i);
      }
    }
  }

  lemma UnwrappedReinsertsNext(h: Hash, img: Image, i: nat)
    requires Inv(h, img) && Unwrapped(img) && i < INDEX_SLOTS && Kept(img.index[i])
    requires Reinserts(h, Wiped(img), Keeps(img, i))
    requires MovedDown(img, ReinsertAll(h, Wiped(img), Keeps(img, i)), i)
    ensures Reinserts(h, Wiped(img), Keeps(img, i + 1))
    ensures MovedDown(img, ReinsertAll(h, Wiped(img), Keeps(img, i + 1)), i + 1)
  {
    KeepOfKept(h, img, i);
    var ks := Keeps(img, i + 1);
    assert ks[..|ks| - 1] == Keeps(img, i);
    UnwrappedLandsBefore(h, img, i);
  }

  lemma PrefixFits(h: Hash, img: Image, n: nat)
    requires Inv(h, img) && n <= INDEX_SLOTS
    ensures KeepSizes(Keeps(img, n)) <= ARENA_SIZE
    decreases INDEX_SLOTS - n
  {
    if n == INDEX_SLOTS {
      KeptFits(h, img);
    } else {
      PrefixFits(h, img, n + 1);
      if Kept(img.index[n]) {
        KeepOfKept(h, img, n);
        assert Keeps(img, n + 1)[..|Keeps(img, n + 1)| - 1] == Keeps(img, n);
      } else {
        assert Keeps(img, n + 1) == Keeps(img, n);
      }
    }
  }

  /** The entries kept ahead of bucket `i` leave room for its own, and none has its key. */
  lemma KeepsAhead(h: Hash, img: Image, i: nat)
    requires Inv(h, img)
    requires i < INDEX_SLOTS && Kept(img.index[i])
    ensures KeepOf(img, img.index[i]).Some?
    ensures var ks := Keeps(img, i);
            var k := KeepOf(img, img.index[i]).value;
            && k.key == KeyAt(img, i) && (k.val.None? ==> k.dirty)
            && DistinctKeys(ks) && (forall a | 0 <= a < |ks| :: ks[a].key != k.key)
            && (forall a | a in ks :: a.val.None? ==> a.dirty)
            && KeepSizes(ks) + KeepSize(k) <= ARENA_SIZE
  {
    KeepOfKept(h, img, i);
    KeepsDistinct(h, img, i + 1);
    KeepsSize(h, img, i);
    PrefixFits(h, img, i + 1);
    LastKeep(Keeps(img, i), KeepOf(img, img.index[i]).value);
  }

  lemma LastKeep(ks: seq<Keep>, k: Keep)
    ensures KeepSizes(ks + [k]) == KeepSizes(ks) + KeepSize(k)
    ensures DistinctKeys(ks + [k]) ==> DistinctKeys(ks) && forall a | 0 <= a < |ks| :: ks[a].key != k.key
  {
    var next := ks + [k];
    assert next[..|ks|] == ks && next[|ks|] == k;
    assert forall a | 0 <= a < |ks| :: next[a] == ks[a];
  }

  lemma NotInMapOf(ks: seq<Keep>, key: Key)
    requires forall a | 0 <= a < |ks| :: ks[a].key != key
    ensures key !in MapOf(ks)
  {
    if key in MapOf(ks) {
      var m := MapOfHas(ks, key);
    }
  }

  /** Before bucket `i`'s turn, the rebuilt table is sound, has room for its entry, and lacks its key. */
  lemma BeforeTurn(h: Hash, img: Image, i: nat)
    requires Inv(h, img)
    requires i < INDEX_SLOTS && Kept(img.index[i])
    ensures var prev := ReinsertAll(h, Wiped(img), Keeps(img, i));
            var k := KeepOf(img, img.index[i]);
            && Inv(h, prev) && Packed(prev)
            && k.Some? && k.value.key == KeyAt(img, i) && k.value.key !in Abs(prev) && (k.value.val.None? ==> k.value.dirty)
            && prev.used + KeepSize(k.value) <= ARENA_SIZE
  {
    KeepsAhead(h, img, i);
    WipedIsEmpty(h, img);
    ReinsertAllRebuilds(h, Wiped(img), Keeps(img, i));
    NotInMapOf(Keeps(img, i), KeyAt(img, i));
  }

  /** With bucket `i` empty, a missing key is offered a bucket between its first one and `i`. */
  lemma OfferedDistance(h: Hash, img: Image, key: Key, i: nat)
    requires WellSized(img) && i < INDEX_SLOTS && !InUse(img.index[i])
    requires h(key) % INDEX_SLOTS <= i < h(key) % INDEX_SLOTS + MAX_PROBES
    requires Probe(h, img, key).Some? ==> !Probe(h, img, key).value.1
    ensures Probe(h, img, key).Some?
    ensures h(key) % INDEX_SLOTS <= Probe(h, img, key).value.0 <= i
  {
    var n := ProbeStops(h, img, key);
    BucketNear(h(key), i);
    StopsBefore(h, img, key, n, Dist(h(key), i));
    var b := Probe(h, img, key).value.0;
    assert Probe(h, img, key) == Some((b, false));
    var d :| 0 <= d <= n && d < MAX_PROBES && b == Bucket(h(key), d);
    BucketBefore(h(key), d, i);
  }

  lemma BucketNear(hash: nat, i: nat)
    requires hash % INDEX_SLOTS <= i < INDEX_SLOTS
    ensures Dist(hash, i) == i - hash % INDEX_SLOTS
  {
  }

  lemma BucketBefore(hash: nat, d: nat, i: nat)
    requires hash % INDEX_SLOTS + d <= i < INDEX_SLOTS
    ensures Bucket(hash, d) == hash % INDEX_SLOTS + d
  {
  }

  lemma StopsBefore(h: Hash, img: Image, key: Key, n: nat, d: nat)
    requires WellSized(img) && Passed(h, img, key, n)
    requires !InUse(img.index[Bucket(h(key), d)])
    ensures n <= d
  {
  }

  lemma HoldsAfter(h: Hash, img: Image, prev: Image, next: Image, b: nat, j: nat)
    requires WellSized(img) && j < INDEX_SLOTS
    requires Inv(h, prev) && Rewrites(prev, next, b) && !InUse(prev.index[b])
    requires Holds(img, prev, j)
    ensures Holds(img, next, j)
  {
    var c :| 0 <= c <= j && InUse(prev.index[c]) && KeyAt(prev, c) == KeyAt(img, j) && img.index[j].hash % INDEX_SLOTS <= c;
    assert EntryOk(h, prev, c);
    OthersFramed(h, prev, next, b, c);
  }

  /** The entry of bucket `i` lands at or before `i`. */
  lemma UnwrappedLandsBefore(h: Hash, img: Image, i: nat)
    requires Inv(h, img) && Unwrapped(img)
    requires i < INDEX_SLOTS && Kept(img.index[i])
    requires MovedDown(img, ReinsertAll(h, Wiped(img), Keeps(img, i)), i)
    ensures var prev := ReinsertAll(h, Wiped(img), Keeps(img, i));
            var k := KeepOf(img, img.index[i]);
            && k.Some? && Probe(h, prev, k.value.key).Some?
            && MovedDown(img, Reinsert(h, prev, k.value), i + 1)
  {
    var prev := ReinsertAll(h, Wiped(img), Keeps(img, i));
    BeforeTurn(h, img, i);
    assert EntryOk(h, img, i) && Reachable(img, i);
    KeptDistance(img, i);
    LandsBefore(h, img, prev, KeepOf(img, img.index[i]).value, i);
  }

  lemma KeptDistance(img: Image, i: nat)
    requires WellSized(img) && i < INDEX_SLOTS && InUse(img.index[i]) && Reachable(img, i)
    requires img.index[i].hash % INDEX_SLOTS <= i
    ensures i < img.index[i].hash % INDEX_SLOTS + MAX_PROBES
  {
    BucketNear(img.index[i].hash, i);
  }

  lemma {:induction false} LandsBefore(h: Hash, img: Image, prev: Image, k: Keep, i: nat)
    requires WellSized(img) && i < INDEX_SLOTS && img.index[i].hash == h(k.key) && KeyAt(img, i) == k.key
    requires h(k.key) % INDEX_SLOTS <= i < h(k.key) % INDEX_SLOTS + MAX_PROBES
    requires Inv(h, prev) && Packed(prev) && MovedDown(img, prev, i)
    requires k.key !in Abs(prev) && (k.val.None? ==> k.dirty) && prev.used + KeepSize(k) <= ARENA_SIZE
    ensures Probe(h, prev, k.key).Some?
    ensures MovedDown(img, Reinsert(h, prev, k), i + 1)
  {
    MissingNotFound(h, prev, k.key);
    OfferedDistance(h, prev, k.key, i);
    ReinsertLands(h, prev, k);
    var b := Probe(h, prev, k.key).value.0;
    var next := Reinsert(h, prev, k);
    forall j | 0 <= j < i && Kept(img.index[j])
      ensures Holds(img, next, j)
    {
      HoldsAfter(h, img, prev, next, b, j);
    }
    assert Holds(img, next, i);
  }

  lemma MissingNotFound(h: Hash, img: Image, key: Key)
    requires Inv(h, img) && Packed(img) && key !in Abs(img)
    ensures Probe(h, img, key).Some? ==> !Probe(h, img, key).value.1
  {
    ProbeExact(h, img, key);
    if Present(img, key) {
      PackedKeeps(h, img, key);
    }
  }

  lemma PackedKeeps(h: Hash, img: Image, key: Key)
    requires Inv(h, img) && Packed(img) && Present(img, key)
    ensures key in Abs(img)
  {
    var i :| 0 <= i < INDEX_SLOTS && InUse(img.index[i]) && KeyAt(img, i) == key;
    assert img.index[i] in img.index;
    AbsAt(img, i);
  }

  /**
   * A table in which no chain wraps loses nothing to compaction: each entry lands between its first bucket
   * and the one it was in, so no probe distance grows and the rebuilt table does not wrap either.
   */
  lemma UnwrappedIsLossless(h: Hash, img: Image)
    requires Inv(h, img) && Unwrapped(img)
    ensures Inv(h, Compact(h, img)) && Lossless(h, img) && Abs(Compact(h, img)) == Abs(img)
    ensures forall i | 0 <= i < INDEX_SLOTS && Kept(img.index[i]) ::
              var p := Probe(h, Compact(h, img), KeyAt(img, i));
              p.Some? && p.value.1 && img.index[i].hash % INDEX_SLOTS <= p.value.0 <= i
    ensures Unwrapped(Compact(h, img))
  {
    var c := Compact(h, img);
    CompactKeepsMeaning(h, img);
    UnwrappedReinserts(h, img, INDEX_SLOTS);
    forall i | 0 <= i < INDEX_SLOTS && Kept(img.index[i])
      ensures var p := Probe(h, c, KeyAt(img, i));
              p.Some? && p.value.1 && img.index[i].hash % INDEX_SLOTS <= p.value.0 <= i
    {
      assert Holds(img, c, i);
      var b :| 0 <= b <= i && InUse(c.index[b]) && KeyAt(c, b) == KeyAt(img, i) && img.index[i].hash % INDEX_SLOTS <= b;
      ProbeFinds(h, c, b);
    }
    forall b | 0 <= b < INDEX_SLOTS && Kept(c.index[b])
      ensures c.index[b].hash % INDEX_SLOTS <= b
    {
      AbsAt(c, b);
      var i := AbsHas(img, KeyAt(c, b));
      ProbeFinds(h, c, b);
      assert EntryOk(h, c, b) && EntryOk(h, img, i);
    }
  }
}
