/** Writes to the index and arena act as updates of a finite map, and keep the representation invariant. */
module Refinement {
  import opened Layout
  import opened Index
  import opened Operations

  // ---------------------------------------------- one bucket rewritten --

  /** `img'` differs from `img` at bucket `i` and in arena bytes past the old `used` only. */
  ghost predicate Rewrites(img: Image, img': Image, i: nat) {
    && WellSized(img) && WellSized(img') && i < INDEX_SLOTS
    && img.used <= img'.used
    && img'.arena[..img.used] == img.arena[..img.used]
    && img'.index == img.index[i := img'.index[i]]
  }

  lemma OthersFramed(h: Hash, img: Image, img': Image, i: nat, j: nat)
    requires Rewrites(img, img', i)
    requires j < INDEX_SLOTS && j != i && InUse(img.index[j])
    requires EntryOk(h, img, j)
    ensures img'.index[j] == img.index[j]
    ensures KeyAt(img', j) == KeyAt(img, j) && ValAt(img', j) == ValAt(img, j)
    ensures EntryOk(h, img', j)
  {
    var e := img.index[j];
    TextFrame(img.arena, img'.arena, img.used, e.keyOff, e.keyLen);
    TextFrame(img.arena, img'.arena, img.used, e.valOff, e.valLen);
  }

  /** The rewritten bucket holds `key`, which no other bucket does, and nothing became unreachable. */
  lemma RewriteKeepsInv(h: Hash, img: Image, img': Image, i: nat, key: Key)
    requires Inv(h, img)
    requires Rewrites(img, img', i)
    requires InUse(img'.index[i]) && KeyAt(img', i) == key
    requires EntryOk(h, img', i) && Reachable(img', i)
    requires forall j | 0 <= j < INDEX_SLOTS && j != i && InUse(img.index[j]) :: KeyAt(img, j) != key
    requires img'.garbage + UsedSize(img'.index[i]) - UsedSize(img.index[i]) <= img.garbage + img'.used - img.used
    ensures Inv(h, img')
  {
    forall j | 0 <= j < INDEX_SLOTS
      ensures EntryOk(h, img', j)
    {
      assert EntryOk(h, img, j);
      if j != i && InUse(img.index[j]) {
        OthersFramed(h, img, img', i, j);
      }
    }
    forall j | 0 <= j < INDEX_SLOTS
      ensures Reachable(img', j)
    {
      assert Reachable(img, j);
    }
    forall j, k | 0 <= j < k < INDEX_SLOTS && InUse(img'.index[j]) && InUse(img'.index[k])
      ensures KeyAt(img', j) != KeyAt(img', k)
    {
      if j != i { OthersFramed(h, img, img', i, j); }
      if k != i { OthersFramed(h, img, img', i, k); }
    }
    TotalUpdate(UsedSize, img.index, i, img'.index[i]);
  }

  ghost predicate RewritesKey(h: Hash, img: Image, img': Image, i: nat, key: Key) {
    && Inv(h, img) && Inv(h, img')
    && Rewrites(img, img', i)
    && (Kept(img'.index[i]) ==> KeyAt(img', i) == key)
    && (Kept(img.index[i]) ==> KeyAt(img, i) == key)
    && (forall j | 0 <= j < INDEX_SLOTS && j != i && InUse(img.index[j]) :: KeyAt(img, j) != key)
  }

  lemma RewriteLeavesOther(h: Hash, img: Image, img': Image, i: nat, key: Key, k: Key)
    requires RewritesKey(h, img, img', i, key)
    requires k != key
    ensures k in Abs(img) <==> k in Abs(img')
    ensures k in Abs(img) ==> Abs(img)[k] == Abs(img')[k]
  {
    if k in Abs(img) {
      var j := AbsHas(img, k);
      assert EntryOk(h, img, j);
      OthersFramed(h, img, img', i, j);
      AbsAt(img', j);
    } else if k in Abs(img') {
      var j := AbsHas(img', k);
      assert EntryOk(h, img, j);
      OthersFramed(h, img, img', i, j);
      AbsAt(img, j);
    }
  }

  lemma RewriteHidesKey(h: Hash, img: Image, img': Image, i: nat, key: Key)
    requires RewritesKey(h, img, img', i, key)
    requires key in Abs(img')
    ensures Kept(img'.index[i])
  {
    var j := AbsHas(img', key);
    if j != i {
      assert EntryOk(h, img, j);
      OthersFramed(h, img, img', i, j);
    }
  }

  lemma DiffersAtMost<K, V>(a: map<K, V>, b: map<K, V>, key: K)
    requires forall k | k != key :: (k in a <==> k in b) && (k in a ==> a[k] == b[k])
    ensures b == if key in b then a[key := b[key]] else a - {key}
  {
  }

  /** In the map, rewriting the bucket of `key` sets `key`, or removes it if the bucket is not kept. */
  lemma RewriteUpdatesMap(h: Hash, img: Image, img': Image, i: nat, key: Key)
    requires RewritesKey(h, img, img', i, key)
    ensures Abs(img') == if Kept(img'.index[i]) then Abs(img)[key := CellAt(img', i)] else Abs(img) - {key}
  {
    forall k | k != key
      ensures k in Abs(img) <==> k in Abs(img')
      ensures k in Abs(img) ==> Abs(img)[k] == Abs(img')[k]
    {
      RewriteLeavesOther(h, img, img', i, key, k);
    }
    DiffersAtMost(Abs(img), Abs(img'), key);
    if Kept(img'.index[i]) {
      AbsAt(img', i);
    } else if key in Abs(img') {
      RewriteHidesKey(h, img, img', i, key);
    }
  }

  // ----------------------------------------------------------- probing --

  lemma OthersDiffer(h: Hash, img: Image, key: Key, i: nat)
    requires Inv(h, img)
    requires i < INDEX_SLOTS && InUse(img.index[i]) && KeyAt(img, i) == key
    ensures forall j | 0 <= j < INDEX_SLOTS && j != i && InUse(img.index[j]) :: KeyAt(img, j) != key
  {
  }

  /** The bucket a probe offers for a missing key is claimable, within range, with no gap before it. */
  lemma OfferedBucket(h: Hash, img: Image, key: Key)
    requires Inv(h, img)
    requires Probe(h, img, key).Some? && !Probe(h, img, key).value.1
    ensures var i := Probe(h, img, key).value.0;
            && Claimable(img.index[i])
            && Dist(h(key), i) < MAX_PROBES
            && (forall j | 0 <= j < Dist(h(key), i) :: InUse(img.index[Bucket(h(key), j)]))
            && (forall j | 0 <= j < INDEX_SLOTS && InUse(img.index[j]) :: KeyAt(img, j) != key)
  {
    var i := Probe(h, img, key).value.0;
    var n := ProbeStops(h, img, key);
    var d :| 0 <= d <= n && d < MAX_PROBES && i == Bucket(h(key), d) && Claimable(img.index[i]);
    DistBucket(h(key), d);
    ProbeExact(h, img, key);
  }

  // --------------------------------------------------------------- put --

  lemma AllocGrows(img: Image, bytes: Bytes)
    requires WellSized(img) && Alloc(img, bytes).Some?
    ensures var a := Alloc(img, bytes).value;
            && a.used == img.used + |bytes|
            && a.arena[..img.used] == img.arena[..img.used]
            && Text(a.arena, img.used, |bytes|) == bytes
  {
  }

  /** With the space reserved, writing under the counter cannot fail, and sets the key in the map. */
  lemma PutLockedRefines(h: Hash, img: Image, key: Key, val: Bytes, dirty: bool)
    requires Inv(h, img)
    requires Probe(h, img, key).Some?
    requires img.used + |key| + |val| <= ARENA_SIZE
    ensures var p := Probe(h, img, key).value;
            var r := PutLocked(h, img, p.0, p.1, key, val, dirty);
            && r.1
            && Inv(h, r.0)
            && Abs(r.0) == Abs(img)[key := Cell(Some(val), dirty || (key in Abs(img) && Abs(img)[key].dirty))]
  {
    var (i, found) := Probe(h, img, key).value;
    var img' := PutLocked(h, img, i, found, key, val, dirty).0;
    var a := Alloc(img, val).value;
    AllocGrows(img, val);
    ProbeExact(h, img, key);
    assert EntryOk(h, img, i) && Reachable(img, i);
    if found {
      var e := img.index[i];
      OthersDiffer(h, img, key, i);
      assert Rewrites(img, img', i);
      TextFrame(img.arena, img'.arena, img.used, e.keyOff, e.keyLen);
    } else {
      OfferedBucket(h, img, key);
      AllocGrows(a, key);
      assert img'.arena[..img.used] == a.arena[..img.used] by {
        assert a.arena[..img.used] == a.arena[..a.used][..img.used];
        assert img'.arena[..img.used] == img'.arena[..a.used][..img.used];
      }
      TextFrame(a.arena, img'.arena, a.used, img.used, |val|);
      assert Rewrites(img, img', i);
    }
    assert KeyAt(img', i) == key && ValAt(img', i) == val;
    RewriteKeepsInv(h, img, img', i, key);
    RewriteUpdatesMap(h, img, img', i, key);
    if key in Abs(img) {
      var j := AbsHas(img, key);
      assert j == i;
    } else if found {
      assert !Kept(img.index[i]) by {
        if Kept(img.index[i]) { AbsAt(img, i); }
      }
    }
  }

  /** Unsetting a live key leaves a deletion in the map, owed to the disk when `dirty` or already owed. */
  lemma RemoveRefines(h: Hash, m: Mem, key: Key, dirty: bool)
    requires MemOk(m) && Inv(h, m.img)
    ensures var r := Remove(h, m, key, dirty);
            var was := Abs(m.img);
            && Inv(h, r.mem.img)
            && (r.ok <==> key in was && was[key].val.Some?)
            && Abs(r.mem.img) == (if !r.ok then was
                                  else if dirty || was[key].dirty then was[key := Cell(None, true)]
                                  else was - {key})
  {
    var img := m.img;
    LookupIsAbs(h, img, key);
    ProbeExact(h, img, key);
    var b := LiveBucket(h, img, key);
    if b.Some? {
      var i := b.value;
      var img' := RemoveAt(img, i, dirty);
      assert EntryOk(h, img, i) && Reachable(img, i);
      OthersDiffer(h, img, key, i);
      AbsAt(img, i);
      RewriteKeepsInv(h, img, img', i, key);
      RewriteUpdatesMap(h, img, img', i, key);
    }
  }
}
