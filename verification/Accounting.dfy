/** Where every allocated arena byte is: in a region of one entry, counted as garbage, or lost with a reclaimed tombstone. */
module Accounting {
  import opened Layout
  import opened Index
  import opened Operations
  import opened Refinement
  import opened Compaction
  import opened MapRefinement

  /** Allocated bytes that neither belong to an entry nor are counted as garbage. */
  ghost function Uncounted(img: Image): int {
    img.used - UsedBytes(img) - img.garbage
  }

  /** The entry, empty or a clean tombstone, whose bucket this put claims for a new key. */
  ghost function ClaimedEntry(h: Hash, m: Mem, key: Key, val: Bytes): Option<Entry>
    requires MemOk(m)
  {
    var s := EnsureSpace(h, m, |key| + |val|);
    var p := Probe(h, s.mem.img, key);
    if HoldsValue(h, m.img, key, val) || !s.ok || p.None? || p.value.1 then None
    else Some(s.mem.img.index[p.value.0])
  }

  /** The key bytes of the tombstone this put claims for another key; nothing ever counts them. */
  ghost function Reclaimed(h: Hash, m: Mem, key: Key, val: Bytes): nat
    requires MemOk(m)
  {
    var e := ClaimedEntry(h, m, key, val);
    if e.Some? && CleanTomb(e.value) then e.value.keyLen else 0
  }

  lemma PutLockedUncounted(h: Hash, img: Image, key: Key, val: Bytes, dirty: bool)
    requires Inv(h, img)
    requires Probe(h, img, key).Some?
    requires img.used + |key| + |val| <= ARENA_SIZE
    ensures var (i, found) := Probe(h, img, key).value;
            Uncounted(PutLocked(h, img, i, found, key, val, dirty).0)
            == Uncounted(img) + if !found && CleanTomb(img.index[i]) then img.index[i].keyLen else 0
  {
    var (i, found) := Probe(h, img, key).value;
    var img' := PutLocked(h, img, i, found, key, val, dirty).0;
    ProbeExact(h, img, key);
    assert EntryOk(h, img, i);
    if !found {
      OfferedBucket(h, img, key);
    }
    TotalUpdate(UsedSize, img.index, i, img'.index[i]);
  }

  /**
   * Over a put, `used` stays equal to the bytes of entries in use, plus garbage, plus the key bytes of tombstones
   * reclaimed since the arena was last rebuilt.
   */
  lemma PutAccounts(h: Hash, m: Mem, key: Key, val: Bytes, dirty: bool)
    requires MemOk(m) && Inv(h, m.img)
    ensures Uncounted(Put(h, m, key, val, dirty).mem.img)
            == (if PutCompacts(h, m, key, val) then 0 else Uncounted(m.img)) + Reclaimed(h, m, key, val)
  {
    CompactKeepsMeaning(h, m.img);
    EnsureSpaceRefines(h, m, |key| + |val|);
    var s := EnsureSpace(h, m, |key| + |val|);
    if !HoldsValue(h, m.img, key, val) && s.ok && Probe(h, s.mem.img, key).Some? {
      PutLockedUncounted(h, s.mem.img, key, val, dirty);
    }
  }

  /** Removing, retiring a flag and clearing lose no bytes. */
  lemma OthersAccount(h: Hash, m: Mem, key: Key, dirty: bool, p: Pending)
    requires MemOk(m) && Inv(h, m.img)
    ensures Uncounted(Remove(h, m, key, dirty).mem.img) == Uncounted(m.img)
    ensures Uncounted(Retire(h, m, p).img) == Uncounted(m.img)
    ensures Uncounted(Clear(m).img) == 0
  {
    var i := LiveBucket(h, m.img, key);
    if i.Some? {
      TotalUpdate(UsedSize, m.img.index, i.value, RemoveAt(m.img, i.value, dirty).index[i.value]);
    }
    var q := Probe(h, m.img, p.key);
    if q.Some? {
      TotalUpdate(UsedSize, m.img.index, q.value.0, m.img.index[q.value.0].(dirty := false));
    }
    WipedIsEmpty(h, m.img);
  }

  // ------------------------------------------------------ disjointness --

  datatype Part = KeyPart | ValPart

  function Start(img: Image, i: nat, p: Part): nat
    requires i < |img.index|
  {
    if p.KeyPart? then img.index[i].keyOff else img.index[i].valOff
  }

  function Len(img: Image, i: nat, p: Part): nat
    requires i < |img.index|
  {
    if p.KeyPart? then img.index[i].keyLen else img.index[i].valLen
  }

  /** Two regions share no byte. */
  predicate Apart(img: Image, i: nat, p: Part, j: nat, q: Part)
    requires i < |img.index| && j < |img.index|
  {
    || Len(img, i, p) == 0 || Len(img, j, q) == 0
    || Start(img, i, p) + Len(img, i, p) <= Start(img, j, q)
    || Start(img, j, q) + Len(img, j, q) <= Start(img, i, p)
  }

  /** No arena byte belongs to two keys or values. */
  ghost predicate Disjoint(img: Image)
    requires WellSized(img)
  {
    forall i, p: Part, j, q: Part | 0 <= i < INDEX_SLOTS && 0 <= j < INDEX_SLOTS && (i, p) != (j, q)
      && InUse(img.index[i]) && InUse(img.index[j]) :: Apart(img, i, p, j, q)
  }

  /** The regions of bucket `i` are old or freshly allocated, and apart from each other; nothing else moved. */
  lemma RewriteKeepsDisjoint(h: Hash, img: Image, img': Image, i: nat)
    requires Inv(h, img) && Disjoint(img) && Rewrites(img, img', i)
    requires forall p: Part ::
               || Start(img', i, p) >= img.used
               || Len(img', i, p) == 0
               || (InUse(img.index[i]) && Start(img', i, p) == Start(img, i, p) && Len(img', i, p) == Len(img, i, p))
    requires Apart(img', i, KeyPart, i, ValPart)
    ensures Disjoint(img')
  {
    forall j, p: Part, k, q: Part | 0 <= j < INDEX_SLOTS && 0 <= k < INDEX_SLOTS && (j, p) != (k, q)
      && InUse(img'.index[j]) && InUse(img'.index[k])
      ensures Apart(img', j, p, k, q)
    {
      assert EntryOk(h, img, j) && EntryOk(h, img, k);
      if j != i && k != i {
        assert Apart(img, j, p, k, q);
      } else if j != i || k != i {
        assert InUse(img.index[j]) && InUse(img.index[k]) ==> Apart(img, j, p, k, q);
      }
    }
  }

  lemma {:induction false} ReinsertAllDisjoint(h: Hash, img: Image, ks: seq<Keep>)
    requires Inv(h, img) && Packed(img) && Disjoint(img) && Abs(img) == map[] && img.used == 0
    requires DistinctKeys(ks) && KeepSizes(ks) <= ARENA_SIZE
    requires forall k | k in ks :: k.val.None? ==> k.dirty
    ensures Disjoint(ReinsertAll(h, img, ks))
  {
    if |ks| > 0 {
      var n := |ks| - 1;
      ReinsertAllDisjoint(h, img, ks[..n]);
      ReinsertNextDisjoint(h, img, ks);
    }
  }

  lemma ReinsertNextDisjoint(h: Hash, img: Image, ks: seq<Keep>)
    requires Inv(h, img) && Packed(img) && Abs(img) == map[] && img.used == 0 && |ks| > 0
    requires DistinctKeys(ks) && KeepSizes(ks) <= ARENA_SIZE
    requires forall k | k in ks :: k.val.None? ==> k.dirty
    requires Disjoint(ReinsertAll(h, img, ks[..|ks| - 1]))
    ensures Disjoint(ReinsertAll(h, img, ks))
  {
    var n := |ks| - 1;
    ReinsertAllRebuilds(h, img, ks[..n]);
    assert forall a | 0 <= a < n :: ks[..n][a].key != ks[n].key;
    NotInMapOf(ks[..n], ks[n].key);
    ReinsertDisjoint(h, ReinsertAll(h, img, ks[..n]), ks[n]);
  }

  lemma ReinsertDisjoint(h: Hash, img: Image, k: Keep)
    requires Inv(h, img) && Packed(img) && Disjoint(img) && k.key !in Abs(img)
    requires img.used + KeepSize(k) <= ARENA_SIZE && (k.val.None? ==> k.dirty)
    ensures Disjoint(Reinsert(h, img, k))
  {
    if Probe(h, img, k.key).Some? {
      ReinsertLands(h, img, k);
      RewriteKeepsDisjoint(h, img, Reinsert(h, img, k), Probe(h, img, k.key).value.0);
    }
  }

  lemma CompactDisjoint(h: Hash, img: Image)
    requires Inv(h, img)
    ensures Disjoint(Compact(h, img))
  {
    WipedIsEmpty(h, img);
    KeptFits(h, img);
    KeepsSize(h, img, INDEX_SLOTS);
    KeepsDistinct(h, img, INDEX_SLOTS);
    ReinsertAllDisjoint(h, Wiped(img), Keeps(img, INDEX_SLOTS));
  }

  lemma PutLockedDisjoint(h: Hash, img: Image, key: Key, val: Bytes, dirty: bool)
    requires Inv(h, img) && Disjoint(img)
    requires Probe(h, img, key).Some?
    requires img.used + |key| + |val| <= ARENA_SIZE
    ensures var (i, found) := Probe(h, img, key).value;
            Disjoint(PutLocked(h, img, i, found, key, val, dirty).0)
  {
    var (i, found) := Probe(h, img, key).value;
    var a := Alloc(img, val).value;
    var img' := PutLocked(h, img, i, found, key, val, dirty).0;
    AllocGrows(img, val);
    ProbeExact(h, img, key);
    assert EntryOk(h, img, i);
    if !found {
      AllocGrows(a, key);
      assert img'.arena[..img.used] == img'.arena[..a.used][..img.used] == a.arena[..a.used][..img.used];
      assert a.arena[..img.used] == a.arena[..a.used][..img.used];
    }
    RewriteKeepsDisjoint(h, img, img', i);
  }

  /** Every operation keeps all key and value regions apart. */
  lemma OperationsKeepDisjoint(h: Hash, m: Mem, key: Key, val: Bytes, dirty: bool, p: Pending)
    requires MemOk(m) && Inv(h, m.img) && Disjoint(m.img)
    ensures Disjoint(Put(h, m, key, val, dirty).mem.img)
    ensures Disjoint(Remove(h, m, key, dirty).mem.img)
    ensures Disjoint(Retire(h, m, p).img)
    ensures Disjoint(Clear(m).img)
  {
    EnsureSpaceRefines(h, m, |key| + |val|);
    CompactDisjoint(h, m.img);
    var s := EnsureSpace(h, m, |key| + |val|);
    if s.ok && Probe(h, s.mem.img, key).Some? {
      PutLockedDisjoint(h, s.mem.img, key, val, dirty);
    }
    RemoveDisjoint(h, m, key, dirty);
    RetireDisjoint(h, m, p);
  }

  lemma RemoveDisjoint(h: Hash, m: Mem, key: Key, dirty: bool)
    requires MemOk(m) && Inv(h, m.img) && Disjoint(m.img)
    ensures Disjoint(Remove(h, m, key, dirty).mem.img)
  {
    var b := LiveBucket(h, m.img, key);
    if b.Some? {
      assert Apart(m.img, b.value, KeyPart, b.value, ValPart);
      RewriteKeepsDisjoint(h, m.img, RemoveAt(m.img, b.value, dirty), b.value);
    }
  }

  lemma RetireDisjoint(h: Hash, m: Mem, p: Pending)
    requires MemOk(m) && Inv(h, m.img) && Disjoint(m.img)
    ensures Disjoint(Retire(h, m, p).img)
  {
    ProbeExact(h, m.img, p.key);
    var q := Probe(h, m.img, p.key);
    if m.slots[SlotOf(p.hash)] == p.seen && q.Some? && q.value.1 {
      assert Apart(m.img, q.value.0, KeyPart, q.value.0, ValPart);
      RewriteKeepsDisjoint(h, m.img, Retire(h, m, p).img, q.value.0);
    }
  }
}
