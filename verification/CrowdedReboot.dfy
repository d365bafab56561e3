/**
 * A store that does not come back: sixty-five keys that one segment holds, and a listing of their files in which
 * populating another fails. Set in the order of their buckets the keys all find one; but the key that starts at the last
 * bucket, listed first, takes it from the sixty-fourth of the others.
 */
module CrowdedReboot {
  import opened Layout
  import opened Index
  import opened Operations
  import opened Refinement
  import opened Compaction
  import opened MapRefinement
  import opened Names
  import W = WrappedChain
  import R = Reboot

  /** The key that starts at the last bucket, and then `n` of the sixty-four that start at W.FIRST. */
  function Listing(n: nat): (pairs: seq<R.Pair>)
    requires n <= MAX_PROBES
    ensures |pairs| == n + 1
  {
    [([48], [])] + seq(n, i requires 0 <= i < n => ([(64 + i) as byte], []))
  }

  lemma ListingStep(n: nat)
    requires 0 < n <= MAX_PROBES
    ensures Listing(n)[..n] == Listing(n - 1) && Listing(n)[n] == ([(63 + n) as byte], [])
    ensures R.Sizes(Listing(n)) == R.Sizes(Listing(n - 1)) + 1
  {
    assert Listing(n)[..n] == Listing(n - 1);
  }

  lemma {:induction false} ListingSizes(n: nat)
    requires n <= MAX_PROBES
    ensures R.Sizes(Listing(n)) == n + 1 && R.DistinctPairs(Listing(n))
  {
    if n == 0 {
      assert Listing(0)[..0] == [] && Listing(0)[0] == ([48], []);
    } else {
      ListingStep(n);
      ListingSizes(n - 1);
    }
  }

  predicate NoTombs(img: Image) {
    forall e | e in img.index :: e.status != Tomb
  }

  /** With no tombstones about, only a key of the map is found. */
  lemma FoundIsInMap(img: Image, key: Key)
    requires Inv(W.CrowdedHash, img) && NoTombs(img)
    ensures Probe(W.CrowdedHash, img, key).Some? && Probe(W.CrowdedHash, img, key).value.1 ==> key in Abs(img)
    ensures forall e | e in img.index :: !CleanTomb(e)
  {
    ProbeExact(W.CrowdedHash, img, key);
    if Present(img, key) {
      var i :| 0 <= i < INDEX_SLOTS && InUse(img.index[i]) && KeyAt(img, i) == key;
      assert img.index[i] in img.index;
      AbsAt(img, i);
    }
  }

  /** A new key takes the first empty bucket of its range. */
  lemma PutTakes(m: Mem, key: Key, n: nat)
    requires MemOk(m) && Inv(W.CrowdedHash, m.img) && NoTombs(m.img) && key !in Abs(m.img)
    requires m.img.garbage == 0 && m.img.used + |key| <= ARENA_SIZE && n < MAX_PROBES
    requires forall j | 0 <= j < n :: InUse(m.img.index[Bucket(W.CrowdedHash(key), j)])
    requires !InUse(m.img.index[Bucket(W.CrowdedHash(key), n)])
    ensures var r := Put(W.CrowdedHash, m, key, [], false);
            && r.ok && NoTombs(r.mem.img)
            && forall b | 0 <= b < INDEX_SLOTS ::
                 InUse(r.mem.img.index[b]) <==> InUse(m.img.index[b]) || b == Bucket(W.CrowdedHash(key), n)
  {
    var i := Bucket(W.CrowdedHash(key), n);
    FoundIsInMap(m.img, key);
    W.OfferedFirstEmpty(W.CrowdedHash, m.img, key, n);
    HoldsValueIsMap(W.CrowdedHash, m.img, key, []);
    PutLockedRefines(W.CrowdedHash, m.img, key, [], false);
    assert !CompactsFor(m.img, |key|);
    assert Put(W.CrowdedHash, m, key, [], false).mem.img == PutLocked(W.CrowdedHash, m.img, i, false, key, [], false).0;
    ClaimedIndex(m.img, i, key);
  }

  lemma ClaimedIndex(img: Image, i: nat, key: Key)
    requires WellSized(img) && i < INDEX_SLOTS && NoTombs(img) && img.used + |key| <= ARENA_SIZE
    ensures var img' := PutLocked(W.CrowdedHash, img, i, false, key, [], false).0;
            && NoTombs(img') && InUse(img'.index[i])
            && forall b | 0 <= b < INDEX_SLOTS && b != i :: img'.index[b] == img.index[b]
  {
    var img' := PutLocked(W.CrowdedHash, img, i, false, key, [], false).0;
    forall e | e in img'.index
      ensures e.status != Tomb
    {
      var b :| 0 <= b < |img'.index| && img'.index[b] == e;
      assert b != i ==> img.index[b] in img.index;
    }
  }

  /** The segment after the first `n + 1` puts of the populate. */
  ghost predicate Reached(n: nat)
    requires n < MAX_PROBES
  {
    var r := R.Populate(W.CrowdedHash, FreshMem(), Listing(n));
    r.ok && R.Filled(W.CrowdedHash, r.mem, Listing(n)) && NoTombs(r.mem.img) && W.Filled(r.mem.img, n)
  }

  lemma FirstShape(m: Mem)
    requires MemOk(m) && Inv(W.CrowdedHash, m.img) && Abs(m.img) == map[] && m.img.garbage == 0 && m.img.used == 0
    requires forall e | e in m.img.index :: e == EMPTY_ENTRY
    ensures var r := Put(W.CrowdedHash, m, [48], [], false);
            r.ok && NoTombs(r.mem.img) && W.Filled(r.mem.img, 0)
  {
    assert Bucket(W.LAST, 0) == W.LAST;
    forall b | 0 <= b < INDEX_SLOTS
      ensures !InUse(m.img.index[b])
    {
      assert m.img.index[b] in m.img.index;
    }
    PutTakes(m, [48], 0);
  }

  /** A put that lands after these pairs leaves the segment filled with one more. */
  lemma {:induction false} NextFilled(m: Mem, pairs: seq<R.Pair>)
    requires |pairs| > 0 && R.DistinctPairs(pairs) && R.Filled(W.CrowdedHash, m, pairs[..|pairs| - 1])
    requires R.Sizes(pairs) <= ARENA_SIZE
    requires Put(W.CrowdedHash, m, pairs[|pairs| - 1].0, pairs[|pairs| - 1].1, false).ok
    ensures R.Filled(W.CrowdedHash, Put(W.CrowdedHash, m, pairs[|pairs| - 1].0, pairs[|pairs| - 1].1, false).mem, pairs)
  {
    R.FilledStep(W.CrowdedHash, m, pairs);
  }

  lemma ReachedFirst()
    ensures Reached(0)
  {
    var m := FreshMem();
    R.FreshIsFilled(W.CrowdedHash);
    assert Listing(0) == [([48], [])] && Listing(0)[..0] == [];
    ListingSizes(0);
    FirstShape(m);
    NextFilled(m, Listing(0));
    assert R.Populate(W.CrowdedHash, m, []) == Outcome(m, true);
  }

  lemma NewKey(n: nat)
    requires 0 < n <= MAX_PROBES
    ensures [(63 + n) as byte] !in R.FilesMap(Listing(n - 1))
  {
    R.FilesMapKeys(Listing(n - 1), [(63 + n) as byte]);
  }

  lemma NextShape(m: Mem, n: nat)
    requires 0 < n < MAX_PROBES && R.Filled(W.CrowdedHash, m, Listing(n - 1)) && NoTombs(m.img) && W.Filled(m.img, n - 1)
    ensures var r := Put(W.CrowdedHash, m, [(63 + n) as byte], [], false);
            r.ok && NoTombs(r.mem.img) && W.Filled(r.mem.img, n)
  {
    ListingSizes(n - 1);
    NewKey(n);
    assert forall j | 0 <= j < n :: Bucket(W.FIRST, j) == W.FIRST + j;
    PutTakes(m, [(63 + n) as byte], n - 1);
  }

  lemma ReachedNext(n: nat)
    requires 0 < n < MAX_PROBES && Reached(n - 1)
    ensures Reached(n)
  {
    var before := R.Populate(W.CrowdedHash, FreshMem(), Listing(n - 1));
    ListingStep(n);
    ListingSizes(n);
    NextShape(before.mem, n);
    NextFilled(before.mem, Listing(n));
  }

  lemma {:induction false} ReachedAll(n: nat)
    requires n < MAX_PROBES
    ensures Reached(n)
  {
    if n == 0 {
      ReachedFirst();
    } else {
      ReachedAll(n - 1);
      ReachedNext(n);
    }
  }

  /** The sixty-fifth put finds every bucket of its range in use. */
  lemma LastIsRefused()
    ensures !R.Populate(W.CrowdedHash, FreshMem(), Listing(MAX_PROBES)).ok
  {
    var n := MAX_PROBES;
    var before := R.Populate(W.CrowdedHash, FreshMem(), Listing(n - 1));
    var key: Key := [(63 + n) as byte];
    ReachedAll(n - 1);
    ListingStep(n);
    ListingSizes(n - 1);
    NewKey(n);
    FoundIsInMap(before.mem.img, key);
    W.FilledRange(before.mem.img);
    W.RangeRefuses(W.CrowdedHash, before.mem.img, key);
    HoldsValueIsMap(W.CrowdedHash, before.mem.img, key, []);
    assert !CompactsFor(before.mem.img, |key|);
  }

  /**
   * A sound segment holds exactly these pairs, every key can be stored as a file, and together they are nowhere near
   * filling the arena. Yet populating a new segment from this listing of their files fails.
   */
  lemma RebootCanFail()
    ensures Inv(W.CrowdedHash, W.Crowded())
    ensures forall k, v :: (k, v) in Listing(MAX_PROBES) <==> k in Abs(W.Crowded()) && Abs(W.Crowded())[k].val == Some(v)
    ensures forall kv | kv in Listing(MAX_PROBES) :: ValidKey(kv.0)
    ensures R.Sizes(Listing(MAX_PROBES)) == MAX_PROBES + 1
    ensures R.IsListing(Files(), NamesOf(Listing(MAX_PROBES)))
    ensures R.Loaded(Files(), _ => true, NamesOf(Listing(MAX_PROBES))) == Listing(MAX_PROBES)
    ensures !R.Populate(W.CrowdedHash, FreshMem(), Listing(MAX_PROBES)).ok
  {
    W.CrowdedHasShape();
    FilesAreListed();
    ListingSizes(MAX_PROBES);
    LastIsRefused();
    forall k, v
      ensures (k, v) in Listing(MAX_PROBES) <==> k in Abs(W.Crowded()) && Abs(W.Crowded())[k].val == Some(v)
    {
      HeldExactly(k, v);
    }
    forall kv | kv in Listing(MAX_PROBES)
      ensures ValidKey(kv.0)
    {
      OneByteValid(kv.0);
    }
  }

  /** The files of the sixty-five keys. */
  function Files(): map<Name, Bytes> {
    map i | 0 <= i <= MAX_PROBES :: Listing(MAX_PROBES)[i].0 := []
  }

  function NamesOf(pairs: seq<R.Pair>): seq<Name> {
    seq(|pairs|, j requires 0 <= j < |pairs| => pairs[j].0)
  }

  lemma {:induction false} LoadedOf(files: map<Name, Bytes>, pairs: seq<R.Pair>)
    requires forall j | 0 <= j < |pairs| :: pairs[j].0 in files && files[pairs[j].0] == pairs[j].1 && Visible(pairs[j].0)
    ensures forall n | n in NamesOf(pairs) :: n in files
    ensures R.Loaded(files, _ => true, NamesOf(pairs)) == pairs
  {
    if |pairs| > 0 {
      var n := |pairs| - 1;
      LoadedOf(files, pairs[..n]);
      assert NamesOf(pairs)[..n] == NamesOf(pairs[..n]);
      assert pairs == pairs[..n] + [pairs[n]];
    }
  }

  lemma FilesAreListed()
    ensures R.IsListing(Files(), NamesOf(Listing(MAX_PROBES)))
    ensures R.Loaded(Files(), _ => true, NamesOf(Listing(MAX_PROBES))) == Listing(MAX_PROBES)
  {
    var pairs := Listing(MAX_PROBES);
    ListingSizes(MAX_PROBES);
    forall j | 0 <= j < |pairs|
      ensures pairs[j].0 in Files() && Files()[pairs[j].0] == pairs[j].1 && Visible(pairs[j].0)
    {
      OneByteValid(pairs[j].0);
    }
    LoadedOf(Files(), pairs);
    forall n
      ensures n in NamesOf(pairs) <==> n in Files()
    {
      if n in Files() {
        var i :| 0 <= i <= MAX_PROBES && pairs[i].0 == n;
        assert NamesOf(pairs)[i] == n;
      }
    }
  }

  lemma OneByteValid(key: Key)
    requires |key| == 1 && (key[0] == 48 || 64 <= key[0] < 128)
    ensures ValidKey(key)
  {
    assert key[1..] == [];
  }

  lemma HeldExactly(k: Key, v: Bytes)
    requires W.CrowdedShape(W.Crowded())
    ensures (k, v) in Listing(MAX_PROBES) <==> k in Abs(W.Crowded()) && Abs(W.Crowded())[k].val == Some(v)
  {
    CrowdedValues();
    if (k, v) in Listing(MAX_PROBES) {
      var j :| 0 <= j <= MAX_PROBES && Listing(MAX_PROBES)[j] == (k, v);
      ListedIsHeld(W.Crowded(), j);
    }
    if k in Abs(W.Crowded()) && Abs(W.Crowded())[k].val == Some(v) {
      HeldIsListed(W.Crowded(), k, v);
    }
  }

  lemma CrowdedValues()
    requires W.CrowdedShape(W.Crowded())
    ensures EmptyValues(W.Crowded())
  {
    forall i | 0 <= i < INDEX_SLOTS && Kept(W.Crowded().index[i])
      ensures CellAt(W.Crowded(), i).val == Some([])
    {
      assert W.Crowded().index[i] == W.EntryFor(i);
    }
  }

  predicate EmptyValues(img: Image)
    requires WellSized(img)
  {
    forall i | 0 <= i < INDEX_SLOTS && Kept(img.index[i]) :: CellAt(img, i).val == Some([])
  }

  lemma HeldIsListed(img: Image, k: Key, v: Bytes)
    requires W.CrowdedShape(img) && EmptyValues(img) && k in Abs(img) && Abs(img)[k].val == Some(v)
    ensures (k, v) in Listing(MAX_PROBES)
  {
    var i := AbsHas(img, k);
    assert W.Taken(i) && k == W.KeyFor(i) && v == [];
    TakenIsListed(i);
  }

  lemma TakenIsListed(i: nat)
    requires W.Taken(i) && i < INDEX_SLOTS
    ensures (W.KeyFor(i), []) in Listing(MAX_PROBES)
  {
    assert Listing(MAX_PROBES)[if i == 0 then 0 else i - W.FIRST + 1] == (W.KeyFor(i), []);
  }

  lemma ListedIsHeld(img: Image, j: nat)
    requires W.CrowdedShape(img) && EmptyValues(img) && j <= MAX_PROBES
    ensures var (k, v) := Listing(MAX_PROBES)[j]; k in Abs(img) && Abs(img)[k].val == Some(v)
  {
    var i := if j == 0 then 0 else W.FIRST + (j - 1);
    assert W.Taken(i) && KeyAt(img, i) == Listing(MAX_PROBES)[j].0;
    AbsAt(img, i);
  }
}
