/** Bringing the store up: what a new segment is filled with, when it may be used, and what survives a reboot. */
module Reboot {
  import opened Layout
  import opened Index
  import opened Operations
  import opened Refinement
  import opened Compaction
  import opened MapRefinement
  import opened SharedSegment
  import opened Names
  import opened FileSystem
  import opened CommitProtocol
  import opened CommitSafety
  import opened CommitTheorem
  import opened StorableNames
  import opened Layers

  type Pair = (Key, Bytes)

  // ----------------------------------------------------- reading files --

  /** Every name in the directory, once each, in whatever order it is listed. */
  ghost predicate IsListing(files: map<Name, Bytes>, listing: seq<Name>) {
    && (forall n :: n in listing <==> n in files)
    && (forall i, j | 0 <= i < j < |listing| :: listing[i] != listing[j])
  }

  /** The pairs read from the listed files. */
  function Loaded(files: map<Name, Bytes>, readable: Name -> bool, listing: seq<Name>): seq<Pair>
    requires forall n | n in listing :: n in files
  {
    if |listing| == 0 then []
    else
      var n := listing[|listing| - 1];
      Loaded(files, readable, listing[..|listing| - 1]) + if Visible(n) && readable(n) then [(n, files[n])] else []
  }

  predicate Sweeps(name: Name) {
    IsUtf8(name) && IsTemp(name)
  }

  /** The files once the temporary ones among the listed names have been removed. */
  function Swept(files: map<Name, Bytes>, listing: seq<Name>): map<Name, Bytes> {
    if |listing| == 0 then files
    else
      var n := listing[|listing| - 1];
      if Sweeps(n) then Swept(files, listing[..|listing| - 1]) - {n} else Swept(files, listing[..|listing| - 1])
  }

  lemma {:induction false} SweptAll(files: map<Name, Bytes>, listing: seq<Name>)
    ensures Swept(files, listing) == map n | n in files && !(n in listing && Sweeps(n)) :: files[n]
  {
    if |listing| > 0 {
      SweptAll(files, listing[..|listing| - 1]);
      assert forall m :: m in listing <==> m in listing[..|listing| - 1] || m == listing[|listing| - 1];
    }
  }

  lemma {:induction false} LoadedExactly(files: map<Name, Bytes>, readable: Name -> bool, listing: seq<Name>)
    requires forall n | n in listing :: n in files
    ensures forall n, v :: (n, v) in Loaded(files, readable, listing) <==>
              n in listing && v == files[n] && Visible(n) && readable(n)
  {
    if |listing| > 0 {
      var (before, last) := (listing[..|listing| - 1], listing[|listing| - 1]);
      LoadedExactly(files, readable, before);
      assert forall m :: m in listing <==> m in before || m == last;
    }
  }

  /** Read every file of the store; a temporary file left by a commit that was cut short is removed. */
  method LoadAll(files: map<Name, Bytes>, readable: Name -> bool, listing: seq<Name>)
    returns (pairs: seq<Pair>, left: map<Name, Bytes>)
    requires IsListing(files, listing)
    ensures pairs == Loaded(files, readable, listing)
    ensures forall n, v :: (n, v) in pairs <==>
              n in files && v == files[n] && readable(n) && IsUtf8(n) && (n == [] || n[0] != DOT)
    ensures left == map n | n in files && !Sweeps(n) :: files[n]
    ensures forall p, k | ValidKey(k) :: TempName(p, k) !in left
    ensures forall n | n in files && !(IsUtf8(n) && TMP_PREFIX <= n) :: n in left && left[n] == files[n]
  {
    pairs, left := [], files;
    for i := 0 to |listing|
      invariant pairs == Loaded(files, readable, listing[..i])
      invariant left == Swept(files, listing[..i])
    {
      var name := listing[i];
      assert listing[..i + 1][..i] == listing[..i];
      assert name in listing;
      if !IsUtf8(name) {
        continue;
      }
      if IsTemp(name) || (|name| > 0 && name[0] == DOT) {
        if IsTemp(name) {
          left := left - {name};
        }
        continue;
      }
      if !readable(name) {
        continue;
      }
      pairs := pairs + [(name, files[name])];
    }
    assert listing[..|listing|] == listing;
    SweptAll(files, listing);
    LoadedExactly(files, readable, listing);
    TempsSwept();
  }

  lemma TempsSwept()
    ensures forall p, k | ValidKey(k) :: Sweeps(TempName(p, k))
    ensures forall n | Sweeps(n) :: IsUtf8(n) && TMP_PREFIX <= n
  {
    forall p, k | ValidKey(k)
      ensures Sweeps(TempName(p, k))
    {
      TempIsText(p, k);
    }
  }

  /** The map a set of pairs stands for, owing the disk nothing. */
  function FilesMap(pairs: seq<Pair>): map<Key, Cell> {
    if |pairs| == 0 then map[]
    else FilesMap(pairs[..|pairs| - 1])[pairs[|pairs| - 1].0 := Cell(Some(pairs[|pairs| - 1].1), false)]
  }

  ghost predicate DistinctPairs(pairs: seq<Pair>) {
    forall i, j | 0 <= i < j < |pairs| :: pairs[i].0 != pairs[j].0
  }

  lemma {:induction false} LoadedListed(files: map<Name, Bytes>, readable: Name -> bool, listing: seq<Name>)
    requires forall n | n in listing :: n in files
    requires forall i, j | 0 <= i < j < |listing| :: listing[i] != listing[j]
    ensures DistinctPairs(Loaded(files, readable, listing))
    ensures forall p | p in Loaded(files, readable, listing) :: p.0 in listing
  {
    if |listing| > 0 {
      var n := |listing| - 1;
      LoadedListed(files, readable, listing[..n]);
      var before := Loaded(files, readable, listing[..n]);
      assert forall i | 0 <= i < |before| :: before[i] in before && before[i].0 in listing[..n];
    }
  }

  predicate Reads(readable: Name -> bool, name: Name) {
    Visible(name) && readable(name)
  }

  lemma {:induction false} LoadedLast(files: map<Name, Bytes>, readable: Name -> bool, listing: seq<Name>)
    requires |listing| > 0 && forall n | n in listing :: n in files
    ensures var (before, n) := (listing[..|listing| - 1], listing[|listing| - 1]);
            FilesMap(Loaded(files, readable, listing)) ==
            if Reads(readable, n) then FilesMap(Loaded(files, readable, before))[n := Cell(Some(files[n]), false)]
            else FilesMap(Loaded(files, readable, before))
  {
    var before := Loaded(files, readable, listing[..|listing| - 1]);
    var pairs := Loaded(files, readable, listing);
    if Reads(readable, listing[|listing| - 1]) {
      assert pairs[..|pairs| - 1] == before;
    } else {
      assert pairs == before;
    }
  }

  /** The pairs loaded stand for the listed files that can be read. */
  lemma {:induction false} LoadedMap(files: map<Name, Bytes>, readable: Name -> bool, listing: seq<Name>)
    requires forall n | n in listing :: n in files
    ensures FilesMap(Loaded(files, readable, listing)) ==
            map n | n in listing && Reads(readable, n) :: Cell(Some(files[n]), false)
  {
    if |listing| > 0 {
      var before := listing[..|listing| - 1];
      LoadedMap(files, readable, before);
      LoadedLast(files, readable, listing);
      assert forall m :: m in listing <==> m in before || m == listing[|listing| - 1];
    }
  }

  // -------------------------------------------------------- populating --

  function Sizes(pairs: seq<Pair>): nat {
    if |pairs| == 0 then 0
    else Sizes(pairs[..|pairs| - 1]) + |pairs[|pairs| - 1].0| + |pairs[|pairs| - 1].1|
  }

  /** Every pair put into the segment, clean; whether all of them landed. */
  function Populate(h: Hash, m: Mem, pairs: seq<Pair>): (r: Outcome)
    requires MemOk(m)
    ensures MemOk(r.mem)
  {
    if |pairs| == 0 then Outcome(m, true)
    else
      var before := Populate(h, m, pairs[..|pairs| - 1]);
      var r := Put(h, before.mem, pairs[|pairs| - 1].0, pairs[|pairs| - 1].1, false);
      Outcome(r.mem, before.ok && r.ok)
  }

  /** No compaction on the way loses an entry. */
  predicate NoneDropped(h: Hash, m: Mem, pairs: seq<Pair>)
    requires MemOk(m)
  {
    |pairs| == 0 ||
    var n := |pairs| - 1;
    var before := Populate(h, m, pairs[..n]);
    && NoneDropped(h, m, pairs[..n])
    && (PutCompacts(h, before.mem, pairs[n].0, pairs[n].1) ==> Lossless(h, before.mem.img))
  }

  /** Some pair met a probe range with no bucket to claim. */
  ghost predicate Crowded(h: Hash, m: Mem, pairs: seq<Pair>)
    requires MemOk(m)
  {
    |pairs| > 0 &&
    var n := |pairs| - 1;
    Crowded(h, m, pairs[..n]) || NoRoom(h, Populate(h, m, pairs[..n]).mem.img, pairs[n].0)
  }

  /** A segment filled with these pairs and nothing else, no byte of it garbage. */
  ghost predicate Filled(h: Hash, m: Mem, pairs: seq<Pair>) {
    && MemOk(m) && Inv(h, m.img)
    && Abs(m.img) == FilesMap(pairs)
    && m.img.garbage == 0 && m.img.used <= Sizes(pairs) && KeptBytes(m.img) == Sizes(pairs)
  }

  lemma {:induction false} FilesMapKeys(pairs: seq<Pair>, key: Key)
    requires forall i | 0 <= i < |pairs| :: pairs[i].0 != key
    ensures key !in FilesMap(pairs)
  {
    if |pairs| > 0 {
      FilesMapKeys(pairs[..|pairs| - 1], key);
    }
  }

  /** A put of a new key that needs no compaction adds its bytes and no garbage. */
  lemma PutAdds(h: Hash, m: Mem, key: Key, val: Bytes)
    requires MemOk(m) && Inv(h, m.img) && key !in Abs(m.img)
    requires !PutCompacts(h, m, key, val) && Put(h, m, key, val, false).ok
    ensures var img' := Put(h, m, key, val, false).mem.img;
            && img'.garbage == m.img.garbage && img'.used <= m.img.used + |key| + |val|
            && KeptBytes(img') == KeptBytes(m.img) + |key| + |val|
  {
    HoldsValueIsMap(h, m.img, key, val);
    ProbeExact(h, m.img, key);
    var (i, found) := Probe(h, m.img, key).value;
    var e' := Put(h, m, key, val, false).mem.img.index[i];
    if Kept(m.img.index[i]) && found {
      AbsAt(m.img, i);
    }
    if !found {
      OfferedBucket(h, m.img, key);
    } else {
      assert ArenaEq(m.img.arena, m.img.index[i].keyOff, m.img.index[i].keyLen, key) by {
        assert EntryOk(h, m.img, i);
      }
    }
    TotalUpdate(KeptSize, m.img.index, i, e');
  }

  lemma {:induction false} FilledStep(h: Hash, m: Mem, pairs: seq<Pair>)
    requires |pairs| > 0 && DistinctPairs(pairs)
    requires var n := |pairs| - 1;
             Filled(h, m, pairs[..n]) && (PutCompacts(h, m, pairs[n].0, pairs[n].1) ==> Lossless(h, m.img))
    ensures var n := |pairs| - 1;
            var r := Put(h, m, pairs[n].0, pairs[n].1, false);
            && (r.ok <==> Sizes(pairs) <= ARENA_SIZE && !NoRoom(h, m.img, pairs[n].0))
            && (r.ok ==> Filled(h, r.mem, pairs))
  {
    var n := |pairs| - 1;
    var (key, val) := pairs[n];
    assert forall i | 0 <= i < n :: pairs[..n][i].0 != key;
    FilesMapKeys(pairs[..n], key);
    HoldsValueIsMap(h, m.img, key, val);
    PutFailsExactly(h, m, key, val, false);
    PutRefines(h, m, key, val, false);
    if Sizes(pairs) <= ARENA_SIZE && Put(h, m, key, val, false).ok {
      PutAdds(h, m, key, val);
    }
  }

  lemma {:induction false} KeptNothing(es: seq<Entry>)
    requires forall i | 0 <= i < |es| :: !Kept(es[i])
    ensures Total(KeptSize, es) == 0
  {
    if |es| > 0 {
      KeptNothing(es[..|es| - 1]);
    }
  }

  lemma FreshIsFilled(h: Hash)
    ensures Filled(h, FreshMem(), [])
  {
    var img := FreshMem().img;
    assert img == Wiped(img);
    WipedIsEmpty(h, img);
    KeptNothing(img.index);
  }

  /**
   * Every put of a populate lands exactly when the files fit in the arena and each finds a bucket; and then the map is
   * exactly what the files held, with nothing owed. Files that fit never cause a compaction, so none can drop them.
   */
  lemma {:induction false} PopulateRebuilds(h: Hash, pairs: seq<Pair>)
    requires DistinctPairs(pairs)
    requires NoneDropped(h, FreshMem(), pairs) || Sizes(pairs) <= ARENA_SIZE
    ensures var r := Populate(h, FreshMem(), pairs);
            && (r.ok <==> Sizes(pairs) <= ARENA_SIZE && !Crowded(h, FreshMem(), pairs))
            && (r.ok ==> Filled(h, r.mem, pairs))
    decreases |pairs|
  {
    var m := FreshMem();
    if |pairs| == 0 {
      FreshIsFilled(h);
    } else {
      var n := |pairs| - 1;
      assert forall i | 0 <= i < n :: pairs[..n][i] == pairs[i];
      PopulateRebuilds(h, pairs[..n]);
      var before := Populate(h, m, pairs[..n]);
      if before.ok {
        FilledStep(h, before.mem, pairs);
      }
    }
  }

  /** What every file that can be read holds, clean. */
  ghost function DiskMap(files: map<Name, Bytes>, readable: Name -> bool): map<Key, Cell> {
    map n | n in files && Reads(readable, n) :: Cell(Some(files[n]), false)
  }

  lemma {:induction false} PopulateIsDisk(h: Hash, files: map<Name, Bytes>, readable: Name -> bool, listing: seq<Name>)
    requires IsListing(files, listing)
    ensures var pairs := Loaded(files, readable, listing);
            var r := Populate(h, FreshMem(), pairs);
            r.ok && (NoneDropped(h, FreshMem(), pairs) || Sizes(pairs) <= ARENA_SIZE) ==>
              Inv(h, r.mem.img) && Abs(r.mem.img) == DiskMap(files, readable)
  {
    var pairs := Loaded(files, readable, listing);
    LoadedListed(files, readable, listing);
    LoadedMap(files, readable, listing);
    if NoneDropped(h, FreshMem(), pairs) || Sizes(pairs) <= ARENA_SIZE {
      PopulateRebuilds(h, pairs);
    }
  }

  /** Put every pair into a segment; whether any failed to land. */
  method Fill(seg: Segment, pairs: seq<Pair>) returns (failed: bool)
    requires seg.Valid() && seg.Memory() == FreshMem()
    modifies seg, seg.index, seg.arena, seg.slots
    ensures seg.Valid() && Outcome(seg.Memory(), !failed) == Populate(seg.h, FreshMem(), pairs)
  {
    failed := false;
    for n := 0 to |pairs|
      invariant seg.Valid() && Outcome(seg.Memory(), !failed) == Populate(seg.h, FreshMem(), pairs[..n])
    {
      assert pairs[..n + 1][..n] == pairs[..n];
      var ok := seg.PutValue(pairs[n].0, pairs[n].1, false);
      if !ok {
        failed := true;
      }
    }
    assert pairs[..|pairs|] == pairs;
  }

  /**
   * A new segment, filled from the files. It is ready, and anybody may use it, only if every file landed; and then it
   * holds what the disk held, owing nothing, unless a compaction lost an entry of files that did not all fit.
   */
  method Create(h: Hash, files: map<Name, Bytes>, readable: Name -> bool, listing: seq<Name>, dirOk: bool)
    returns (seg: Segment, ready: bool)
    requires IsListing(files, listing)
    ensures seg.h == h && seg.Valid()
    ensures var pairs := Loaded(files, readable, listing);
            && (ready <==> dirOk && Populate(h, FreshMem(), pairs).ok)
            && (ready && (NoneDropped(h, FreshMem(), pairs) || Sizes(pairs) <= ARENA_SIZE) ==>
                  Abs(seg.Data()) == DiskMap(files, readable))
  {
    seg := new Segment(h);
    ready := false;
    if dirOk {
      var pairs, left := LoadAll(files, readable, listing);
      var failed := Fill(seg, pairs);
      ready := !failed;
      PopulateIsDisk(h, files, readable, listing);
    }
  }

  // --------------------------------------------------- what fitted fits --

  /** Each pair is held by a bucket of its own. */
  ghost predicate HeldIn(img: Image, pairs: seq<Pair>)
    requires WellSized(img)
  {
    forall j | 0 <= j < |pairs| :: HasBucket(img, pairs[j])
  }

  ghost predicate HasBucket(img: Image, kv: Pair)
    requires WellSized(img)
  {
    exists i | 0 <= i < INDEX_SLOTS :: BucketOf(img, i, kv)
  }

  predicate BucketOf(img: Image, i: nat, kv: Pair)
    requires WellSized(img) && i < INDEX_SLOTS
  {
    Kept(img.index[i]) && KeyAt(img, i) == kv.0 && KeptSize(img.index[i]) >= |kv.0| + |kv.1|
  }

  /** Emptying the bucket of the last pair leaves the others theirs. */
  lemma {:induction false} OthersKeepBuckets(img: Image, pairs: seq<Pair>, i: nat)
    requires WellSized(img) && |pairs| > 0 && DistinctPairs(pairs) && HeldIn(img, pairs)
    requires i < INDEX_SLOTS && BucketOf(img, i, pairs[|pairs| - 1])
    ensures HeldIn(img.(index := img.index[i := EMPTY_ENTRY]), pairs[..|pairs| - 1])
  {
    var n := |pairs| - 1;
    var img' := img.(index := img.index[i := EMPTY_ENTRY]);
    forall j | 0 <= j < n
      ensures HasBucket(img', pairs[..n][j])
    {
      assert HasBucket(img, pairs[j]);
      var b :| 0 <= b < INDEX_SLOTS && BucketOf(img, b, pairs[j]);
      assert pairs[j].0 != pairs[n].0;
      assert BucketOf(img', b, pairs[j]);
    }
  }

  lemma {:induction false} HeldPairsFit(img: Image, pairs: seq<Pair>)
    requires WellSized(img) && DistinctPairs(pairs) && HeldIn(img, pairs)
    ensures Sizes(pairs) <= KeptBytes(img)
    decreases |pairs|
  {
    if |pairs| > 0 {
      var n := |pairs| - 1;
      assert HasBucket(img, pairs[n]);
      var i :| 0 <= i < INDEX_SLOTS && BucketOf(img, i, pairs[n]);
      OthersKeepBuckets(img, pairs, i);
      assert forall a | 0 <= a < n :: pairs[..n][a] == pairs[a];
      HeldPairsFit(img.(index := img.index[i := EMPTY_ENTRY]), pairs[..n]);
      TotalUpdate(KeptSize, img.index, i, EMPTY_ENTRY);
    }
  }

  /** Pairs that a sound segment holds fit in the arena. */
  lemma {:induction false} LivePairsFit(h: Hash, img: Image, pairs: seq<Pair>)
    requires Inv(h, img) && DistinctPairs(pairs)
    requires forall p | p in pairs :: p.0 in Abs(img) && Abs(img)[p.0].val == Some(p.1)
    ensures Sizes(pairs) <= ARENA_SIZE
  {
    forall j | 0 <= j < |pairs|
      ensures HasBucket(img, pairs[j])
    {
      assert pairs[j] in pairs;
      var i := AbsHas(img, pairs[j].0);
      CellDirty(h, img, i);
      assert BucketOf(img, i, pairs[j]);
    }
    HeldPairsFit(img, pairs);
    KeptFits(h, img);
  }

  // --------------------------------------------------------- rebooting --

  /** The store as a commit left it: it returned true, and nothing is owed. */
  ghost predicate Committed(s: Sys, p: Pid) {
    && p in s.procs && s.procs[p].Returning? && s.procs[p].result
    && forall k :: !Dirty(s.seg, k)
  }

  /** What is left of the files is, for every storable key, what memory held. */
  lemma CommittedSurvives(h: Hash, states: seq<Sys>, steps: seq<Step>, t: nat, p: Pid, after: map<Name, Bytes>, k: Key)
    requires IsRun(h, states, steps) && t < |states| && Committed(states[t], p)
    requires Survives(states[t].fs, after) && ValidKey(k) && k !in states[t].strays
    ensures SegVal(states[t].seg, k) == if k in after then Some(after[k]) else None
    ensures k in states[t].seg ==> states[t].seg[k].val.Some? && !states[t].seg[k].dirty
  {
    RunKeeps(h, states, steps, t);
    var s := states[t];
    DurableFile(s.fs, after, k);
    assert FileOf(s.fs, k) == SegVal(s.seg, k);
    assert !Dirty(s.seg, k);
  }

  lemma StorableIsVisible(k: Key)
    requires ValidKey(k)
    ensures Visible(k)
  {
  }

  /** The map rebuilt from what is left is the committed map, for every storable key. */
  lemma DiskIsCommitted(h: Hash, states: seq<Sys>, steps: seq<Step>, t: nat, p: Pid, after: map<Name, Bytes>, k: Key)
    requires IsRun(h, states, steps) && t < |states| && Committed(states[t], p)
    requires Survives(states[t].fs, after) && ValidKey(k) && k !in states[t].strays
    ensures var disk := DiskMap(after, _ => true);
            (k in disk <==> k in states[t].seg) && (k in disk ==> disk[k] == states[t].seg[k])
  {
    CommittedSurvives(h, states, steps, t, p, after, k);
    StorableIsVisible(k);
  }

  /** The files left by a committed store fitted in the old segment, so they fit in a new one. */
  lemma {:induction false} CommittedFits(h: Hash, states: seq<Sys>, steps: seq<Step>, t: nat, p: Pid, m: Mem,
                      after: map<Name, Bytes>, listing: seq<Name>)
    requires IsRun(h, states, steps) && t < |states| && Committed(states[t], p) && Agrees(h, m, states[t])
    requires Survives(states[t].fs, after) && states[t].strays == {} && IsListing(after, listing) && AllStorable(after)
    ensures Sizes(Loaded(after, _ => true, listing)) <= ARENA_SIZE
  {
    var pairs := Loaded(after, _ => true, listing);
    LoadedListed(after, _ => true, listing);
    forall kv | kv in pairs
      ensures kv.0 in Abs(m.img) && Abs(m.img)[kv.0].val == Some(kv.1)
    {
      LoadedFrom(after, _ => true, listing, kv);
      CommittedSurvives(h, states, steps, t, p, after, kv.0);
    }
    LivePairsFit(h, m.img, pairs);
  }

  lemma {:induction false} LoadedFrom(files: map<Name, Bytes>, readable: Name -> bool, listing: seq<Name>, kv: Pair)
    requires forall n | n in listing :: n in files
    requires kv in Loaded(files, readable, listing)
    ensures kv.0 in files && Visible(kv.0) && kv.1 == files[kv.0]
  {
    var n := |listing| - 1;
    if kv in Loaded(files, readable, listing[..n]) {
      LoadedFrom(files, readable, listing[..n], kv);
    }
  }

  /** This segment holds the map of `s`, for every key that can be stored, and owes nothing. */
  ghost predicate Restores(h: Hash, s: Sys, img: Image) {
    && Inv(h, img)
    && forall k | ValidKey(k) ::
         && (k in Abs(img) <==> k in s.seg)
         && (k in Abs(img) ==> Abs(img)[k] == s.seg[k] && !Abs(img)[k].dirty)
  }

  /** Populating from what a crash leaves of a committed store, whatever the names it leaves. */
  lemma {:induction false} PopulateRestores(h: Hash, states: seq<Sys>, steps: seq<Step>, t: nat, p: Pid,
                        after: map<Name, Bytes>, listing: seq<Name>)
    requires IsRun(h, states, steps) && t < |states| && Committed(states[t], p)
    requires Survives(states[t].fs, after) && states[t].strays == {} && IsListing(after, listing)
    requires Sizes(Loaded(after, _ => true, listing)) <= ARENA_SIZE
    ensures var pairs := Loaded(after, _ => true, listing);
            var r := Populate(h, FreshMem(), pairs);
            (r.ok <==> !Crowded(h, FreshMem(), pairs)) && (r.ok ==> Restores(h, states[t], r.mem.img))
  {
    var pairs := Loaded(after, _ => true, listing);
    var r := Populate(h, FreshMem(), pairs);
    LoadedListed(after, _ => true, listing);
    PopulateRebuilds(h, pairs);
    PopulateIsDisk(h, after, _ => true, listing);
    forall k | r.ok && ValidKey(k)
      ensures k in Abs(r.mem.img) <==> k in states[t].seg
      ensures k in Abs(r.mem.img) ==> Abs(r.mem.img)[k] == states[t].seg[k] && !Abs(r.mem.img)[k].dirty
    {
      DiskIsCommitted(h, states, steps, t, p, after, k);
    }
  }

  /**
   * The reboot round trip. A commit returned true and left nothing dirty, and no file is a stray; the segment is lost, and
   * a crash leaves `after`. Populating a new segment from it, in whatever order the files are listed, rebuilds the committed map,
   * nothing owed, exactly when no key meets a full probe range on the way; and the files are certain to fit.
   */
  lemma RebootRoundTrip(h: Hash, states: seq<Sys>, steps: seq<Step>, t: nat, p: Pid, m: Mem,
                        after: map<Name, Bytes>, listing: seq<Name>)
    requires IsRun(h, states, steps) && OnlyStorable(states[0].fs)
    requires t < |states| && Committed(states[t], p) && Agrees(h, m, states[t])
    requires Survives(states[t].fs, after) && states[t].strays == {} && IsListing(after, listing)
    ensures var pairs := Loaded(after, _ => true, listing);
            var r := Populate(h, FreshMem(), pairs);
            && Sizes(pairs) <= ARENA_SIZE
            && (r.ok <==> !Crowded(h, FreshMem(), pairs))
            && (r.ok ==> Restores(h, states[t], r.mem.img))
  {
    CrashLeavesStorable(h, states, steps, t, after);
    CommittedFits(h, states, steps, t, p, m, after, listing);
    PopulateRestores(h, states, steps, t, p, after, listing);
  }
}
