/** The steps the commit protocol takes on its map are the ones the segment takes: one lemma per operation. */
module Layers {
  import opened Layout
  import opened Index
  import opened Operations
  import opened Refinement
  import opened Compaction
  import opened MapRefinement
  import opened FileSystem
  import opened CommitProtocol

  /** The segment stands for the map of the protocol's state, and has its counters. */
  ghost predicate Agrees(h: Hash, m: Mem, s: Sys) {
    MemOk(m) && Inv(h, m.img) && Abs(m.img) == s.seg && m.slots == s.slots
  }

  /**
   * A put is the protocol's set, with the same outcome, exactly when the compaction it needed, if any, re-inserted every
   * entry, other than the one a put that succeeds replaces.
   */
  lemma PutIsSet(h: Hash, m: Mem, s: Sys, key: Key, val: Bytes)
    requires Agrees(h, m, s)
    ensures |s.slots| == SLOTS
    ensures var r := Put(h, m, key, val, true);
            Agrees(h, r.mem, ActOn(h, s, Set(key, val), r.ok)) <==>
              (PutCompacts(h, m, key, val) ==> Retains(h, m.img, key, r.ok))
  {
    PutRefinesExactly(h, m, key, val, true);
    HoldsValueIsMap(h, m.img, key, val);
    if !HoldsValue(h, m.img, key, val) {
      PutMovesSlot(h, m, key, val, true);
    }
  }

  lemma PutMovesSlot(h: Hash, m: Mem, key: Key, val: Bytes, dirty: bool)
    requires MemOk(m) && Inv(h, m.img) && !HoldsValue(h, m.img, key, val)
    ensures var r := Put(h, m, key, val, dirty);
            r.mem.slots == if r.ok then BumpSlot(m.slots, SlotOf(h(key))) else m.slots
  {
    EnsureSpaceRefines(h, m, |key| + |val|);
    var s := EnsureSpace(h, m, |key| + |val|);
    if s.ok && Probe(h, s.mem.img, key).Some? {
      PutLockedRefines(h, s.mem.img, key, val, dirty);
    }
  }

  lemma RemoveIsUnset(h: Hash, m: Mem, s: Sys, key: Key, ok: bool)
    requires Agrees(h, m, s)
    ensures |s.slots| == SLOTS
    ensures Agrees(h, Remove(h, m, key, true).mem, ActOn(h, s, Unset(key), ok))
  {
    RemoveRefines(h, m, key, true);
  }

  /** The snapshot a commit takes is what the protocol says is owed. */
  lemma SnapshotIsSnap(h: Hash, m: Mem, s: Sys)
    requires Agrees(h, m, s) && |s.fs.dirs| > 0
    ensures |s.slots| == SLOTS
    ensures IsSnapshot(h, s, Snapshot(h, m, (k: Key, n: nat) => Differs(s.fs, k, n), INDEX_SLOTS))
  {
    var needsWrite := (k: Key, n: nat) => Differs(s.fs, k, n);
    SnapshotExact(h, m, needsWrite);
    forall p
      ensures Owed(h, m, needsWrite, p) <==> OwedNow(h, s, p)
    {
      if p.key in Abs(m.img) {
        var i := AbsHas(m.img, p.key);
        CellDirty(h, m.img, i);
      }
    }
  }

  lemma RetireIsRetire(h: Hash, m: Mem, s: Sys, p: Pending)
    requires Agrees(h, m, s)
    ensures |s.slots| == SLOTS
    ensures Agrees(h, Retire(h, m, p),
              s.(seg := if s.slots[SlotOf(p.hash)] == p.seen then RetireMap(s.seg, p.key) else s.seg))
  {
    RetireRefines(h, m, p);
  }

  lemma ClearIsClear(h: Hash, m: Mem, s: Sys)
    requires Agrees(h, m, s)
    ensures Agrees(h, Clear(m), s.(seg := map[], slots := NextEvens(s.slots)))
  {
    ClearRefines(h, m);
  }

  // -------------------------------------------------- commits in quiet --

  /** With nobody else about, writing back a whole snapshot settles every debt and changes no value. */
  lemma QuietCommitSettles(h: Hash, m: Mem, needsWrite: (Key, nat) -> bool)
    requires MemOk(m) && Inv(h, m.img)
    ensures var a := Abs(m.img);
            var m' := Writeback(h, m, Snapshot(h, m, needsWrite, INDEX_SLOTS));
            && Inv(h, m'.img) && m'.slots == m.slots
            && (forall k :: k in Abs(m'.img) <==> k in a && a[k].val.Some?)
            && (forall k | k in Abs(m'.img) :: Abs(m'.img)[k] == Cell(a[k].val, false))
  {
    var done := Snapshot(h, m, needsWrite, INDEX_SLOTS);
    SnapshotExact(h, m, needsWrite);
    assert AllOwed(h, m, needsWrite, done) by {
      forall j | 0 <= j < |done|
        ensures Owed(h, m, needsWrite, done[j])
      {
        assert done[j] in done;
      }
    }
    WritebackMap(h, m, needsWrite, done);
    var m' := Writeback(h, m, done);
    forall k
      ensures k in Abs(m'.img) <==> k in Abs(m.img) && Abs(m.img)[k].val.Some?
      ensures k in Abs(m'.img) ==> Abs(m'.img)[k] == Cell(Abs(m.img)[k].val, false)
    {
      if k in Abs(m.img) && Abs(m.img)[k].dirty {
        var p := Pending(k, Abs(m.img)[k].val, h(k), m.slots[SlotOf(h(k))]);
        assert Owed(h, m, needsWrite, p) && p in done;
        assert HasKey(done, k);
      }
      if k in Abs(m.img) {
        var i := AbsHas(m.img, k);
        CellDirty(h, m.img, i);
      }
    }
  }

  predicate HasKey(done: seq<Pending>, k: Key) {
    exists j | 0 <= j < |done| :: done[j].key == k
  }

  ghost predicate AllOwed(h: Hash, m: Mem, needsWrite: (Key, nat) -> bool, done: seq<Pending>)
    requires MemOk(m) && Inv(h, m.img)
  {
    forall j | 0 <= j < |done| :: Owed(h, m, needsWrite, done[j])
  }

  /** The map with the debts of the listed keys settled. */
  ghost function Settled(a: map<Key, Cell>, done: seq<Pending>): map<Key, Cell> {
    map k | k in a && !(HasKey(done, k) && a[k].val.None?) :: if HasKey(done, k) then Cell(a[k].val, false) else a[k]
  }

  lemma SettledStep(a: map<Key, Cell>, done: seq<Pending>)
    requires |done| > 0
    ensures RetireMap(Settled(a, done[..|done| - 1]), done[|done| - 1].key) == Settled(a, done)
  {
    var n := |done| - 1;
    forall k
      ensures HasKey(done, k) <==> HasKey(done[..n], k) || k == done[n].key
    {
      if HasKey(done[..n], k) {
        var j :| 0 <= j < n && done[..n][j].key == k;
        assert done[j].key == k;
      }
      if HasKey(done, k) && k != done[n].key {
        var j :| 0 <= j < |done| && done[j].key == k;
        assert done[..n][j].key == k;
      }
    }
  }

  lemma {:induction false} WritebackMap(h: Hash, m: Mem, needsWrite: (Key, nat) -> bool, done: seq<Pending>)
    requires MemOk(m) && Inv(h, m.img) && AllOwed(h, m, needsWrite, done)
    ensures var m' := Writeback(h, m, done);
            Inv(h, m'.img) && m'.slots == m.slots && Abs(m'.img) == Settled(Abs(m.img), done)
  {
    if |done| == 0 {
      assert Settled(Abs(m.img), done) == Abs(m.img);
    } else {
      var n := |done| - 1;
      assert AllOwed(h, m, needsWrite, done[..n]) by {
        assert forall j | 0 <= j < n :: done[..n][j] == done[j];
      }
      WritebackMap(h, m, needsWrite, done[..n]);
      RetireRefines(h, Writeback(h, m, done[..n]), done[n]);
      assert Owed(h, m, needsWrite, done[n]);
      SettledStep(Abs(m.img), done);
    }
  }

  // --------------------------------------------------------- no-op sets --

  /** Sets made one after another. */
  function Sets(h: Hash, m: Mem, sets: seq<(Key, Bytes)>): (r: Outcome)
    requires MemOk(m)
    ensures MemOk(r.mem)
  {
    if |sets| == 0 then Outcome(m, true)
    else
      var before := Sets(h, m, sets[..|sets| - 1]);
      var (key, val) := sets[|sets| - 1];
      var r := Put(h, before.mem, key, val, true);
      Outcome(r.mem, before.ok && r.ok)
  }

  /**
   * Sets of values already held all succeed and leave every byte, flag and counter alone, debts to the disk included.
   * If there were no debts and every file has its value's length, the next commit has nothing to write.
   */
  lemma {:induction false} HeldSetsWriteNothing(h: Hash, m: Mem, sets: seq<(Key, Bytes)>, needsWrite: (Key, nat) -> bool)
    requires MemOk(m) && Inv(h, m.img)
    requires forall j | 0 <= j < |sets| :: sets[j].0 in Abs(m.img) && Abs(m.img)[sets[j].0].val == Some(sets[j].1)
    ensures Sets(h, m, sets) == Outcome(m, true)
    ensures Snapshot(h, Sets(h, m, sets).mem, needsWrite, INDEX_SLOTS) == [] <==>
              forall k | k in Abs(m.img) :: !Abs(m.img)[k].dirty && !needsWrite(k, |Abs(m.img)[k].val.value|)
  {
    if |sets| > 0 {
      var n := |sets| - 1;
      HeldSetsWriteNothing(h, m, sets[..n], needsWrite);
      HoldsValueIsMap(h, m.img, sets[n].0, sets[n].1);
    }
    NothingOwed(h, m, needsWrite);
  }

  lemma OwedOfKey(h: Hash, m: Mem, needsWrite: (Key, nat) -> bool, k: Key)
    requires MemOk(m) && Inv(h, m.img) && k in Abs(m.img)
    ensures var c := Abs(m.img)[k];
            && (c.dirty || c.val.Some?)
            && (Owed(h, m, needsWrite, Pending(k, c.val, h(k), m.slots[SlotOf(h(k))])) <==> c.dirty || needsWrite(k, |c.val.value|))
  {
    var i := AbsHas(m.img, k);
    CellDirty(h, m.img, i);
  }

  lemma {:induction false} NothingOwed(h: Hash, m: Mem, needsWrite: (Key, nat) -> bool)
    requires MemOk(m) && Inv(h, m.img)
    ensures Snapshot(h, m, needsWrite, INDEX_SLOTS) == [] <==>
              forall k | k in Abs(m.img) :: !Abs(m.img)[k].dirty && !needsWrite(k, |Abs(m.img)[k].val.value|)
  {
    var out := Snapshot(h, m, needsWrite, INDEX_SLOTS);
    SnapshotExact(h, m, needsWrite);
    if out != [] {
      assert out[0] in out;
      OwedOfKey(h, m, needsWrite, out[0].key);
    } else {
      forall k | k in Abs(m.img)
        ensures !Abs(m.img)[k].dirty && !needsWrite(k, |Abs(m.img)[k].val.value|)
      {
        OwedOfKey(h, m, needsWrite, k);
        assert Pending(k, Abs(m.img)[k].val, h(k), m.slots[SlotOf(h(k))]) !in out;
      }
    }
  }
}
