/** The windows the coherence machine sees are the ones the segment's operations open: one lemma per operation. */
module CacheLayers {
  import opened Layout
  import opened Index
  import opened Operations
  import opened Compaction
  import opened MapRefinement
  import opened Refinement
  import opened Layers
  import C = Coherence

  /** The keys with a value, and their values. */
  ghost function LiveMap(a: map<Key, Cell>): map<Key, Bytes> {
    map k | k in a && a[k].val.Some? :: a[k].val.value
  }

  lemma LivePut(a: map<Key, Cell>, key: Key, val: Bytes, dirty: bool)
    ensures LiveMap(PutMap(a, key, val, dirty)) == LiveMap(a)[key := val]
  {
  }

  lemma LiveRemove(a: map<Key, Cell>, key: Key)
    ensures LiveMap(a[key := Cell(None, true)]) == LiveMap(a) - {key} == LiveMap(a - {key})
  {
  }

  lemma LiveRetire(a: map<Key, Cell>, key: Key)
    ensures LiveMap(RetireMap(a, key)) == LiveMap(a)
  {
  }

  /** The machine's segment is this one, and process `p` holds the writer lock with no window open. */
  ghost predicate Shows(h: Hash, m: Mem, s: C.Sys, p: C.Pid) {
    && MemOk(m) && Inv(h, m.img)
    && s.holds == LiveMap(Abs(m.img)) && s.slots == m.slots && s.work == C.Quiet(p)
  }

  /** What a lock-free read of an unchanging segment returns is what the machine says its key holds. */
  lemma HeldIsLookup(h: Hash, m: Mem, s: C.Sys, p: C.Pid, key: Key)
    requires Shows(h, m, s, p)
    ensures C.Held(s, key) == Lookup(h, m.img, key)
  {
    LookupIsAbs(h, m.img, key);
  }

  /** Open the key's window, change the key, close the window. */
  ghost predicate OneWindow(h: Hash, s: C.Sys, s': C.Sys, p: C.Pid, key: Key, val: Option<Bytes>) {
    |s.slots| == SLOTS && s.work == C.Quiet(p) &&
    var x := C.Slot(h, key);
    var s1 := C.WithSlot(s, x, NextOdd(s.slots[x])).(work := C.Window(p, x));
    var s2 := s1.(holds := if val.Some? then s1.holds[key := val.value] else s1.holds - {key});
    && C.Next(h, s, s1, C.Open(p, x)) && C.Next(h, s1, s2, C.Change(p, key, val)) && C.Next(h, s2, s', C.Close(p))
  }

  function AfterWindow(h: Hash, s: C.Sys, key: Key, val: Option<Bytes>): C.Sys
    requires |s.slots| == SLOTS
  {
    s.(holds := if val.Some? then s.holds[key := val.value] else s.holds - {key},
       slots := BumpSlot(s.slots, C.Slot(h, key)))
  }

  lemma WindowRuns(h: Hash, s: C.Sys, p: C.Pid, key: Key, val: Option<Bytes>)
    requires |s.slots| == SLOTS && s.work == C.Quiet(p)
    ensures OneWindow(h, s, AfterWindow(h, s, key, val), p, key, val)
  {
    var x := C.Slot(h, key);
    assert s.slots[x := NextOdd(s.slots[x])][x := Bump(s.slots[x])] == BumpSlot(s.slots, x);
  }

  /** Compaction re-inserts every entry with a value, but for perhaps this key's. */
  ghost predicate RetainsLive(h: Hash, img: Image, key: Key, spare: bool)
    requires Inv(h, img)
  {
    Inv(h, Compact(h, img)) && forall k | k in LiveMap(Abs(img)) && !(spare && k == key) :: k in Abs(Compact(h, img))
  }

  /**
   * A put that changes a value is one window of the machine, and any other is no step of it at all; and that is all the
   * machine could see of it exactly when the compaction it needed, if any, re-inserted every value it does not replace.
   */
  lemma PutIsWindow(h: Hash, m: Mem, s: C.Sys, p: C.Pid, key: Key, val: Bytes, dirty: bool) returns (s': C.Sys)
    requires Shows(h, m, s, p)
    ensures s' == s || OneWindow(h, s, s', p, key, Some(val))
    ensures var r := Put(h, m, key, val, dirty);
            Shows(h, r.mem, s', p) <==> (PutCompacts(h, m, key, val) ==> RetainsLive(h, m.img, key, r.ok))
  {
    s' := s;
    if !HoldsValue(h, m.img, key, val) {
      PutMovesSlot(h, m, key, val, dirty);
      PutAfterReserving(h, m, key, val, dirty);
      CompactKeepsMeaning(h, m.img);
      var b := Abs(EnsureSpace(h, m, |key| + |val|).mem.img);
      var ok := Put(h, m, key, val, dirty).ok;
      SameLive(Abs(m.img), b, key, val, ok);
      if ok {
        LivePut(b, key, val, dirty);
        s' := AfterWindow(h, s, key, Some(val));
        WindowRuns(h, s, p, key, Some(val));
      }
    }
  }

  lemma SameLive(a: map<Key, Cell>, b: map<Key, Cell>, key: Key, val: Bytes, ok: bool)
    requires forall k | k in b :: k in a && b[k] == a[k]
    ensures (if ok then LiveMap(b)[key := val] else LiveMap(b)) == (if ok then LiveMap(a)[key := val] else LiveMap(a))
            <==> forall k | k in LiveMap(a) && !(ok && k == key) :: k in b
  {
    var (a', b') := (if ok then LiveMap(a)[key := val] else LiveMap(a), if ok then LiveMap(b)[key := val] else LiveMap(b));
    if a' == b' {
      forall k | k in LiveMap(a) && !(ok && k == key)
        ensures k in b
      {
        assert k in a' && k in b';
      }
    }
  }

  lemma RemoveIsWindow(h: Hash, m: Mem, s: C.Sys, p: C.Pid, key: Key, dirty: bool) returns (s': C.Sys)
    requires Shows(h, m, s, p)
    ensures Shows(h, Remove(h, m, key, dirty).mem, s', p)
    ensures s' == s || OneWindow(h, s, s', p, key, None)
  {
    RemoveRefines(h, m, key, dirty);
    s' := s;
    if Remove(h, m, key, dirty).ok {
      LiveRemove(Abs(m.img), key);
      s' := AfterWindow(h, s, key, None);
      WindowRuns(h, s, p, key, None);
    }
  }

  /** Settling debts changes nothing the machine sees. */
  lemma RetireIsQuiet(h: Hash, m: Mem, s: C.Sys, p: C.Pid, q: Pending)
    requires Shows(h, m, s, p)
    ensures Shows(h, Retire(h, m, q), s, p)
  {
    RetireRefines(h, m, q);
    LiveRetire(Abs(m.img), q.key);
  }

  lemma RepairIsRepair(h: Hash, m: Mem, s: C.Sys, p: C.Pid, x: nat) returns (s': C.Sys)
    requires Shows(h, m, s, p) && x < SLOTS
    ensures Shows(h, RepairSeq(m, x), s', p)
    ensures s' == s || C.Next(h, s, s', C.Repair(p, x))
  {
    s' := if m.slots[x] % 2 == 1 then C.WithSlot(s, x, NextEven(s.slots[x])) else s;
  }

  /** A clear with the counters of the first `n` slots moved on. */
  function ClearedTo(s: C.Sys, p: C.Pid, n: nat): C.Sys
    requires |s.slots| == SLOTS && n <= SLOTS
  {
    s.(holds := map[], slots := NextEvens(s.slots[..n]) + s.slots[n..], work := C.Clearing(p, n))
  }

  /** A clear of the segment is the machine's clear, counter by counter. */
  lemma ClearIsClearing(h: Hash, m: Mem, s: C.Sys, p: C.Pid)
    requires Shows(h, m, s, p)
    ensures C.Next(h, s, ClearedTo(s, p, 0), C.ClearStart(p))
    ensures forall n | 0 <= n < SLOTS :: C.Next(h, ClearedTo(s, p, n), ClearedTo(s, p, n + 1), C.ClearBump(p))
    ensures C.Next(h, ClearedTo(s, p, SLOTS), ClearedTo(s, p, SLOTS).(work := C.Quiet(p)), C.ClearBump(p))
    ensures Shows(h, Clear(m), ClearedTo(s, p, SLOTS).(work := C.Quiet(p)), p)
  {
    ClearRefines(h, m);
    ClearEnds(s.slots);
    forall n | 0 <= n < SLOTS
      ensures C.Next(h, ClearedTo(s, p, n), ClearedTo(s, p, n + 1), C.ClearBump(p))
    {
      ClearBumps(h, s, p, n);
    }
  }

  lemma ClearEnds(slots: seq<nat>)
    ensures NextEvens(slots[..0]) + slots[0..] == slots
    ensures NextEvens(slots[..|slots|]) + slots[|slots|..] == NextEvens(slots)
  {
    assert slots[..|slots|] == slots;
  }

  lemma ClearBumps(h: Hash, s: C.Sys, p: C.Pid, n: nat)
    requires |s.slots| == SLOTS && n < SLOTS
    ensures C.Next(h, ClearedTo(s, p, n), ClearedTo(s, p, n + 1), C.ClearBump(p))
  {
    BumpOne(s.slots, n);
  }

  lemma BumpOne(slots: seq<nat>, n: nat)
    requires n < |slots|
    ensures var before := NextEvens(slots[..n]) + slots[n..];
            NextEvens(slots[..n + 1]) + slots[n + 1..] == before[n := NextEven(before[n])]
  {
  }
}
