/** The shared segment as the lock holder changes it: arrays and counters updated in place. */
module SharedSegment {
  import opened Layout
  import opened Index
  import opened Operations
  import opened Refinement
  import opened Compaction
  import opened MapRefinement
  import opened Accounting
  import opened Discipline
  import opened Seqlock

  class Segment {
    const h: Hash
    const index: array<Entry>
    const arena: array<byte>
    const slots: array<nat>
    var arenaSeq: nat
    var used: nat
    var garbage: nat

    /** Key bytes of the tombstones reclaimed since the arena was last rebuilt. */
    ghost var reclaimed: nat

    ghost predicate Shaped()
      reads this
    {
      index.Length == INDEX_SLOTS && arena.Length == ARENA_SIZE && slots.Length == SLOTS && used <= ARENA_SIZE
    }

    function Data(): Image
      reads this, index, arena
    {
      Image(index[..], arena[..], used, garbage)
    }

    function Memory(): Mem
      reads this, index, arena, slots
    {
      Mem(Data(), slots[..], arenaSeq)
    }

    /** Between operations: the map is represented, regions are apart, and every allocated byte is accounted for. */
    ghost predicate Valid()
      reads this, index, arena, slots
    {
      Shaped() && Inv(h, Data()) && Disjoint(Data()) && Uncounted(Data()) == reclaimed
    }

    constructor (hash: Hash)
      ensures Valid() && fresh(index) && fresh(arena) && fresh(slots)
      ensures h == hash && Memory() == FreshMem() && Abs(Data()) == map[]
    {
      h := hash;
      index := new Entry[INDEX_SLOTS](_ => EMPTY_ENTRY);
      arena := new byte[ARENA_SIZE](_ => 0);
      slots := new nat[SLOTS](_ => 0);
      arenaSeq, used, garbage := 0, 0, 0;
      reclaimed := 0;
      new;
      assert Data() == Wiped(Data());
      assert index[..] == FreshMem().img.index && arena[..] == FreshMem().img.arena && slots[..] == FreshMem().slots;
      WipedIsEmpty(hash, Data());
    }

    // -------------------------------------------------- arena and probe --

    /** Bump-allocate and copy in. */
    method ArenaAlloc(bytes: Bytes) returns (r: Option<nat>)
      requires Shaped()
      modifies this`used, arena
      ensures Shaped()
      ensures r == if Alloc(old(Data()), bytes).Some? then Some(old(used)) else None
      ensures Data() == if r.Some? then Alloc(old(Data()), bytes).value else old(Data())
    {
      if used + |bytes| > ARENA_SIZE {
        return None;
      }
      ghost var was := arena[..];
      forall n | 0 <= n < |bytes| {
        arena[used + n] := bytes[n];
      }
      assert arena[..] == Blit(was, used, bytes);
      r := Some(used);
      used := used + |bytes|;
    }

    method ProbeFor(key: Key) returns (r: Option<(nat, bool)>)
      requires Shaped()
      ensures r == Probe(h, Data(), key)
    {
      var hash := h(key);
      var free: Option<nat> := None;
      var j := 0;
      while j < MAX_PROBES
        invariant 0 <= j <= MAX_PROBES
        invariant free.Some? ==> free.value < INDEX_SLOTS
        invariant ProbeFrom(h, Data(), key, j, free) == Probe(h, Data(), key)
      {
        var i := Bucket(hash, j);
        var e := index[i];
        assert Data().index[i] == e;
        if e.status == Empty {
          return Some((if free.Some? then free.value else i, false));
        }
        if e.hash == hash && ArenaEq(arena[..], e.keyOff, e.keyLen, key) {
          return Some((i, true));
        }
        if e.status == Tomb && free.None? && !e.dirty {
          free := Some(i);
        }
        j := j + 1;
      }
      return if free.Some? then Some((free.value, false)) else None;
    }

    /** A read during which nobody writes. */
    method ReadValue(key: Key) returns (r: Read)
      requires Shaped()
      ensures Odd(slots[SlotOf(h(key))]) || Odd(arenaSeq) ==> r == Torn
      ensures !Odd(slots[SlotOf(h(key))]) && !Odd(arenaSeq) && RawInv(Data()) ==> r == AsRead(Lookup(h, Data(), key))
    {
      var x := SlotOf(h(key));
      var s1 := slots[x];
      var a1 := arenaSeq;
      if Odd(s1) || Odd(a1) {
        return Torn;
      }
      var p := ProbeFor(key);
      r := Absent;
      if p.Some? && p.value.1 {
        var e := index[p.value.0];
        assert RawInv(Data()) ==> RawEntry(Data(), p.value.0);
        if e.status == Live {
          var v := ArenaSlice(arena[..], e.valOff, e.valLen);
          if v.None? {
            assert RawInv(Data()) ==> InUse(Data().index[p.value.0]);
            return Torn;
          }
          r := Value(v.value);
        }
      }
      var s2 := slots[x];
      var a2 := arenaSeq;
      if s1 != s2 || a1 != a2 {
        return Torn;
      }
    }

    // ----------------------------------------------------------- counters --

    method SeqBegin(x: nat)
      requires Shaped() && x < SLOTS
      modifies slots
      ensures slots[..] == old(slots[..])[x := NextOdd(old(slots[x]))]
    {
      slots[x] := NextOdd(slots[x]);
    }

    method SeqEnd(x: nat)
      requires Shaped() && x < SLOTS
      modifies slots
      ensures slots[..] == old(slots[..])[x := NextEven(old(slots[x]))]
    {
      slots[x] := NextEven(slots[x]);
    }

    /** Odd counters are the residue of a dead writer: nobody else holds the lock. */
    method Repair(x: nat) returns (repaired: bool)
      requires Shaped() && x < SLOTS
      modifies this`arenaSeq, slots
      ensures Memory() == RepairSeq(old(Memory()), x)
      ensures repaired <==> Memory() != old(Memory())
      ensures old(Valid()) ==> Valid()
    {
      repaired := false;
      if Odd(slots[x]) {
        slots[x] := NextEven(slots[x]);
        repaired := true;
      }
      assert Data() == old(Data());
      if Odd(arenaSeq) {
        arenaSeq := NextEven(arenaSeq);
        repaired := true;
      }
    }

    // ---------------------------------------------------------- compaction --

    /** Copy out every entry worth keeping. */
    method CollectKeeps() returns (keeps: seq<Keep>)
      requires Shaped()
      ensures keeps == Keeps(Data(), INDEX_SLOTS)
    {
      keeps := [];
      for n := 0 to INDEX_SLOTS
        invariant keeps == Keeps(Data(), n)
      {
        var e := index[n];
        assert Data().index[n] == e;
        if e.status == Empty || CleanTomb(e) {
          continue;
        }
        var key := ArenaSlice(arena[..], e.keyOff, e.keyLen);
        if key.None? {
          continue;
        }
        var val := if e.status == Live then ArenaSlice(arena[..], e.valOff, e.valLen) else None;
        keeps := keeps + [Keep(key.value, val, e.dirty)];
      }
    }

    method Wipe()
      requires Shaped()
      modifies this`used, this`garbage, index
      ensures Shaped() && Data() == Wiped(old(Data()))
    {
      for n := 0 to INDEX_SLOTS
        invariant forall i | 0 <= i < n :: index[i] == EMPTY_ENTRY
      {
        index[n] := EMPTY_ENTRY;
      }
      used, garbage := 0, 0;
      assert index[..] == Wiped(old(Data())).index;
    }

    method ReinsertOne(k: Keep)
      requires Shaped()
      modifies this`used, index, arena
      ensures Shaped() && Data() == Reinsert(h, old(Data()), k)
    {
      var p := ProbeFor(k.key);
      if p.None? {
        return;
      }
      var i := p.value.0;
      var keyOff := ArenaAlloc(k.key);
      if keyOff.None? {
        return;
      }
      ghost var index0 := index[..];
      index[i] := index[i].(keyOff := keyOff.value, keyLen := |k.key|);
      index[i] := index[i].(hash := h(k.key));
      index[i] := index[i].(dirty := k.dirty);
      assert index[..] == index0[i := index[i]];
      match k.val {
        case Some(v) =>
          var valOff := ArenaAlloc(v);
          if valOff.None? {
            return;
          }
          index[i] := index[i].(valOff := valOff.value);
          index[i] := index[i].(valLen := |v|);
          index[i] := index[i].(status := Live);
        case None =>
          index[i] := index[i].(valOff := 0, valLen := 0);
          index[i] := index[i].(status := Tomb);
      }
      assert index[..] == index0[i := index[i]];
    }

    /** Rebuild the index and the arena, under the compaction counter. */
    method CompactNow()
      requires Shaped()
      modifies this, index, arena
      ensures Shaped() && Memory() == CompactMem(h, old(Memory())) && reclaimed == 0
    {
      var keeps := CollectKeeps();
      arenaSeq := NextOdd(arenaSeq);
      Wipe();
      ghost var wiped := Data();
      for n := 0 to |keeps|
        invariant Shaped() && Data() == ReinsertAll(h, wiped, keeps[..n])
        invariant arenaSeq == NextOdd(old(arenaSeq))
      {
        assert keeps[..n + 1][..n] == keeps[..n];
        ReinsertOne(keeps[n]);
      }
      assert keeps[..|keeps|] == keeps;
      arenaSeq := NextEven(arenaSeq);
      reclaimed := 0;
    }

    /** Make room for `need` bytes, compacting when they do not fit or garbage is worth reclaiming. */
    method Reserve(need: nat) returns (ok: bool)
      requires Shaped()
      modifies this, index, arena
      ensures Shaped() && Outcome(Memory(), ok) == EnsureSpace(h, old(Memory()), need)
      ensures reclaimed == if CompactsFor(old(Data()), need) then 0 else old(reclaimed)
    {
      if used + need <= ARENA_SIZE {
        if garbage > ARENA_SIZE / COMPACT_GARBAGE_DIVISOR {
          CompactNow();
        }
        return true;
      }
      CompactNow();
      ok := used + need <= ARENA_SIZE;
    }

    // -------------------------------------------------------------- writes --

    /** The stores made while the slot's counter is odd. */
    method WriteLocked(i: nat, found: bool, key: Key, val: Bytes, dirty: bool) returns (ok: bool)
      requires Shaped() && i < INDEX_SLOTS
      modifies this`used, this`garbage, this`reclaimed, index, arena
      ensures Shaped() && (Data(), ok) == PutLocked(h, old(Data()), i, found, key, val, dirty)
      ensures reclaimed == old(reclaimed) + if ok && !found && CleanTomb(old(index[i])) then old(index[i]).keyLen else 0
    {
      ghost var index0 := index[..];
      var valOff := ArenaAlloc(val);
      if valOff.None? {
        return false;
      }
      if found {
        if index[i].status == Live {
          garbage := garbage + index[i].valLen;
        }
      } else {
        var keyOff := ArenaAlloc(key);
        if keyOff.None? {
          return false;
        }
        if CleanTomb(index[i]) {
          reclaimed := reclaimed + index[i].keyLen;
        }
        index[i] := index[i].(keyOff := keyOff.value);
        index[i] := index[i].(keyLen := |key|);
        index[i] := index[i].(hash := h(key));
      }
      index[i] := index[i].(valLen := 0);
      index[i] := index[i].(valOff := valOff.value);
      index[i] := index[i].(valLen := |val|);
      if dirty {
        index[i] := index[i].(dirty := true);
      }
      index[i] := index[i].(status := Live);
      assert index[..] == index0[i := index[i]];
      ok := true;
    }

    /**
     * Insert or overwrite. A success is an update of the map; a failure leaves the map as it was, unless the
     * compaction it needed lost an entry.
     */
    method PutValue(key: Key, val: Bytes, dirty: bool) returns (ok: bool)
      requires Shaped()
      modifies this, index, arena, slots
      ensures Shaped() && Outcome(Memory(), ok) == Put(h, old(Memory()), key, val, dirty)
      ensures old(Valid()) ==>
                && Valid()
                && ((PutCompacts(h, old(Memory()), key, val) ==> Lossless(h, old(Data()))) ==>
                      Abs(Data()) == if ok then PutMap(old(Abs(Data())), key, val, dirty) else old(Abs(Data())))
    {
      ghost var m0 := Memory();
      ghost var reclaimed0 := reclaimed;
      ghost var valid := Valid();
      ok := PutRaw(key, val, dirty);
      if valid {
        PutRefines(h, m0, key, val, dirty);
        PutAccounts(h, m0, key, val, dirty);
        OperationsKeepDisjoint(h, m0, key, val, dirty, Pending(key, None, 0, 0));
        PutReclaims(h, m0, key, val, dirty);
      }
    }

    method HoldsAlready(key: Key, val: Bytes) returns (b: bool)
      requires Shaped()
      ensures b == HoldsValue(h, Data(), key, val)
    {
      var p := ProbeFor(key);
      if p.Some? && p.value.1 {
        var e := index[p.value.0];
        return e.status == Live && ArenaEq(arena[..], e.valOff, e.valLen, val);
      }
      b := false;
    }

    /** The second half of a put, with the space reserved. */
    method PutReserved(key: Key, val: Bytes, dirty: bool) returns (ok: bool)
      requires Shaped()
      modifies this`used, this`garbage, this`reclaimed, index, arena, slots
      ensures Shaped() && arenaSeq == old(arenaSeq)
      ensures var p := Probe(h, old(Data()), key);
              if p.None? then !ok && Memory() == old(Memory()) && reclaimed == old(reclaimed)
              else
                && (Data(), ok) == PutLocked(h, old(Data()), p.value.0, p.value.1, key, val, dirty)
                && slots[..] == BumpSlot(old(slots[..]), SlotOf(h(key)))
                && reclaimed == old(reclaimed)
                     + if ok && !p.value.1 && CleanTomb(old(Data()).index[p.value.0]) then old(Data()).index[p.value.0].keyLen else 0
    {
      var x := SlotOf(h(key));
      var p := ProbeFor(key);
      if p.None? {
        return false;
      }
      SeqBegin(x);
      assert Data() == old(Data());
      ok := WriteLocked(p.value.0, p.value.1, key, val, dirty);
      SeqEnd(x);
      assert slots[..] == BumpSlot(old(slots[..]), x);
    }

    method PutRaw(key: Key, val: Bytes, dirty: bool) returns (ok: bool)
      requires Shaped()
      modifies this, index, arena, slots
      ensures Shaped() && Outcome(Memory(), ok) == Put(h, old(Memory()), key, val, dirty)
      ensures reclaimed == (if PutCompacts(h, old(Memory()), key, val) then 0 else old(reclaimed))
                           + if ok then Reclaimed(h, old(Memory()), key, val) else 0
    {
      var held := HoldsAlready(key, val);
      if held {
        return true;
      }
      ok := Reserve(|key| + |val|);
      if !ok {
        return false;
      }
      ok := PutReserved(key, val, dirty);
    }

    /** Delete a live key. */
    method RemoveKey(key: Key, dirty: bool) returns (ok: bool)
      requires Shaped()
      modifies this`garbage, index, slots
      ensures Shaped() && Outcome(Memory(), ok) == Remove(h, old(Memory()), key, dirty)
      ensures old(Valid()) ==>
                var was := old(Abs(Data()));
                && Valid()
                && (ok <==> key in was && was[key].val.Some?)
                && Abs(Data()) == (if !ok then was
                                  else if dirty || was[key].dirty then was[key := Cell(None, true)]
                                  else was - {key})
    {
      ghost var m0 := Memory();
      ghost var valid := Valid();
      if valid {
        RemoveRefines(h, m0, key, dirty);
        OthersAccount(h, m0, key, dirty, Pending(key, None, 0, 0));
        OperationsKeepDisjoint(h, m0, key, [], dirty, Pending(key, None, 0, 0));
      }
      ok := RemoveRaw(key, dirty);
    }

    method RemoveRaw(key: Key, dirty: bool) returns (ok: bool)
      requires Shaped()
      modifies this`garbage, index, slots
      ensures Shaped() && Outcome(Memory(), ok) == Remove(h, old(Memory()), key, dirty)
    {
      ghost var m0 := Memory();
      var x := SlotOf(h(key));
      var p := ProbeFor(key);
      if p.None? || !p.value.1 {
        return false;
      }
      var i := p.value.0;
      if index[i].status != Live {
        return false;
      }
      SeqBegin(x);
      garbage := garbage + index[i].valLen;
      index[i] := index[i].(valLen := 0);
      if dirty {
        index[i] := index[i].(dirty := true);
      }
      index[i] := index[i].(status := Tomb);
      SeqEnd(x);
      assert index[..] == m0.img.index[i := index[i]];
      assert slots[..] == BumpSlot(m0.slots, x);
      ok := true;
    }

    /** Empty the store; every cached value everywhere is now stale. */
    method ClearAll()
      requires Shaped()
      modifies this, index, arena, slots
      ensures Shaped() && Memory() == Clear(old(Memory())) && arena[..] == old(arena[..])
      ensures Valid() && Abs(Data()) == map[]
    {
      arenaSeq := NextOdd(arenaSeq);
      Wipe();
      arenaSeq := NextEven(arenaSeq);
      ghost var slots0 := slots[..];
      for x := 0 to SLOTS
        invariant slots[..] == NextEvens(slots0[..x]) + slots0[x..]
        invariant Data() == Wiped(old(Data())) && arenaSeq == Bump(old(arenaSeq))
      {
        slots[x] := NextEven(slots[x]);
        assert slots[..] == NextEvens(slots0[..x + 1]) + slots0[x + 1..];
      }
      assert slots0[..SLOTS] == slots0 && NextEvens(slots0) + slots0[SLOTS..] == NextEvens(slots0);
      reclaimed := 0;
      WipedIsEmpty(h, old(Data()));
    }

    // --------------------------------------------- enumeration and commit --

    /** Every live key and its value. */
    method LiveEntries() returns (pairs: seq<(Key, Bytes)>)
      requires Valid()
      ensures pairs == LivePairs(Data(), INDEX_SLOTS)
      ensures forall k, v :: (k, v) in pairs <==> k in Abs(Data()) && Abs(Data())[k].val == Some(v)
      ensures forall a, b | 0 <= a < b < |pairs| :: pairs[a].0 != pairs[b].0
    {
      pairs := [];
      for n := 0 to INDEX_SLOTS
        invariant pairs == LivePairs(Data(), n)
      {
        var e := index[n];
        assert Data().index[n] == e;
        if e.status != Live {
          continue;
        }
        var key := ArenaSlice(arena[..], e.keyOff, e.keyLen);
        var val := ArenaSlice(arena[..], e.valOff, e.valLen);
        if key.None? || val.None? {
          continue;
        }
        pairs := pairs + [(key.value, val.value)];
      }
      LivePairsExact(h, Data());
    }

    /** What the disk owes: every dirty entry, and every clean one that `needsWrite` asks for. Each key once. */
    method CommitSnapshot(needsWrite: (Key, nat) -> bool) returns (out: seq<Pending>)
      requires Valid()
      ensures out == Snapshot(h, Memory(), needsWrite, INDEX_SLOTS)
      ensures forall p :: p in out <==> Owed(h, Memory(), needsWrite, p)
      ensures forall a, b | 0 <= a < b < |out| :: out[a].key != out[b].key
    {
      out := [];
      for n := 0 to INDEX_SLOTS
        invariant out == Snapshot(h, Memory(), needsWrite, n)
      {
        var e := index[n];
        assert Memory().img.index[n] == e;
        if e.status == Empty || CleanTomb(e) {
          continue;
        }
        var key := ArenaSlice(arena[..], e.keyOff, e.keyLen);
        if key.None? {
          continue;
        }
        var hash := h(key.value);
        var seen := slots[SlotOf(hash)];
        var val := None;
        if e.status == Live {
          if !e.dirty && !needsWrite(key.value, e.valLen) {
            continue;
          }
          val := ArenaSlice(arena[..], e.valOff, e.valLen);
          if val.None? {
            continue;
          }
        }
        out := out + [Pending(key.value, val, hash, seen)];
      }
      SnapshotExact(h, Memory(), needsWrite);
    }

    /** Retire the flags of entries unchanged since their snapshot. */
    method CommitWriteback(done: seq<Pending>)
      requires Shaped()
      modifies index
      ensures Shaped() && Memory() == Writeback(h, old(Memory()), done)
      ensures old(Valid()) ==> Valid()
    {
      ghost var m0 := Memory();
      ghost var valid := Valid();
      for n := 0 to |done|
        invariant Shaped() && Memory() == Writeback(h, m0, done[..n])
        invariant valid ==> Valid()
      {
        assert done[..n + 1][..n] == done[..n];
        ghost var before := Memory();
        var p := done[n];
        if valid {
          RetireRefines(h, before, p);
          OthersAccount(h, before, p.key, false, p);
          RetireDisjoint(h, before, p);
        }
        if slots[SlotOf(p.hash)] == p.seen {
          var q := ProbeFor(p.key);
          if q.Some? && q.value.1 {
            var i := q.value.0;
            index[i] := index[i].(dirty := false);
            assert index[..] == before.img.index[i := index[i]];
          }
        }
        assert Memory() == Retire(h, before, p);
      }
      assert done[..|done|] == done;
    }
  }

  /** A put that claims a tombstone succeeds, so the bytes it loses are counted when it does. */
  lemma PutReclaims(h: Hash, m: Mem, key: Key, val: Bytes, dirty: bool)
    requires MemOk(m) && Inv(h, m.img)
    ensures !Put(h, m, key, val, dirty).ok ==> Reclaimed(h, m, key, val) == 0
  {
    EnsureSpaceRefines(h, m, |key| + |val|);
    var s := EnsureSpace(h, m, |key| + |val|);
    if s.ok && Probe(h, s.mem.img, key).Some? {
      PutLockedRefines(h, s.mem.img, key, val, dirty);
    }
  }
}
