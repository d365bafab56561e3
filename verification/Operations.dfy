/** What each operation on the segment computes, as functions from one state of the segment to the next. */
module Operations {
  import opened Layout
  import opened Index

  datatype Outcome = Outcome(mem: Mem, ok: bool)

  predicate MemOk(m: Mem) {
    WellSized(m.img) && |m.slots| == SLOTS
  }

  /** A segment just sized and mapped: every byte of it zero. */
  function FreshMem(): (m: Mem)
    ensures MemOk(m)
  {
    Mem(Image(seq(INDEX_SLOTS, _ => EMPTY_ENTRY), seq(ARENA_SIZE, _ => 0), 0, 0), seq(SLOTS, _ => 0), 0)
  }

  // ------------------------------------------------------- allocation --

  /** Bump-allocate `bytes`; they land at the old `used`. */
  function Alloc(img: Image, bytes: Bytes): (r: Option<Image>)
    requires WellSized(img)
    ensures r.Some? ==> WellSized(r.value) && r.value.index == img.index && r.value.garbage == img.garbage
  {
    if img.used + |bytes| > ARENA_SIZE then None
    else Some(img.(arena := Blit(img.arena, img.used, bytes), used := img.used + |bytes|))
  }

  // ------------------------------------------------------- compaction --

  /** One entry copied out before the arena is rebuilt. */
  datatype Keep = Keep(key: Key, val: Option<Bytes>, dirty: bool)

  function KeepOf(img: Image, e: Entry): (r: Option<Keep>) {
    if !Kept(e) then None
    else
      var key := ArenaSlice(img.arena, e.keyOff, e.keyLen);
      if key.None? then None
      else
        var val := if e.status == Live then ArenaSlice(img.arena, e.valOff, e.valLen) else None;
        Some(Keep(key.value, val, e.dirty))
  }

  /** The entries worth keeping among the first `n` buckets, in index order. */
  function Keeps(img: Image, n: nat): (r: seq<Keep>)
    requires n <= |img.index|
  {
    if n == 0 then []
    else
      var k := KeepOf(img, img.index[n - 1]);
      Keeps(img, n - 1) + if k.Some? then [k.value] else []
  }

  /** Index and bookkeeping wiped; the arena bytes stay where they are. */
  function Wiped(img: Image): (r: Image)
    requires WellSized(img)
    ensures WellSized(r)
  {
    img.(index := seq(INDEX_SLOTS, _ => EMPTY_ENTRY), used := 0, garbage := 0)
  }

  function Reinsert(h: Hash, img: Image, k: Keep): (r: Image)
    requires WellSized(img)
    ensures WellSized(r)
  {
    var p := Probe(h, img, k.key);
    if p.None? then img
    else
      var i := p.value.0;
      var a := Alloc(img, k.key);
      if a.None? then img
      else
        var e := img.index[i].(keyOff := img.used, keyLen := |k.key|, hash := h(k.key), dirty := k.dirty);
        if k.val.None? then
          a.value.(index := img.index[i := e.(valOff := 0, valLen := 0, status := Tomb)])
        else
          var b := Alloc(a.value, k.val.value);
          if b.None? then
            a.value.(index := img.index[i := e])
          else
            b.value.(index := img.index[i := e.(valOff := a.value.used, valLen := |k.val.value|, status := Live)])
  }

  function ReinsertAll(h: Hash, img: Image, ks: seq<Keep>): (r: Image)
    requires WellSized(img)
    ensures WellSized(r)
  {
    if |ks| == 0 then img
    else Reinsert(h, ReinsertAll(h, img, ks[..|ks| - 1]), ks[|ks| - 1])
  }

  /** The index and arena rebuilt without garbage and clean tombstones. */
  function Compact(h: Hash, img: Image): (r: Image)
    requires WellSized(img)
    ensures WellSized(r)
  {
    ReinsertAll(h, Wiped(img), Keeps(img, INDEX_SLOTS))
  }

  function CompactMem(h: Hash, m: Mem): (r: Mem)
    requires MemOk(m)
    ensures MemOk(r)
  {
    m.(img := Compact(h, m.img), arenaSeq := Bump(m.arenaSeq))
  }

  /** Whether reserving `need` bytes compacts first. */
  predicate CompactsFor(img: Image, need: nat) {
    img.used + need > ARENA_SIZE || img.garbage > ARENA_SIZE / COMPACT_GARBAGE_DIVISOR
  }

  function EnsureSpace(h: Hash, m: Mem, need: nat): (r: Outcome)
    requires MemOk(m)
    ensures MemOk(r.mem)
  {
    var m' := if CompactsFor(m.img, need) then CompactMem(h, m) else m;
    Outcome(m', m.img.used + need <= ARENA_SIZE || m'.img.used + need <= ARENA_SIZE)
  }

  // ------------------------------------------------------------ writes --

  function BumpSlot(slots: seq<nat>, x: nat): (r: seq<nat>)
    requires x < |slots|
  {
    slots[x := Bump(slots[x])]
  }

  /** The store already holds exactly this value. */
  predicate HoldsValue(h: Hash, img: Image, key: Key, val: Bytes)
    requires WellSized(img)
  {
    var p := Probe(h, img, key);
    p.Some? && p.value.1 &&
    var e := img.index[p.value.0];
    e.status == Live && ArenaEq(img.arena, e.valOff, e.valLen, val)
  }

  /** The writes made between `seq_begin` and `seq_end`, into bucket `i`. */
  function PutLocked(h: Hash, img: Image, i: nat, found: bool, key: Key, val: Bytes, dirty: bool): (r: (Image, bool))
    requires WellSized(img) && i < INDEX_SLOTS
    ensures WellSized(r.0)
  {
    var e := img.index[i];
    var a := Alloc(img, val);
    if a.None? then (img, false)
    else if found then
      var e' := e.(valOff := img.used, valLen := |val|, dirty := e.dirty || dirty, status := Live);
      (a.value.(index := img.index[i := e'], garbage := img.garbage + if e.status == Live then e.valLen else 0), true)
    else
      var b := Alloc(a.value, key);
      if b.None? then (a.value, false)
      else
        var e' := Entry(h(key), a.value.used, |key|, img.used, |val|, Live, e.dirty || dirty);
        (b.value.(index := img.index[i := e']), true)
  }

  function Put(h: Hash, m: Mem, key: Key, val: Bytes, dirty: bool): (r: Outcome)
    requires MemOk(m)
    ensures MemOk(r.mem)
  {
    if HoldsValue(h, m.img, key, val) then Outcome(m, true)
    else
      var s := EnsureSpace(h, m, |key| + |val|);
      var p := Probe(h, s.mem.img, key);
      if !s.ok || p.None? then Outcome(s.mem, false)
      else
        var r := PutLocked(h, s.mem.img, p.value.0, p.value.1, key, val, dirty);
        Outcome(s.mem.(img := r.0, slots := BumpSlot(s.mem.slots, SlotOf(h(key)))), r.1)
  }

  /** The live bucket holding `key`, if there is one. */
  function LiveBucket(h: Hash, img: Image, key: Key): (r: Option<nat>)
    requires WellSized(img)
    ensures r.Some? ==> r.value < INDEX_SLOTS
  {
    var p := Probe(h, img, key);
    if p.Some? && p.value.1 && img.index[p.value.0].status == Live then Some(p.value.0) else None
  }

  function RemoveAt(img: Image, i: nat, dirty: bool): (r: Image)
    requires WellSized(img) && i < INDEX_SLOTS
    ensures WellSized(r)
  {
    var e := img.index[i];
    img.(index := img.index[i := e.(valLen := 0, dirty := e.dirty || dirty, status := Tomb)],
         garbage := img.garbage + e.valLen)
  }

  function Remove(h: Hash, m: Mem, key: Key, dirty: bool): (r: Outcome)
    requires MemOk(m)
    ensures MemOk(r.mem)
  {
    var i := LiveBucket(h, m.img, key);
    if i.None? then Outcome(m, false)
    else Outcome(m.(img := RemoveAt(m.img, i.value, dirty), slots := BumpSlot(m.slots, SlotOf(h(key)))), true)
  }

  function NextEvens(slots: seq<nat>): (r: seq<nat>) {
    seq(|slots|, x requires 0 <= x < |slots| => NextEven(slots[x]))
  }

  /** Everything forgotten, and every counter moved on. */
  function Clear(m: Mem): (r: Mem)
    requires MemOk(m)
    ensures MemOk(r)
  {
    Mem(Wiped(m.img), NextEvens(m.slots), Bump(m.arenaSeq))
  }

  /** Odd counters of this slot and of the arena forced back to even. */
  function RepairSeq(m: Mem, x: nat): (r: Mem)
    requires MemOk(m) && x < SLOTS
    ensures MemOk(r)
  {
    m.(slots := if m.slots[x] % 2 == 1 then m.slots[x := NextEven(m.slots[x])] else m.slots,
       arenaSeq := if m.arenaSeq % 2 == 1 then NextEven(m.arenaSeq) else m.arenaSeq)
  }

  // ------------------------------------------------------------ commit --

  /** One thing the disk owes: the value to write, or `None` for a file to delete. */
  datatype Pending = Pending(key: Key, val: Option<Bytes>, hash: nat, seen: nat)

  function PendingOf(h: Hash, m: Mem, e: Entry, needsWrite: (Key, nat) -> bool): (r: Option<Pending>)
    requires MemOk(m)
  {
    if !Kept(e) then None
    else
      var key := ArenaSlice(m.img.arena, e.keyOff, e.keyLen);
      if key.None? then None
      else
        var hash := h(key.value);
        var seen := m.slots[SlotOf(hash)];
        if e.status == Tomb then Some(Pending(key.value, None, hash, seen))
        else if !e.dirty && !needsWrite(key.value, e.valLen) then None
        else
          var val := ArenaSlice(m.img.arena, e.valOff, e.valLen);
          if val.None? then None else Some(Pending(key.value, val, hash, seen))
  }

  /** What the disk owes, in index order, among the first `n` buckets. */
  function Snapshot(h: Hash, m: Mem, needsWrite: (Key, nat) -> bool, n: nat): (r: seq<Pending>)
    requires MemOk(m) && n <= INDEX_SLOTS
  {
    if n == 0 then []
    else
      var p := PendingOf(h, m, m.img.index[n - 1], needsWrite);
      Snapshot(h, m, needsWrite, n - 1) + if p.Some? then [p.value] else []
  }

  /** One dirty flag retired, unless the key's counter has moved since the snapshot. */
  function Retire(h: Hash, m: Mem, p: Pending): (r: Mem)
    requires MemOk(m)
    ensures MemOk(r)
  {
    if m.slots[SlotOf(p.hash)] != p.seen then m
    else
      var q := Probe(h, m.img, p.key);
      if q.Some? && q.value.1 then
        m.(img := m.img.(index := m.img.index[q.value.0 := m.img.index[q.value.0].(dirty := false)]))
      else m
  }

  function Writeback(h: Hash, m: Mem, done: seq<Pending>): (r: Mem)
    requires MemOk(m)
    ensures MemOk(r)
  {
    if |done| == 0 then m
    else Retire(h, Writeback(h, m, done[..|done| - 1]), done[|done| - 1])
  }

  /** Every live key and its value, in index order, among the first `n` buckets. */
  function LivePairs(img: Image, n: nat): (r: seq<(Key, Bytes)>)
    requires n <= |img.index|
  {
    if n == 0 then []
    else
      var e := img.index[n - 1];
      var key := ArenaSlice(img.arena, e.keyOff, e.keyLen);
      var val := ArenaSlice(img.arena, e.valOff, e.valLen);
      LivePairs(img, n - 1) + if e.status == Live && key.Some? && val.Some? then [(key.value, val.value)] else []
  }
}
