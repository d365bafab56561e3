/** Each operation of the lock holder as the sequence of single stores it makes to shared memory. */
module Stores {
  import opened Layout
  import opened Index
  import opened Operations

  datatype Field =
    | FHash(hash: nat)
    | FKeyOff(off: nat)
    | FKeyLen(len: nat)
    | FValOff(off: nat)
    | FValLen(len: nat)
    | FStatus(status: Status)
    | FDirty(dirty: bool)

  /** One store to shared memory, seen by every process at once. */
  datatype Store =
    | SetEntry(i: nat, f: Field)
    | SetByte(a: nat, b: byte)
    | SetUsed(n: nat)
    | SetGarbage(n: nat)
    | SetSlot(x: nat, v: nat)
    | SetArenaSeq(v: nat)

  function WithField(e: Entry, f: Field): Entry {
    match f
    case FHash(v) => e.(hash := v)
    case FKeyOff(v) => e.(keyOff := v)
    case FKeyLen(v) => e.(keyLen := v)
    case FValOff(v) => e.(valOff := v)
    case FValLen(v) => e.(valLen := v)
    case FStatus(v) => e.(status := v)
    case FDirty(v) => e.(dirty := v)
  }

  function Apply(m: Mem, s: Store): Mem {
    match s
    case SetEntry(i, f) =>
      if i < |m.img.index| then m.(img := m.img.(index := m.img.index[i := WithField(m.img.index[i], f)])) else m
    case SetByte(a, b) =>
      if a < |m.img.arena| then m.(img := m.img.(arena := m.img.arena[a := b])) else m
    case SetUsed(n) => m.(img := m.img.(used := n))
    case SetGarbage(n) => m.(img := m.img.(garbage := n))
    case SetSlot(x, v) => if x < |m.slots| then m.(slots := m.slots[x := v]) else m
    case SetArenaSeq(v) => m.(arenaSeq := v)
  }

  function ApplyAll(m: Mem, ss: seq<Store>): Mem
    decreases |ss|
  {
    if |ss| == 0 then m else ApplyAll(Apply(m, ss[0]), ss[1..])
  }

  lemma {:induction false} ApplyAllConcat(m: Mem, a: seq<Store>, b: seq<Store>)
    ensures ApplyAll(m, a + b) == ApplyAll(ApplyAll(m, a), b)
    decreases |a|
  {
    if |a| == 0 {
      assert a + b == b;
    } else {
      assert (a + b)[1..] == a[1..] + b;
      ApplyAllConcat(Apply(m, a[0]), a[1..], b);
    }
  }

  // ----------------------------------------------------------- scripts --

  /** The entry after a run of stores to its fields. */
  function WithFields(e: Entry, fs: seq<Field>): Entry
    decreases |fs|
  {
    if |fs| == 0 then e else WithFields(WithField(e, fs[0]), fs[1..])
  }

  function FieldStores(i: nat, fs: seq<Field>): seq<Store> {
    seq(|fs|, n requires 0 <= n < |fs| => SetEntry(i, fs[n]))
  }

  function ByteStores(off: nat, bytes: Bytes): seq<Store> {
    seq(|bytes|, n requires 0 <= n < |bytes| => SetByte(off + n, bytes[n]))
  }

  function AllocScript(img: Image, bytes: Bytes): seq<Store> {
    ByteStores(img.used, bytes) + [SetUsed(img.used + |bytes|)]
  }

  /** Length zeroed before the offset moves, so that no offset is ever paired with another value's length. */
  function ValueFields(off: nat, len: nat, dirty: bool): seq<Field> {
    [FValLen(0), FValOff(off), FValLen(len)] + (if dirty then [FDirty(true)] else []) + [FStatus(Live)]
  }

  function KeyFields(off: nat, len: nat, hash: nat): seq<Field> {
    [FKeyOff(off), FKeyLen(len), FHash(hash)]
  }

  /** The old value of a live entry becomes garbage. */
  function CountScript(img: Image, e: Entry): seq<Store> {
    if e.status == Live then [SetGarbage(img.garbage + e.valLen)] else []
  }

  function ClaimScript(h: Hash, i: nat, keyOff: nat, key: Key, off: nat, len: nat, dirty: bool): seq<Store> {
    FieldStores(i, KeyFields(keyOff, |key|, h(key))) + FieldStores(i, ValueFields(off, len, dirty))
  }

  function PutLockedScript(h: Hash, img: Image, i: nat, found: bool, key: Key, val: Bytes, dirty: bool): seq<Store>
    requires WellSized(img) && i < INDEX_SLOTS
  {
    var e := img.index[i];
    var a := Alloc(img, val);
    if a.None? then []
    else if found then
      AllocScript(img, val) + CountScript(img, e) + FieldStores(i, ValueFields(img.used, |val|, dirty))
    else if Alloc(a.value, key).None? then
      AllocScript(img, val)
    else
      AllocScript(img, val) + AllocScript(a.value, key) + ClaimScript(h, i, a.value.used, key, img.used, |val|, dirty)
  }

  const WIPE_FIELDS: seq<Field> :=
    [FStatus(Empty), FHash(0), FDirty(false), FKeyOff(0), FKeyLen(0), FValOff(0), FValLen(0)]

  function WipeEntries(n: nat): seq<Store> {
    if n == 0 then [] else WipeEntries(n - 1) + FieldStores(n - 1, WIPE_FIELDS)
  }

  function WipeScript(): seq<Store> {
    WipeEntries(INDEX_SLOTS) + [SetUsed(0), SetGarbage(0)]
  }

  function ReinsertKeyScript(h: Hash, img: Image, i: nat, k: Keep): seq<Store> {
    AllocScript(img, k.key) + FieldStores(i, KeyFields(img.used, |k.key|, h(k.key)) + [FDirty(k.dirty)])
  }

  function ReinsertScript(h: Hash, img: Image, k: Keep): seq<Store>
    requires WellSized(img)
  {
    var p := Probe(h, img, k.key);
    if p.None? then []
    else
      var i := p.value.0;
      var a := Alloc(img, k.key);
      if a.None? then []
      else
        var keyPart := ReinsertKeyScript(h, img, i, k);
        if k.val.None? then
          keyPart + FieldStores(i, [FValOff(0), FValLen(0), FStatus(Tomb)])
        else if Alloc(a.value, k.val.value).None? then
          keyPart
        else
          keyPart + AllocScript(a.value, k.val.value)
          + FieldStores(i, [FValOff(a.value.used), FValLen(|k.val.value|), FStatus(Live)])
  }

  function ReinsertAllScript(h: Hash, img: Image, ks: seq<Keep>): seq<Store>
    requires WellSized(img)
  {
    if |ks| == 0 then []
    else
      var n := |ks| - 1;
      ReinsertAllScript(h, img, ks[..n]) + ReinsertScript(h, ReinsertAll(h, img, ks[..n]), ks[n])
  }

  /** `body` with the compaction counter odd around it. */
  function ArenaWindow(arenaSeq: nat, body: seq<Store>): seq<Store> {
    [SetArenaSeq(NextOdd(arenaSeq))] + body + [SetArenaSeq(Bump(arenaSeq))]
  }

  function CompactScript(h: Hash, m: Mem): seq<Store>
    requires MemOk(m)
  {
    ArenaWindow(m.arenaSeq, WipeScript() + ReinsertAllScript(h, Wiped(m.img), Keeps(m.img, INDEX_SLOTS)))
  }

  function EnsureSpaceScript(h: Hash, m: Mem, need: nat): seq<Store>
    requires MemOk(m)
  {
    if CompactsFor(m.img, need) then CompactScript(h, m) else []
  }

  /** `body` with the slot's counter odd around it. */
  function Window(slots: seq<nat>, x: nat, body: seq<Store>): seq<Store>
    requires x < |slots|
  {
    [SetSlot(x, NextOdd(slots[x]))] + body + [SetSlot(x, Bump(slots[x]))]
  }

  function PutScript(h: Hash, m: Mem, key: Key, val: Bytes, dirty: bool): seq<Store>
    requires MemOk(m)
  {
    if HoldsValue(h, m.img, key, val) then []
    else
      var s := EnsureSpace(h, m, |key| + |val|);
      var p := Probe(h, s.mem.img, key);
      EnsureSpaceScript(h, m, |key| + |val|)
      + if !s.ok || p.None? then []
        else Window(m.slots, SlotOf(h(key)), PutLockedScript(h, s.mem.img, p.value.0, p.value.1, key, val, dirty))
  }

  function RemoveBody(img: Image, i: nat, dirty: bool): seq<Store>
    requires WellSized(img) && i < INDEX_SLOTS
  {
    [SetGarbage(img.garbage + img.index[i].valLen)]
    + FieldStores(i, RemoveFields(dirty))
  }

  function RemoveFields(dirty: bool): seq<Field> {
    [FValLen(0)] + (if dirty then [FDirty(true)] else []) + [FStatus(Tomb)]
  }

  function RemoveScript(h: Hash, m: Mem, key: Key, dirty: bool): seq<Store>
    requires MemOk(m)
  {
    var i := LiveBucket(h, m.img, key);
    if i.None? then [] else Window(m.slots, SlotOf(h(key)), RemoveBody(m.img, i.value, dirty))
  }

  function BumpSlots(slots: seq<nat>, n: nat): seq<Store>
    requires n <= |slots|
  {
    if n == 0 then [] else BumpSlots(slots, n - 1) + [SetSlot(n - 1, NextEven(slots[n - 1]))]
  }

  function WipeWindow(m: Mem): seq<Store>
    requires MemOk(m)
  {
    ArenaWindow(m.arenaSeq, WipeScript())
  }

  function ClearScript(m: Mem): seq<Store>
    requires MemOk(m)
  {
    WipeWindow(m) + BumpSlots(m.slots, SLOTS)
  }

  function RepairScript(m: Mem, x: nat): seq<Store>
    requires MemOk(m) && x < SLOTS
  {
    (if m.slots[x] % 2 == 1 then [SetSlot(x, NextEven(m.slots[x]))] else [])
    + (if m.arenaSeq % 2 == 1 then [SetArenaSeq(NextEven(m.arenaSeq))] else [])
  }

  function RetireScript(h: Hash, m: Mem, p: Pending): seq<Store>
    requires MemOk(m)
  {
    if m.slots[SlotOf(p.hash)] != p.seen then []
    else
      var q := Probe(h, m.img, p.key);
      if q.Some? && q.value.1 then [SetEntry(q.value.0, FDirty(false))] else []
  }

  function WritebackScript(h: Hash, m: Mem, done: seq<Pending>): seq<Store>
    requires MemOk(m)
  {
    if |done| == 0 then []
    else
      var n := |done| - 1;
      WritebackScript(h, m, done[..n]) + RetireScript(h, Writeback(h, m, done[..n]), done[n])
  }

  // ------------------------------------- scripts compute the operations --

  lemma {:induction false} ByteStoresApply(m: Mem, off: nat, bytes: Bytes)
    requires off + |bytes| <= |m.img.arena|
    ensures ApplyAll(m, ByteStores(off, bytes)) == m.(img := m.img.(arena := Blit(m.img.arena, off, bytes)))
    decreases |bytes|
  {
    if |bytes| == 0 {
      assert Blit(m.img.arena, off, bytes) == m.img.arena;
    } else {
      var m' := Apply(m, SetByte(off, bytes[0]));
      assert ByteStores(off, bytes)[1..] == ByteStores(off + 1, bytes[1..]);
      ByteStoresApply(m', off + 1, bytes[1..]);
      BlitStep(m.img.arena, off, bytes);
    }
  }

  lemma BlitStep(arena: Bytes, off: nat, bytes: Bytes)
    requires |bytes| > 0 && off + |bytes| <= |arena|
    ensures Blit(arena[off := bytes[0]], off + 1, bytes[1..]) == Blit(arena, off, bytes)
  {
  }

  /** Running `a` and then `b`. */
  lemma Then(m: Mem, a: seq<Store>, m1: Mem, b: seq<Store>, m2: Mem)
    requires ApplyAll(m, a) == m1 && ApplyAll(m1, b) == m2
    ensures ApplyAll(m, a + b) == m2
  {
    ApplyAllConcat(m, a, b);
  }

  lemma ThenTwice(m: Mem, a: seq<Store>, m1: Mem, b: seq<Store>, m2: Mem, c: seq<Store>, m3: Mem)
    requires ApplyAll(m, a) == m1 && ApplyAll(m1, b) == m2 && ApplyAll(m2, c) == m3
    ensures ApplyAll(m, a + b + c) == m3
  {
    Then(m, a, m1, b, m2);
    Then(m, a + b, m2, c, m3);
  }

  lemma AllocApplies(m: Mem, bytes: Bytes)
    requires WellSized(m.img) && Alloc(m.img, bytes).Some?
    ensures ApplyAll(m, AllocScript(m.img, bytes)) == m.(img := Alloc(m.img, bytes).value)
  {
    ByteStoresApply(m, m.img.used, bytes);
    ApplyAllConcat(m, ByteStores(m.img.used, bytes), [SetUsed(m.img.used + |bytes|)]);
    ApplyAllOne(ApplyAll(m, ByteStores(m.img.used, bytes)), SetUsed(m.img.used + |bytes|));
  }

  lemma ApplyAllOne(m: Mem, s: Store)
    ensures ApplyAll(m, [s]) == Apply(m, s)
  {
    assert ApplyAll(Apply(m, s), [s][1..]) == Apply(m, s);
  }

  lemma {:induction false} FieldStoresApply(m: Mem, i: nat, fs: seq<Field>)
    requires i < |m.img.index|
    ensures ApplyAll(m, FieldStores(i, fs))
            == m.(img := m.img.(index := m.img.index[i := WithFields(m.img.index[i], fs)]))
    decreases |fs|
  {
    if |fs| > 0 {
      var m' := Apply(m, SetEntry(i, fs[0]));
      assert FieldStores(i, fs)[1..] == FieldStores(i, fs[1..]);
      FieldStoresApply(m', i, fs[1..]);
    } else {
      assert m.img.index[i := m.img.index[i]] == m.img.index;
    }
  }

  lemma WithFieldsShort(e: Entry, fs: seq<Field>)
    ensures |fs| == 1 ==> WithFields(e, fs) == WithField(e, fs[0])
    ensures |fs| == 2 ==> WithFields(e, fs) == WithField(WithField(e, fs[0]), fs[1])
    ensures |fs| == 3 ==> WithFields(e, fs) == WithField(WithField(WithField(e, fs[0]), fs[1]), fs[2])
    ensures |fs| == 4 ==> WithFields(e, fs) == WithField(WithField(WithField(WithField(e, fs[0]), fs[1]), fs[2]), fs[3])
    ensures |fs| == 5 ==>
              WithFields(e, fs) == WithField(WithField(WithField(WithField(WithField(e, fs[0]), fs[1]), fs[2]), fs[3]), fs[4])
    decreases |fs|
  {
    if 1 <= |fs| <= 5 {
      WithFieldsShort(WithField(e, fs[0]), fs[1..]);
    }
  }

  lemma ValueFieldsApply(e: Entry, off: nat, len: nat, dirty: bool)
    ensures WithFields(e, ValueFields(off, len, dirty))
            == e.(valOff := off, valLen := len, dirty := e.dirty || dirty, status := Live)
  {
    WithFieldsShort(e, ValueFields(off, len, dirty));
  }

  lemma WipeFieldsApply(e: Entry)
    ensures WithFields(e, WIPE_FIELDS) == EMPTY_ENTRY
  {
    var e3 := e.(status := Empty, hash := 0, dirty := false);
    var r := WIPE_FIELDS[1..];
    var r2 := r[1..];
    assert WithFields(e, WIPE_FIELDS) == WithFields(e.(status := Empty), r);
    assert WithFields(e.(status := Empty), r) == WithFields(e.(status := Empty, hash := 0), r2);
    assert WithFields(e.(status := Empty, hash := 0), r2) == WithFields(e3, r2[1..]);
    WithFieldsShort(e3, r2[1..]);
  }

  lemma PutLockedScriptApplies(h: Hash, m: Mem, i: nat, found: bool, key: Key, val: Bytes, dirty: bool)
    requires WellSized(m.img) && i < INDEX_SLOTS
    ensures ApplyAll(m, PutLockedScript(h, m.img, i, found, key, val, dirty))
            == m.(img := PutLocked(h, m.img, i, found, key, val, dirty).0)
  {
    var a := Alloc(m.img, val);
    if a.Some? {
      AllocApplies(m, val);
      if found {
        OverwriteApplies(m, m.(img := a.value), i, val, dirty);
      } else if Alloc(a.value, key).Some? {
        var m2 := m.(img := Alloc(a.value, key).value);
        AllocApplies(m.(img := a.value), key);
        ClaimApplies(h, m2, i, a.value.used, key, m.img.used, |val|, dirty);
        ThenTwice(m, AllocScript(m.img, val), m.(img := a.value), AllocScript(a.value, key), m2,
                  ClaimScript(h, i, a.value.used, key, m.img.used, |val|, dirty),
                  m.(img := PutLocked(h, m.img, i, found, key, val, dirty).0));
      }
    }
  }

  function Overwritten(img: Image, i: nat, off: nat, len: nat, dirty: bool): Image
    requires i < |img.index|
  {
    var e := img.index[i];
    img.(index := img.index[i := e.(valOff := off, valLen := len, dirty := e.dirty || dirty, status := Live)])
  }

  lemma ValueApplies(m: Mem, i: nat, off: nat, len: nat, dirty: bool)
    requires i < |m.img.index|
    ensures ApplyAll(m, FieldStores(i, ValueFields(off, len, dirty))) == m.(img := Overwritten(m.img, i, off, len, dirty))
  {
    FieldStoresApply(m, i, ValueFields(off, len, dirty));
    ValueFieldsApply(m.img.index[i], off, len, dirty);
  }

  lemma OverwriteApplies(m: Mem, m1: Mem, i: nat, val: Bytes, dirty: bool)
    requires WellSized(m.img) && i < INDEX_SLOTS
    requires ApplyAll(m, AllocScript(m.img, val)) == m1 && m1.img.index == m.img.index && m1.img.garbage == m.img.garbage
    ensures var e := m.img.index[i];
            ApplyAll(m, AllocScript(m.img, val) + CountScript(m.img, e) + FieldStores(i, ValueFields(m.img.used, |val|, dirty)))
            == m1.(img := Overwritten(m1.img, i, m.img.used, |val|, dirty).(
                     garbage := m.img.garbage + if e.status == Live then e.valLen else 0))
  {
    var e := m.img.index[i];
    var m2 := m1.(img := m1.img.(garbage := m.img.garbage + if e.status == Live then e.valLen else 0));
    if e.status == Live {
      ApplyAllOne(m1, SetGarbage(m.img.garbage + e.valLen));
    }
    ValueApplies(m2, i, m.img.used, |val|, dirty);
    ThenTwice(m, AllocScript(m.img, val), m1, CountScript(m.img, e), m2,
              FieldStores(i, ValueFields(m.img.used, |val|, dirty)), m2.(img := Overwritten(m2.img, i, m.img.used, |val|, dirty)));
  }

  lemma ClaimApplies(h: Hash, m: Mem, i: nat, keyOff: nat, key: Key, off: nat, len: nat, dirty: bool)
    requires i < |m.img.index|
    ensures var e := m.img.index[i];
            ApplyAll(m, ClaimScript(h, i, keyOff, key, off, len, dirty))
            == m.(img := m.img.(index := m.img.index[i := Entry(h(key), keyOff, |key|, off, len, Live, e.dirty || dirty)]))
  {
    var e := m.img.index[i];
    var fs := KeyFields(keyOff, |key|, h(key));
    var m' := m.(img := m.img.(index := m.img.index[i := e.(keyOff := keyOff, keyLen := |key|, hash := h(key))]));
    WithFieldsShort(e, fs);
    FieldStoresApply(m, i, fs);
    ValueApplies(m', i, off, len, dirty);
    Then(m, FieldStores(i, fs), m', FieldStores(i, ValueFields(off, len, dirty)), m'.(img := Overwritten(m'.img, i, off, len, dirty)));
  }

  lemma {:induction false} WipeEntriesApply(m: Mem, n: nat)
    requires n <= |m.img.index|
    ensures ApplyAll(m, WipeEntries(n))
            == m.(img := m.img.(index := seq(n, _ => EMPTY_ENTRY) + m.img.index[n..]))
  {
    if n == 0 {
      assert seq(0, _ => EMPTY_ENTRY) + m.img.index[0..] == m.img.index;
    } else {
      WipeEntriesApply(m, n - 1);
      var m' := ApplyAll(m, WipeEntries(n - 1));
      ApplyAllConcat(m, WipeEntries(n - 1), FieldStores(n - 1, WIPE_FIELDS));
      FieldStoresApply(m', n - 1, WIPE_FIELDS);
      WipeFieldsApply(m'.img.index[n - 1]);
      assert m'.img.index[n - 1 := EMPTY_ENTRY] == seq(n, _ => EMPTY_ENTRY) + m.img.index[n..];
    }
  }

  lemma {:induction false} WipeApplies(m: Mem)
    requires WellSized(m.img)
    ensures ApplyAll(m, WipeScript()) == m.(img := Wiped(m.img))
  {
    WipeEntriesApply(m, INDEX_SLOTS);
    assert seq(INDEX_SLOTS, _ => EMPTY_ENTRY) + m.img.index[INDEX_SLOTS..] == seq(INDEX_SLOTS, _ => EMPTY_ENTRY);
    ApplyAllConcat(m, WipeEntries(INDEX_SLOTS), [SetUsed(0), SetGarbage(0)]);
    var m' := ApplyAll(m, WipeEntries(INDEX_SLOTS));
    assert [SetUsed(0), SetGarbage(0)][1..] == [SetGarbage(0)];
    ApplyAllOne(Apply(m', SetUsed(0)), SetGarbage(0));
  }

  lemma {:induction false} ReinsertApplies(h: Hash, m: Mem, k: Keep)
    requires WellSized(m.img)
    ensures ApplyAll(m, ReinsertScript(h, m.img, k)) == m.(img := Reinsert(h, m.img, k))
  {
    var img := m.img;
    var p := Probe(h, img, k.key);
    if p.Some? && Alloc(img, k.key).Some? {
      var i := p.value.0;
      var a := Alloc(img, k.key).value;
      var e1 := img.index[i].(keyOff := img.used, keyLen := |k.key|, hash := h(k.key), dirty := k.dirty);
      var m1 := m.(img := a.(index := img.index[i := e1]));
      ReinsertKeyApplies(h, m, i, k);
      if k.val.None? {
        ReinsertTombApplies(m, m1, i, ReinsertKeyScript(h, img, i, k));
      } else if Alloc(a, k.val.value).Some? {
        ReinsertValueApplies(h, m, m1, i, a, k.val.value, ReinsertKeyScript(h, img, i, k));
      }
    }
  }

  lemma ReinsertTombApplies(m: Mem, m1: Mem, i: nat, keyPart: seq<Store>)
    requires i < |m1.img.index| && ApplyAll(m, keyPart) == m1
    ensures var e := m1.img.index[i].(valOff := 0, valLen := 0, status := Tomb);
            ApplyAll(m, keyPart + FieldStores(i, [FValOff(0), FValLen(0), FStatus(Tomb)]))
            == m1.(img := m1.img.(index := m1.img.index[i := e]))
  {
    var tail := [FValOff(0), FValLen(0), FStatus(Tomb)];
    TailApplies(m1, i, tail);
    Then(m, keyPart, m1, FieldStores(i, tail), ApplyAll(m1, FieldStores(i, tail)));
  }

  lemma ReinsertValueApplies(h: Hash, m: Mem, m1: Mem, i: nat, a: Image, val: Bytes, keyPart: seq<Store>)
    requires WellSized(m1.img) && i < INDEX_SLOTS && m1.img.used == a.used && ApplyAll(m, keyPart) == m1
    requires Alloc(m1.img, val).Some?
    ensures var e := m1.img.index[i].(valOff := a.used, valLen := |val|, status := Live);
            ApplyAll(m, keyPart + AllocScript(a, val) + FieldStores(i, [FValOff(a.used), FValLen(|val|), FStatus(Live)]))
            == m1.(img := Alloc(m1.img, val).value.(index := m1.img.index[i := e]))
  {
    var tail := [FValOff(a.used), FValLen(|val|), FStatus(Live)];
    var m2 := m1.(img := Alloc(m1.img, val).value);
    AllocApplies(m1, val);
    TailApplies(m2, i, tail);
    ThenTwice(m, keyPart, m1, AllocScript(a, val), m2, FieldStores(i, tail), ApplyAll(m2, FieldStores(i, tail)));
  }

  lemma ReinsertKeyApplies(h: Hash, m: Mem, i: nat, k: Keep)
    requires WellSized(m.img) && i < INDEX_SLOTS && Alloc(m.img, k.key).Some?
    ensures var e1 := m.img.index[i].(keyOff := m.img.used, keyLen := |k.key|, hash := h(k.key), dirty := k.dirty);
            ApplyAll(m, ReinsertKeyScript(h, m.img, i, k))
            == m.(img := Alloc(m.img, k.key).value.(index := m.img.index[i := e1]))
  {
    var m1 := m.(img := Alloc(m.img, k.key).value);
    var fs := KeyFields(m.img.used, |k.key|, h(k.key)) + [FDirty(k.dirty)];
    AllocApplies(m, k.key);
    FieldStoresApply(m1, i, fs);
    WithFieldsShort(m.img.index[i], fs);
    ApplyAllConcat(m, AllocScript(m.img, k.key), FieldStores(i, fs));
  }

  lemma TailApplies(m: Mem, i: nat, fs: seq<Field>)
    requires i < |m.img.index| && |fs| == 3
    ensures ApplyAll(m, FieldStores(i, fs))
            == m.(img := m.img.(index := m.img.index[i := WithField(WithField(WithField(m.img.index[i], fs[0]), fs[1]), fs[2])]))
  {
    FieldStoresApply(m, i, fs);
    WithFieldsShort(m.img.index[i], fs);
  }

  lemma {:induction false} ReinsertAllApplies(h: Hash, m: Mem, ks: seq<Keep>)
    requires WellSized(m.img)
    ensures ApplyAll(m, ReinsertAllScript(h, m.img, ks)) == m.(img := ReinsertAll(h, m.img, ks))
  {
    if |ks| > 0 {
      var n := |ks| - 1;
      ReinsertAllApplies(h, m, ks[..n]);
      var m' := m.(img := ReinsertAll(h, m.img, ks[..n]));
      ApplyAllConcat(m, ReinsertAllScript(h, m.img, ks[..n]), ReinsertScript(h, m'.img, ks[n]));
      ReinsertApplies(h, m', ks[n]);
    }
  }

  lemma ApplyAllThree(m: Mem, a: Store, body: seq<Store>, b: Store)
    ensures ApplyAll(m, [a] + body + [b]) == Apply(ApplyAll(Apply(m, a), body), b)
  {
    ApplyAllConcat(m, [a] + body, [b]);
    ApplyAllConcat(m, [a], body);
    ApplyAllOne(m, a);
    ApplyAllOne(ApplyAll(Apply(m, a), body), b);
  }

  lemma ArenaWindowApplies(m: Mem, body: seq<Store>, m2: Mem)
    requires ApplyAll(m.(arenaSeq := NextOdd(m.arenaSeq)), body) == m2
    ensures ApplyAll(m, ArenaWindow(m.arenaSeq, body)) == m2.(arenaSeq := Bump(m.arenaSeq))
  {
    ApplyAllThree(m, SetArenaSeq(NextOdd(m.arenaSeq)), body, SetArenaSeq(Bump(m.arenaSeq)));
  }

  lemma CompactApplies(h: Hash, m: Mem)
    requires MemOk(m)
    ensures ApplyAll(m, CompactScript(h, m)) == CompactMem(h, m)
  {
    var m1 := m.(arenaSeq := NextOdd(m.arenaSeq));
    var ks := Keeps(m.img, INDEX_SLOTS);
    WipeApplies(m1);
    ReinsertAllApplies(h, m1.(img := Wiped(m.img)), ks);
    ApplyAllConcat(m1, WipeScript(), ReinsertAllScript(h, Wiped(m.img), ks));
    ArenaWindowApplies(m, WipeScript() + ReinsertAllScript(h, Wiped(m.img), ks), m1.(img := Compact(h, m.img)));
  }

  /** One uninterrupted put makes exactly the stores of its script. */
  lemma {:induction false} PutApplies(h: Hash, m: Mem, key: Key, val: Bytes, dirty: bool)
    requires MemOk(m)
    ensures ApplyAll(m, PutScript(h, m, key, val, dirty)) == Put(h, m, key, val, dirty).mem
  {
    if !HoldsValue(h, m.img, key, val) {
      var need := |key| + |val|;
      var s := EnsureSpace(h, m, need);
      var p := Probe(h, s.mem.img, key);
      CompactApplies(h, m);
      if s.ok && p.Some? {
        var x := SlotOf(h(key));
        var body := PutLockedScript(h, s.mem.img, p.value.0, p.value.1, key, val, dirty);
        var m1 := s.mem.(slots := s.mem.slots[x := NextOdd(s.mem.slots[x])]);
        PutLockedScriptApplies(h, m1, p.value.0, p.value.1, key, val, dirty);
        WindowApplies(s.mem, x, body, m1.(img := PutLocked(h, s.mem.img, p.value.0, p.value.1, key, val, dirty).0));
        ApplyAllConcat(m, EnsureSpaceScript(h, m, need), Window(m.slots, x, body));
      } else {
        assert PutScript(h, m, key, val, dirty) == EnsureSpaceScript(h, m, need);
      }
    }
  }

  lemma WindowApplies(m: Mem, x: nat, body: seq<Store>, m2: Mem)
    requires x < |m.slots|
    requires ApplyAll(m.(slots := m.slots[x := NextOdd(m.slots[x])]), body) == m2
    requires m2.slots == m.slots[x := NextOdd(m.slots[x])]
    ensures ApplyAll(m, Window(m.slots, x, body)) == m2.(slots := BumpSlot(m.slots, x))
  {
    ApplyAllThree(m, SetSlot(x, NextOdd(m.slots[x])), body, SetSlot(x, Bump(m.slots[x])));
  }

  lemma RemoveApplies(h: Hash, m: Mem, key: Key, dirty: bool)
    requires MemOk(m)
    ensures ApplyAll(m, RemoveScript(h, m, key, dirty)) == Remove(h, m, key, dirty).mem
  {
    var b := LiveBucket(h, m.img, key);
    if b.Some? {
      var i := b.value;
      var x := SlotOf(h(key));
      var m1 := m.(slots := m.slots[x := NextOdd(m.slots[x])]);
      RemoveBodyApplies(m1, i, dirty);
      WindowApplies(m, x, RemoveBody(m.img, i, dirty), m1.(img := RemoveAt(m.img, i, dirty)));
    }
  }

  lemma RemoveBodyApplies(m: Mem, i: nat, dirty: bool)
    requires WellSized(m.img) && i < INDEX_SLOTS
    ensures ApplyAll(m, RemoveBody(m.img, i, dirty)) == m.(img := RemoveAt(m.img, i, dirty))
  {
    var e := m.img.index[i];
    var fs := RemoveFields(dirty);
    var m1 := m.(img := m.img.(garbage := m.img.garbage + e.valLen));
    ApplyAllOne(m, SetGarbage(m.img.garbage + e.valLen));
    FieldStoresApply(m1, i, fs);
    RemoveFieldsApply(e, dirty);
    Then(m, [SetGarbage(m.img.garbage + e.valLen)], m1, FieldStores(i, fs), m.(img := RemoveAt(m.img, i, dirty)));
  }

  lemma RemoveFieldsApply(e: Entry, dirty: bool)
    ensures WithFields(e, RemoveFields(dirty)) == e.(valLen := 0, dirty := e.dirty || dirty, status := Tomb)
  {
    WithFieldsShort(e, RemoveFields(dirty));
  }

  lemma {:induction false} BumpSlotsApply(m: Mem, slots: seq<nat>, n: nat)
    requires |slots| == SLOTS && m.slots == slots && n <= SLOTS
    ensures ApplyAll(m, BumpSlots(slots, n))
            == m.(slots := NextEvens(slots[..n]) + slots[n..])
  {
    if n == 0 {
      assert NextEvens(slots[..0]) + slots[0..] == slots;
    } else {
      BumpSlotsApply(m, slots, n - 1);
      var m' := ApplyAll(m, BumpSlots(slots, n - 1));
      ApplyAllConcat(m, BumpSlots(slots, n - 1), [SetSlot(n - 1, NextEven(slots[n - 1]))]);
      ApplyAllOne(m', SetSlot(n - 1, NextEven(slots[n - 1])));
      assert m'.slots[n - 1 := NextEven(slots[n - 1])] == NextEvens(slots[..n]) + slots[n..];
    }
  }

  lemma ClearApplies(m: Mem)
    requires MemOk(m)
    ensures ApplyAll(m, ClearScript(m)) == Clear(m)
  {
    var m2 := m.(img := Wiped(m.img), arenaSeq := Bump(m.arenaSeq));
    WipeWindowApplies(m);
    BumpSlotsApply(m2, m.slots, SLOTS);
    assert m.slots[..SLOTS] == m.slots && NextEvens(m.slots) + m.slots[SLOTS..] == NextEvens(m.slots);
    Then(m, WipeWindow(m), m2, BumpSlots(m.slots, SLOTS), Clear(m));
  }

  lemma WipeWindowApplies(m: Mem)
    requires MemOk(m)
    ensures ApplyAll(m, WipeWindow(m)) == m.(img := Wiped(m.img), arenaSeq := Bump(m.arenaSeq))
  {
    var m1 := m.(arenaSeq := NextOdd(m.arenaSeq));
    WipeApplies(m1);
    ArenaWindowApplies(m, WipeScript(), m1.(img := Wiped(m.img)));
  }

  lemma RepairApplies(m: Mem, x: nat)
    requires MemOk(m) && x < SLOTS
    ensures ApplyAll(m, RepairScript(m, x)) == RepairSeq(m, x)
  {
    var a := if m.slots[x] % 2 == 1 then [SetSlot(x, NextEven(m.slots[x]))] else [];
    var b := if m.arenaSeq % 2 == 1 then [SetArenaSeq(NextEven(m.arenaSeq))] else [];
    ApplyAllConcat(m, a, b);
    if a != [] { ApplyAllOne(m, a[0]); }
    if b != [] { ApplyAllOne(ApplyAll(m, a), b[0]); }
  }

  lemma {:induction false} WritebackApplies(h: Hash, m: Mem, done: seq<Pending>)
    requires MemOk(m)
    ensures ApplyAll(m, WritebackScript(h, m, done)) == Writeback(h, m, done)
  {
    if |done| > 0 {
      var n := |done| - 1;
      WritebackApplies(h, m, done[..n]);
      var m' := Writeback(h, m, done[..n]);
      ApplyAllConcat(m, WritebackScript(h, m, done[..n]), RetireScript(h, m', done[n]));
      if RetireScript(h, m', done[n]) != [] {
        ApplyAllOne(m', RetireScript(h, m', done[n])[0]);
      }
    }
  }
}
