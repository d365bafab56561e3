/** The layout of the shared segment: constants, the index entry, the arena, and the counters. */
module Layout {

  /** Number of seqlock counters. */
  const SLOTS: nat := 4096

  /** Buckets in the open-addressed index. */
  const INDEX_SLOTS: nat := 8192

  /** Longest probe sequence before a lookup gives up. */
  const MAX_PROBES: nat := 64

  /** Bytes of key and value storage. */
  const ARENA_SIZE: nat := 1048576

  /** Compact once garbage exceeds ARENA_SIZE divided by this. */
  const COMPACT_GARBAGE_DIVISOR: nat := 4

  newtype byte = x: int | 0 <= x < 256

  type Bytes = seq<byte>
  type Key = Bytes

  /** Hash values are never zero; nothing else is assumed about the hash function. */
  type HashValue = n: nat | 0 < n witness 1
  type Hash = Key -> HashValue

  datatype Option<+T> = None | Some(value: T)

  datatype Status = Empty | Live | Tomb

  datatype Entry = Entry(
    hash: nat,
    keyOff: nat,
    keyLen: nat,
    valOff: nat,
    valLen: nat,
    status: Status,
    dirty: bool)

  const EMPTY_ENTRY := Entry(0, 0, 0, 0, 0, Empty, false)

  /** The part of the segment that holds data. */
  datatype Image = Image(index: seq<Entry>, arena: Bytes, used: nat, garbage: nat)

  /** The whole segment: the data, one seqlock counter per slot, and the compaction counter. */
  datatype Mem = Mem(img: Image, slots: seq<nat>, arenaSeq: nat)

  predicate WellSized(img: Image) {
    |img.index| == INDEX_SLOTS && |img.arena| == ARENA_SIZE && img.used <= ARENA_SIZE
  }

  function SlotOf(hash: nat): (x: nat)
    ensures x < SLOTS
  {
    hash % SLOTS
  }

  /** The next odd counter value, strictly larger. */
  function NextOdd(v: nat): (r: nat)
    ensures r % 2 == 1 && v < r <= v + 2
  {
    if v % 2 == 0 then v + 1 else v + 2
  }

  /** The next even counter value, strictly larger. */
  function NextEven(v: nat): (r: nat)
    ensures r % 2 == 0 && v < r <= v + 2
  {
    if v % 2 == 0 then v + 2 else v + 1
  }

  /** What a counter reads after one complete write window. */
  function Bump(v: nat): (r: nat)
    ensures r % 2 == 0 && v < r
  {
    NextEven(NextOdd(v))
  }

  // ------------------------------------------------------------- arena --

  /** `len` bytes at `off`, or nothing when that runs off the arena. */
  function ArenaSlice(arena: Bytes, off: nat, len: nat): (r: Option<Bytes>) {
    if off + len > |arena| then None else Some(arena[off..off + len])
  }

  predicate ArenaEq(arena: Bytes, off: nat, len: nat, want: Bytes) {
    len == |want| && off + len <= |arena| && arena[off..off + len] == want
  }

  /** The bytes of a region, for regions known to lie inside the arena. */
  function Text(arena: Bytes, off: nat, len: nat): Bytes {
    if off + len <= |arena| then arena[off..off + len] else []
  }

  /** `arena` with `bytes` copied in at `off`. */
  function Blit(arena: Bytes, off: nat, bytes: Bytes): (r: Bytes)
    requires off + |bytes| <= |arena|
    ensures |r| == |arena|
  {
    arena[..off] + bytes + arena[off + |bytes|..]
  }

  /** What lies below `used` reads the same where the two agree below `used`. */
  lemma TextFrame(a: Bytes, b: Bytes, used: nat, off: nat, len: nat)
    requires |a| == |b| && used <= |a|
    requires a[..used] == b[..used]
    requires off + len <= used
    ensures a[off..off + len] == b[off..off + len]
    ensures Text(a, off, len) == Text(b, off, len)
  {
    assert a[off..off + len] == a[..used][off..off + len];
    assert b[off..off + len] == b[..used][off..off + len];
  }
}
