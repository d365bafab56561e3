/** Packed enumeration: every live pair as a `key=value` record in the caller's buffer, and the parse that undoes it. */
module Getall {
  import opened Layout
  import opened Index
  import opened Operations
  import opened MapRefinement
  import opened SharedSegment

  const EQUALS: byte := 61

  type Pair = (Key, Bytes)

  /** The text of a record, without its terminator. */
  function Line(kv: Pair): (r: Bytes) {
    kv.0 + [EQUALS] + kv.1
  }

  function Pack(pairs: seq<Pair>): Bytes {
    if |pairs| == 0 then [] else Pack(pairs[..|pairs| - 1]) + Line(pairs[|pairs| - 1]) + [0]
  }

  /** How many of the records are emitted before one does not fit in `room` bytes with the terminator after it. */
  function Fitting(pairs: seq<Pair>, room: nat): (n: nat)
    ensures n <= |pairs|
  {
    if |pairs| == 0 then 0
    else
      var n := Fitting(pairs[..|pairs| - 1], room);
      if n == |pairs| - 1 && |Pack(pairs)| + 1 <= room then |pairs| else n
  }

  lemma {:induction false} FittingFits(pairs: seq<Pair>, room: nat)
    requires room > 0
    ensures |Pack(pairs[..Fitting(pairs, room)])| + 1 <= room
    ensures Fitting(pairs, room) < |pairs| ==> |Pack(pairs[..Fitting(pairs, room) + 1])| + 1 > room
  {
    var n := Fitting(pairs, room);
    if |pairs| > 0 {
      FittingFits(pairs[..|pairs| - 1], room);
      assert n < |pairs| ==> pairs[..|pairs| - 1][..n] == pairs[..n];
      assert n + 1 < |pairs| ==> pairs[..|pairs| - 1][..n + 1] == pairs[..n + 1];
      assert pairs[..|pairs|] == pairs;
    }
  }

  lemma {:induction false} PackGrows(pairs: seq<Pair>, n: nat)
    requires n <= |pairs|
    ensures |Pack(pairs[..n])| <= |Pack(pairs)|
  {
    if n < |pairs| {
      PackGrows(pairs[..|pairs| - 1], n);
      assert pairs[..|pairs| - 1][..n] == pairs[..n];
    } else {
      assert pairs[..n] == pairs;
    }
  }

  /** Everything is emitted exactly when the sizes of all the records, plus one, fit. */
  lemma AllFit(pairs: seq<Pair>, room: nat)
    requires room > 0
    ensures Fitting(pairs, room) == |pairs| <==> |Pack(pairs)| + 1 <= room
  {
    var n := Fitting(pairs, room);
    FittingFits(pairs, room);
    if n < |pairs| {
      PackGrows(pairs, n + 1);
    } else {
      assert pairs[..n] == pairs;
    }
  }

  // ----------------------------------------------------------- packing --

  lemma BlitTwice(b: Bytes, at: nat, x: Bytes, y: Bytes)
    requires at + |x| + |y| <= |b|
    ensures Blit(Blit(b, at, x), at + |x|, y) == Blit(b, at, x + y)
  {
    var (l, r) := (Blit(Blit(b, at, x), at + |x|, y), Blit(b, at, x + y));
    assert forall i | 0 <= i < |l| :: l[i] == r[i];
  }

  /** The buffer, the position and the overflow flag after one more record, from what they were before. */
  predicate Emits(b: Bytes, pos: nat, overflow: bool, line: Bytes, b': Bytes, pos': nat, overflow': bool) {
    if !overflow && pos + |line| + 1 <= |b| then
      !overflow' && pos' == pos + |line| && b' == Blit(b, pos, line)
    else
      overflow' && pos' == pos && b' == b
  }

  /** The first `n` records have been emitted into what was `b0`. */
  predicate Emitted(b0: Bytes, pairs: seq<Pair>, n: nat, b: Bytes, pos: nat, overflow: bool) {
    && n <= |pairs|
    && var m := Fitting(pairs[..n], |b0|);
       && pos == |Pack(pairs[..m])| < |b0|
       && (overflow <==> m < n)
       && b == Blit(b0, 0, Pack(pairs[..m]))
  }

  lemma EmittedNone(b0: Bytes, pairs: seq<Pair>)
    requires |b0| > 0
    ensures Emitted(b0, pairs, 0, b0, 0, false)
  {
    assert Blit(b0, 0, []) == b0;
  }

  lemma EmittedOne(b0: Bytes, pairs: seq<Pair>, n: nat,
                   b: Bytes, pos: nat, overflow: bool, b': Bytes, pos': nat, overflow': bool)
    requires n < |pairs| && Emitted(b0, pairs, n, b, pos, overflow)
    requires Emits(b, pos, overflow, Line(pairs[n]) + [0], b', pos', overflow')
    ensures Emitted(b0, pairs, n + 1, b', pos', overflow')
  {
    var line := Line(pairs[n]) + [0];
    assert pairs[..n + 1][..n] == pairs[..n];
    assert Pack(pairs[..n + 1]) == Pack(pairs[..n]) + line;
    if !overflow && pos + |line| + 1 <= |b| {
      BlitTwice(b0, 0, Pack(pairs[..n]), line);
    }
  }

  /** The caller's buffer, how far it has been filled, and whether a record has failed to fit. */
  class Packer {
    const buf: array<byte>
    var pos: nat
    var overflow: bool

    constructor (b: array<byte>)
      ensures buf == b && pos == 0 && !overflow
    {
      buf, pos, overflow := b, 0, false;
    }

    method Write(bytes: Bytes)
      requires pos + |bytes| <= buf.Length
      modifies this`pos, buf
      ensures pos == old(pos) + |bytes|
      ensures buf[..] == Blit(old(buf[..]), old(pos), bytes)
    {
      forall n | 0 <= n < |bytes| {
        buf[pos + n] := bytes[n];
      }
      pos := pos + |bytes|;
    }

    /** One record and its terminator, in four pieces. */
    method WriteRecord(key: Key, val: Bytes)
      requires pos + |key| + |val| + 2 <= buf.Length
      modifies this`pos, buf
      ensures pos == old(pos) + |key| + |val| + 2
      ensures buf[..] == Blit(old(buf[..]), old(pos), Line((key, val)) + [0])
    {
      ghost var b0 := buf[..];
      Write(key);
      ghost var b1 := buf[..];
      Write([EQUALS]);
      ghost var b2 := buf[..];
      Write(val);
      ghost var b3 := buf[..];
      Write([0]);
      FourWrites(b0, old(pos), key, val, b1, b2, b3);
    }

    /** Add one record, unless an earlier one did not fit or this one does not. */
    method Emit(key: Key, val: Bytes)
      requires pos < buf.Length
      modifies this, buf
      ensures pos < buf.Length
      ensures Emits(old(buf[..]), old(pos), old(overflow), Line((key, val)) + [0], buf[..], pos, overflow)
    {
      if overflow {
        return;
      }
      var need := |key| + 1 + |val| + 1;
      if pos + need + 1 > buf.Length {
        overflow := true;
        return;
      }
      WriteRecord(key, val);
    }

    /** The terminating empty string. */
    method Terminate()
      requires pos < buf.Length
      modifies buf
      ensures buf[..] == Blit(old(buf[..]), pos, [0])
    {
      var at := if pos < buf.Length - 1 then pos else buf.Length - 1;
      buf[at] := 0;
    }
  }

  lemma FourWrites(b0: Bytes, at: nat, key: Key, val: Bytes, b1: Bytes, b2: Bytes, b3: Bytes)
    requires at + |key| + |val| + 2 <= |b0|
    requires b1 == Blit(b0, at, key)
    requires b2 == Blit(b1, at + |key|, [EQUALS])
    requires b3 == Blit(b2, at + |key| + 1, val)
    ensures Blit(b3, at + |key| + 1 + |val|, [0]) == Blit(b0, at, Line((key, val)) + [0])
    ensures |Line((key, val)) + [0]| == |key| + |val| + 2
  {
    BlitTwice(b0, at, key, [EQUALS]);
    BlitTwice(b0, at, key + [EQUALS], val);
    BlitTwice(b0, at, Line((key, val)), [0]);
  }

  /** Emit every pair. */
  method EmitAll(p: Packer, pairs: seq<Pair>)
    requires p.buf.Length > 0 && p.pos == 0 && !p.overflow
    modifies p, p.buf
    ensures Emitted(old(p.buf[..]), pairs, |pairs|, p.buf[..], p.pos, p.overflow)
  {
    ghost var b0 := p.buf[..];
    EmittedNone(b0, pairs);
    for n := 0 to |pairs|
      invariant Emitted(b0, pairs, n, p.buf[..], p.pos, p.overflow)
    {
      ghost var (b, pos, overflow) := (p.buf[..], p.pos, p.overflow);
      p.Emit(pairs[n].0, pairs[n].1);
      EmittedOne(b0, pairs, n, b, pos, overflow, p.buf[..], p.pos, p.overflow);
    }
  }

  /** Emit every pair, then the terminating empty string. */
  method PackInto(pairs: seq<Pair>, buf: array<byte>) returns (ok: bool)
    requires buf.Length > 0
    modifies buf
    ensures ok <==> |Pack(pairs)| + 1 <= buf.Length
    ensures Written(pairs, old(buf[..]), buf[..])
  {
    var p := new Packer(buf);
    EmitAll(p, pairs);
    AllEmitted(old(buf[..]), pairs, buf[..], p.pos, p.overflow);
    p.Terminate();
    ok := !p.overflow;
  }

  /** As many whole records as fit, a terminator, and nothing else changed. */
  predicate Written(pairs: seq<Pair>, before: Bytes, after: Bytes) {
    var out := Pack(pairs[..Fitting(pairs, |before|)]);
    |out| + 1 <= |before| && after == Blit(before, 0, out + [0])
  }

  lemma AllEmitted(b0: Bytes, pairs: seq<Pair>, b: Bytes, pos: nat, overflow: bool)
    requires Emitted(b0, pairs, |pairs|, b, pos, overflow)
    ensures |b| == |b0| && pos < |b| && Written(pairs, b0, Blit(b, pos, [0]))
    ensures overflow <==> |Pack(pairs)| + 1 > |b0|
  {
    assert pairs[..|pairs|] == pairs;
    AllFit(pairs, |b0|);
    BlitTwice(b0, 0, Pack(pairs[..Fitting(pairs, |b0|)]), [0]);
  }

  /**
   * Enumerate the segment into `buf`: true exactly when every record and the terminator fit. What is written is whole
   * records, in index order, and a terminator; no other byte of the buffer is touched. `locked` says whether the
   * writer lock could be had.
   */
  method GetAll(seg: Segment, buf: array<byte>, locked: bool) returns (ok: bool)
    requires seg.Valid() && buf != seg.arena
    modifies buf
    ensures var pairs := LivePairs(seg.Data(), INDEX_SLOTS);
            if buf.Length == 0 || !locked then !ok && buf[..] == old(buf[..])
            else (ok <==> |Pack(pairs)| + 1 <= buf.Length) && Written(pairs, old(buf[..]), buf[..])
  {
    if buf.Length == 0 || !locked {
      return false;
    }
    var pairs := seg.LiveEntries();
    ok := PackInto(pairs, buf);
  }

  // ----------------------------------------------------------- parsing --

  /** The text up to the first NUL, or all of it. */
  function Front(s: Bytes): (r: Bytes)
    ensures |r| <= |s|
  {
    if |s| == 0 || s[0] == 0 then [] else [s[0]] + Front(s[1..])
  }

  /** The records of a packed buffer, up to the first empty one. */
  function Parse(s: Bytes): seq<Bytes>
    decreases |s|
  {
    var line := Front(s);
    if |line| == |s| || |line| == 0 then [] else [line] + Parse(s[|line| + 1..])
  }

  /** A record split at its first `=`. */
  function Split(line: Bytes): Option<Pair> {
    if |line| == 0 then None
    else if line[0] == EQUALS then Some(([], line[1..]))
    else
      var rest := Split(line[1..]);
      if rest.None? then None else Some(([line[0]] + rest.value.0, rest.value.1))
  }

  predicate NulFree(pairs: seq<Pair>) {
    forall j | 0 <= j < |pairs| :: 0 !in pairs[j].0 && 0 !in pairs[j].1
  }

  function Lines(pairs: seq<Pair>): seq<Bytes> {
    seq(|pairs|, j requires 0 <= j < |pairs| => Line(pairs[j]))
  }

  lemma {:induction false} FrontOf(line: Bytes, rest: Bytes)
    requires 0 !in line
    ensures Front(line + [0] + rest) == line
  {
    var s := line + [0] + rest;
    if |line| > 0 {
      assert s[1..] == line[1..] + [0] + rest;
      FrontOf(line[1..], rest);
    }
  }

  lemma {:induction false} PackFirst(pairs: seq<Pair>)
    requires |pairs| > 0
    ensures Pack(pairs) == Line(pairs[0]) + [0] + Pack(pairs[1..])
  {
    var n := |pairs| - 1;
    if n > 0 {
      PackFirst(pairs[..n]);
      assert pairs[..n][1..] == pairs[1..][..n - 1];
      assert Pack(pairs[1..]) == Pack(pairs[1..][..n - 1]) + Line(pairs[n]) + [0];
    }
  }

  lemma ParseFirst(line: Bytes, tail: Bytes)
    requires 0 !in line && |line| > 0
    ensures Parse(line + [0] + tail) == [line] + Parse(tail)
  {
    var s := line + [0] + tail;
    FrontOf(line, tail);
    assert s[|line| + 1..] == tail;
  }

  /** Parsing undoes packing, whatever follows the terminator. */
  lemma {:induction false} ParsePacked(pairs: seq<Pair>, rest: Bytes)
    requires NulFree(pairs)
    ensures Parse(Pack(pairs) + [0] + rest) == Lines(pairs)
    decreases |pairs|
  {
    var s := Pack(pairs) + [0] + rest;
    if |pairs| == 0 {
      assert s[0] == 0;
    } else {
      var line := Line(pairs[0]);
      var tail := Pack(pairs[1..]) + [0] + rest;
      PackFirst(pairs);
      assert s == line + [0] + tail;
      ParseFirst(line, tail);
      ParsePacked(pairs[1..], rest);
      assert Lines(pairs) == [line] + Lines(pairs[1..]);
    }
  }

  lemma {:induction false} SplitLine(key: Key, val: Bytes)
    requires EQUALS !in key
    ensures Split(Line((key, val))) == Some((key, val))
  {
    var line := Line((key, val));
    if |key| > 0 {
      assert line[1..] == Line((key[1..], val));
      SplitLine(key[1..], val);
      assert [key[0]] + key[1..] == key;
    } else {
      assert line[1..] == val;
    }
  }

  lemma ParseWritten(pairs: seq<Pair>, before: Bytes, after: Bytes)
    requires Written(pairs, before, after) && NulFree(pairs)
    ensures Parse(after) == Lines(pairs[..Fitting(pairs, |before|)])
  {
    var n := Fitting(pairs, |before|);
    var out := Pack(pairs[..n]);
    assert after == out + [0] + before[|out| + 1..];
    ParsePacked(pairs[..n], before[|out| + 1..]);
  }

  /**
   * Parsing an enumerated buffer gives back the records that fitted, in order; when the enumeration succeeded that is
   * every live key of the store with its value, each once, and the pairs themselves where no key holds an `=`.
   */
  lemma ParseUndoesGetAll(h: Hash, img: Image, before: Bytes, after: Bytes)
    requires Inv(h, img) && Written(LivePairs(img, INDEX_SLOTS), before, after)
    requires NulFree(LivePairs(img, INDEX_SLOTS))
    ensures var pairs := LivePairs(img, INDEX_SLOTS);
            var n := Fitting(pairs, |before|);
            && Parse(after) == Lines(pairs[..n])
            && (|Pack(pairs)| + 1 <= |before| ==>
                  && Parse(after) == Lines(pairs)
                  && (forall a, b | 0 <= a < b < |pairs| :: pairs[a].0 != pairs[b].0)
                  && (forall k, v :: (k, v) in pairs <==> k in Abs(img) && Abs(img)[k].val == Some(v)))
            && forall j | 0 <= j < n && EQUALS !in pairs[j].0 :: Split(Parse(after)[j]) == Some(pairs[j])
  {
    var pairs := LivePairs(img, INDEX_SLOTS);
    var n := Fitting(pairs, |before|);
    ParseWritten(pairs, before, after);
    if |Pack(pairs)| + 1 <= |before| {
      AllFit(pairs, |before|);
      assert pairs[..n] == pairs;
      LivePairsExact(h, img);
    }
    forall j | 0 <= j < n && EQUALS !in pairs[j].0
      ensures Split(Parse(after)[j]) == Some(pairs[j])
    {
      SplitLine(pairs[j].0, pairs[j].1);
    }
  }

  /** Where the text starting at `start` ends. */
  method Position(buf: Bytes, start: nat) returns (end: nat)
    requires start <= |buf|
    ensures start <= end <= |buf| && Front(buf[start..]) == buf[start..end]
  {
    end := start;
    while end < |buf| && buf[end] != 0
      invariant start <= end <= |buf|
      invariant Front(buf[start..]) == buf[start..end] + Front(buf[end..])
    {
      assert buf[end..][1..] == buf[end + 1..];
      assert buf[start..end] + [buf[end]] == buf[start..end + 1];
      end := end + 1;
    }
    assert Front(buf[end..]) == [];
  }

  /** The reader of a packed buffer. */
  method ParseAll(buf: Bytes) returns (out: seq<Bytes>)
    ensures out == Parse(buf)
  {
    out := [];
    var start := 0;
    while start < |buf|
      invariant start <= |buf|
      invariant out + Parse(buf[start..]) == Parse(buf)
    {
      var end := Position(buf, start);
      if end == |buf| || end == start {
        return;
      }
      out := out + [buf[start..end]];
      assert buf[start..][end - start + 1..] == buf[end + 1..];
      start := end + 1;
    }
  }
}
