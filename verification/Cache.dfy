/** This process's private copies: stable buffers that survive one change to their key. */
module PrivateCache {
  import opened Layout

  /** What a caller is handed: a value and the NUL after it, fixed once made. */
  class Buffer {
    const bytes: Bytes

    constructor (value: Bytes)
      ensures bytes == value + [0]
    {
      bytes := value + [0];
    }
  }

  /** What a caller reads through the pointer it was handed. */
  function TextOf(b: Buffer?): Option<Bytes> {
    if b == null || |b.bytes| == 0 then None else Some(b.bytes[..|b.bytes| - 1])
  }

  /** The buffers an entry owned at one time, and whether it came to own them by a change or an invalidation. */
  datatype Owned = Owned(value: Buffer?, retired: Buffer?, changed: bool)

  predicate Owns(o: Owned, b: Buffer) {
    o.value == b || o.retired == b
  }

  /** A change retires the value and brings in a buffer never owned before, or none. */
  ghost predicate Follows(past: seq<Owned>, t: nat)
    requires 0 < t < |past|
  {
    if past[t].changed then past[t].retired == past[t - 1].value && NeverOwned(past, t, past[t].value)
    else past[t].value == past[t - 1].value && past[t].retired == past[t - 1].retired
  }

  ghost predicate IsPast(past: seq<Owned>) {
    |past| > 0 && (|past| == 1 || (IsPast(past[..|past| - 1]) && Follows(past, |past| - 1)))
  }

  ghost predicate NeverOwned(past: seq<Owned>, n: nat, b: Buffer?)
    requires n <= |past|
  {
    b != null ==> forall u | 0 <= u < n :: !Owns(past[u], b)
  }

  function Changes(past: seq<Owned>, i: nat, j: nat): nat
    requires i <= j < |past|
  {
    if i == j then 0 else Changes(past, i, j - 1) + if past[j].changed then 1 else 0
  }

  lemma {:induction false} PastFollows(past: seq<Owned>, t: nat)
    requires IsPast(past) && 0 < t < |past|
    ensures Follows(past, t)
  {
    if t < |past| - 1 {
      PastFollows(past[..|past| - 1], t);
      assert Follows(past[..|past| - 1], t);
    }
  }

  /**
   * A buffer handed out is owned until its key has changed, or the cache been invalidated, twice; and it is released
   * by the second of those.
   */
  lemma {:induction false} GracePeriod(past: seq<Owned>, i: nat, j: nat, b: Buffer)
    requires IsPast(past) && i <= j < |past|
    requires past[i].value == b && past[i].retired != b
    ensures Changes(past, i, j) == 0 ==> past[j].value == b && past[j].retired != b
    ensures Changes(past, i, j) == 1 ==> past[j].retired == b && past[j].value != b
    ensures Owns(past[j], b) <==> Changes(past, i, j) <= 1
    decreases j
  {
    if i < j {
      GracePeriod(past, i, j - 1, b);
      PastFollows(past, j);
      assert Owns(past[i], b);
    }
  }

  /** A value just taken into ownership is not the one retired. */
  ghost predicate Apart(past: seq<Owned>) {
    forall t | 0 <= t < |past| && past[t].value != null :: past[t].retired != past[t].value
  }

  lemma PastGrows(past: seq<Owned>, o: Owned)
    requires IsPast(past) && Apart(past)
    requires var last := past[|past| - 1];
             if o.changed then o.retired == last.value && NeverOwned(past, |past|, o.value)
             else o.value == last.value && o.retired == last.retired
    ensures IsPast(past + [o]) && Apart(past + [o])
  {
    assert (past + [o])[..|past|] == past;
  }

  class Entry {
    var value: Buffer?
    var retired: Buffer?
    var slotSeen: nat
    var valid: bool
    ghost var past: seq<Owned>
    ghost const key: Key

    /** The entry owns what the last of its past says, and its past obeys the rules of ownership. */
    ghost predicate Valid()
      reads this
    {
      && IsPast(past) && Apart(past)
      && past[|past| - 1].value == value && past[|past| - 1].retired == retired
      && (value != null ==> |value.bytes| > 0)
    }

    constructor (k: Key)
      ensures Valid() && key == k && !valid && TextOf(value) == None
      ensures past == [Owned(null, null, false)]
    {
      value, retired, slotSeen, valid := null, null, 0, false;
      past := [Owned(null, null, false)];
      key := k;
    }

    /** Install a freshly read value. The pointer stays when the bytes are unchanged. */
    method Install(got: Option<Bytes>, seen: nat)
      requires Valid()
      modifies this
      ensures Valid() && valid && slotSeen == seen
      ensures TextOf(value) == got
      ensures TextOf(old(value)) == got ==> value == old(value) && retired == old(retired)
      ensures TextOf(old(value)) != got ==> retired == old(value) && (value != null ==> fresh(value))
      ensures past == old(past) + [Owned(value, retired, TextOf(old(value)) != got)]
    {
      var same;
      if value != null && got.Some? {
        same := |value.bytes| == |got.value| + 1 && value.bytes[..|got.value|] == got.value;
      } else {
        same := value == null && got.None?;
      }
      if !same {
        retired := value;
        if got.Some? {
          value := new Buffer(got.value);
        } else {
          value := null;
        }
      }
      assert value != null && !same ==> TextOf(value) == got;
      PastGrows(past, Owned(value, retired, !same));
      past := past + [Owned(value, retired, !same)];
      slotSeen, valid := seen, true;
    }

    /** The entry has been invalidated since it held `was`, with this past. */
    ghost predicate Dropped(was: Buffer?, before: seq<Owned>)
      reads this
    {
      !valid && value == null && retired == was && past == before + [Owned(null, was, true)]
    }

    method Invalidate()
      requires Valid()
      modifies this
      ensures Valid() && Dropped(old(value), old(past))
    {
      retired := value;
      value := null;
      valid := false;
      slotSeen := 0;
      PastGrows(past, Owned(null, retired, true));
      past := past + [Owned(null, retired, true)];
    }

    /** A disk copy: never a hit. */
    method Distrust()
      requires Valid()
      modifies this`valid
      ensures Valid() && !valid
    {
      valid := false;
    }
  }

  class Cache {
    var entries: map<Key, Entry>

    /** Every entry of the map. */
    ghost var owned: set<Entry>

    /** Every entry is sound, and no two keys share one. */
    ghost predicate Valid()
      reads this, owned
    {
      forall k | k in entries :: entries[k] in owned && entries[k].Valid() && entries[k].key == k
    }

    constructor ()
      ensures Valid() && entries == map[] && owned == {}
    {
      entries := map[];
      owned := {};
    }

    method EntryFor(key: Key) returns (e: Entry)
      requires Valid()
      modifies this
      ensures Valid() && old(owned) <= owned <= old(owned) + {e} && e in owned
      ensures key in entries && entries[key] == e
      ensures key in old(entries) ==> entries == old(entries)
      ensures key !in old(entries) ==> fresh(e) && entries == old(entries)[key := e] && !e.valid && TextOf(e.value) == None
    {
      if key !in entries {
        var made := new Entry(key);
        entries := entries[key := made];
        owned := owned + {made};
      }
      e := entries[key];
    }

    /** Resolve the key's entry to this value, as a hit to come or, if it is not to be trusted, for this once. */
    method Resolve(key: Key, got: Option<Bytes>, seen: nat, trusted: bool) returns (e: Entry)
      requires Valid()
      modifies this, owned
      ensures Valid() && old(owned) <= owned && fresh(owned - old(owned))
      ensures key in entries && entries[key] == e && entries.Keys == old(entries.Keys) + {key}
      ensures TextOf(e.value) == got && e.slotSeen == seen && e.valid == trusted
      ensures key in old(entries) ==>
                if TextOf(old(entries[key].value)) == TextOf(e.value) then e.value == old(entries[key].value)
                else entries[key].retired == old(entries[key].value)
      ensures forall k | k in old(entries) && k != key ::
                k in entries && entries[k] == old(entries[k]) && unchanged(old(entries[k]))
    {
      e := EntryFor(key);
      e.Install(got, seen);
      if !trusted {
        e.Distrust();
      }
    }

    /** Invalidate every entry, each exactly once. */
    method InvalidateAll()
      requires Valid()
      modifies owned
      ensures Valid()
      ensures forall k | k in entries :: entries[k].Dropped(old(entries[k].value), old(entries[k].past))
    {
      var left := entries.Keys;
      while left != {}
        invariant left <= entries.Keys
        invariant forall k | k in entries :: entries[k].Valid()
        invariant forall k | k in entries && k !in left :: entries[k].Dropped(old(entries[k].value), old(entries[k].past))
        invariant forall k | k in left :: unchanged(entries[k])
        decreases |left|
      {
        var k :| k in left;
        entries[k].Invalidate();
        left := left - {k};
      }
    }
  }
}
