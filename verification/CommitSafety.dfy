/** What every step of every process keeps: no write is lost, and no file is ever half written. */
module CommitSafety {
  import opened Layout
  import opened Index
  import opened Operations
  import opened MapRefinement
  import opened Names
  import opened FileSystem
  import opened CommitProtocol

  // --------------------------------------------------------- invariants --

  /** Each lock is held by the process whose step says so, and by nobody else. */
  ghost predicate Locks(s: Sys) {
    && (forall p | p in s.procs :: HoldsWriter(s.procs[p]) <==> s.writer == Some(p))
    && (forall p | p in s.procs :: HoldsCommit(s.procs[p]) <==> s.committer == Some(p))
    && (s.writer.Some? ==> s.writer.value in s.procs)
    && (s.committer.Some? ==> s.committer.value in s.procs)
  }

  /** Every key owed to the disk can be stored as a file, and every remembered deletion is owed. */
  ghost predicate SegOk(s: Sys) {
    && |s.slots| == SLOTS
    && (forall k | k in s.seg :: (s.seg[k].dirty ==> ValidKey(k)) && (s.seg[k].val.None? ==> s.seg[k].dirty))
    && (forall p | p in s.procs && (s.procs[p].SetWait? || s.procs[p].SetHold?) :: ValidKey(s.procs[p].op.key))
  }

  predicate Clearing(s: Sys) {
    s.committer.Some? && s.committer.value in s.procs && s.procs[s.committer.value].ClearFiles?
  }

  /** The key's file need not be what memory holds. */
  predicate Adrift(s: Sys, k: Key) {
    Dirty(s.seg, k) || k in s.strays
  }

  /** Every other key has on disk exactly what it has in memory. */
  ghost predicate NoLostWrite(s: Sys)
    requires |s.fs.dirs| > 0
  {
    forall k | ValidKey(k) && !Adrift(s, k) :: FileOf(s.fs, k) == SegVal(s.seg, k)
  }

  /** A pending entry is what its key holds, unless the key's counter has moved. */
  ghost predicate Tracks(h: Hash, s: Sys, p: Pending)
    requires |s.slots| == SLOTS
  {
    && ValidKey(p.key) && p.hash == h(p.key)
    && p.seen <= s.slots[SlotOf(p.hash)]
    && (p.seen == s.slots[SlotOf(p.hash)] ==> SegVal(s.seg, p.key) == p.val)
  }

  ghost predicate AllTrack(h: Hash, s: Sys, c: Commit)
    requires |s.slots| == SLOTS
  {
    && (forall j | 0 <= j < |c.pending| :: Tracks(h, s, c.pending[j]))
    && (forall a, b | 0 <= a < b < |c.pending| :: c.pending[a].key != c.pending[b].key)
  }

  ghost predicate AllAdrift(s: Sys, c: Commit) {
    forall j | 0 <= j < |c.pending| :: Adrift(s, c.pending[j].key)
  }

  predicate AmongPending(c: Commit, n: nat, p: Pending) {
    exists i | 0 <= i < n && i < |c.pending| :: c.pending[i] == p
  }

  predicate AmongStaged(c: Commit, n: nat, p: Pending) {
    exists i | 0 <= i < n && i < |c.staged| :: c.staged[i].p == p
  }

  /** What has been staged comes from the first `n` pending entries, each at most once, and all of them if all went well. */
  ghost predicate StagedFrom(c: Commit, n: nat) {
    && n <= |c.pending|
    && (forall j | 0 <= j < |c.staged| :: AmongPending(c, n, c.staged[j].p))
    && (forall j | 0 <= j < |c.staged| :: c.staged[j].tmp <==> c.staged[j].p.val.Some?)
    && (forall a, b | 0 <= a < b < |c.staged| :: c.staged[a].p.key != c.staged[b].p.key)
    && (c.ok ==> |c.staged| == n && forall j | 0 <= j < n :: c.staged[j].p == c.pending[j])
  }

  /** What has been published comes from the first `n` staged entries, each at most once, and all if all went well. */
  ghost predicate DoneFrom(c: Commit, n: nat) {
    && n <= |c.staged|
    && (forall j | 0 <= j < |c.done| :: AmongStaged(c, n, c.done[j]))
    && (c.ok ==> |c.done| == n && forall j | 0 <= j < n :: c.done[j] == c.staged[j].p)
  }

  /** The temporary files from `n` on hold their values, and are on the device once `flushed`. */
  ghost predicate TempsHold(fs: Fs, p: Pid, c: Commit, n: nat)
    requires |fs.dirs| > 0
  {
    forall j | n <= j < |c.staged| && c.staged[j].tmp ::
      var tmp := TempName(p, c.staged[j].p.key);
      && tmp in Dir(fs) && FileOf(fs, tmp) == c.staged[j].p.val
      && (c.flushed ==> Dir(fs)[tmp] in fs.flushed)
  }

  ghost predicate DoneOnDisk(fs: Fs, c: Commit)
    requires |fs.dirs| > 0
  {
    forall j | 0 <= j < |c.done| :: FileOf(fs, c.done[j].key) == c.done[j].val
  }

  predicate PublishedAs(c: Commit, k: Key, v: Option<Bytes>) {
    exists j | 0 <= j < |c.done| :: c.done[j].key == k && c.done[j].val == v
  }

  /** The key's file has held this at some moment since the last flush. */
  ghost predicate HasHeld(fs: Fs, k: Key, v: Option<Bytes>) {
    exists i | 0 <= i < |fs.dirs| :: FileIn(fs, i, k) == v
  }

  /** Since the last flush each key's file has held only what it could be found with before publishing, or its snapshot value. */
  ghost predicate OldOrNew(fs: Fs, c: Commit)
    requires |fs.dirs| > 0
  {
    && FsInv(c.before)
    && forall i, k | 0 <= i < |fs.dirs| && ValidKey(k) ::
         HasHeld(c.before, k, FileIn(fs, i, k)) || PublishedAs(c, k, FileIn(fs, i, k))
  }

  ghost predicate Published(h: Hash, s: Sys, c: Commit, n: nat)
    requires |s.slots| == SLOTS && |s.fs.dirs| > 0
  {
    && AllTrack(h, s, c) && StagedFrom(c, |c.pending|) && DoneFrom(c, n)
    && DoneOnDisk(s.fs, c) && OldOrNew(s.fs, c)
  }

  ghost predicate CommitterInv(h: Hash, s: Sys, p: Pid, pc: Pc)
    requires |s.slots| == SLOTS && |s.fs.dirs| > 0
  {
    match pc
    case SnapDone(c) =>
      AllTrack(h, s, c) && AllAdrift(s, c) && c.staged == [] && c.done == [] && c.ok && !c.flushed
    case Staging(c, n) =>
      && AllTrack(h, s, c) && AllAdrift(s, c) && c.done == [] && !c.flushed
      && StagedFrom(c, n) && TempsHold(s.fs, p, c, 0)
    case Flushing(c) =>
      && AllTrack(h, s, c) && AllAdrift(s, c) && c.done == [] && !c.flushed
      && StagedFrom(c, |c.pending|) && TempsHold(s.fs, p, c, 0) && AnyStaged(c)
    case Discarding(c, n) => n < |c.staged| && c.done == [] && OldOrNew(s.fs, c)
    case Publishing(c, n) =>
      && Published(h, s, c, n) && AllAdrift(s, c) && (AnyStaged(c) ==> c.flushed)
      && TempsHold(s.fs, p, c, n)
    case RetireWait(c) => Published(h, s, c, |c.staged|)
    case Retiring(c, n) => Published(h, s, c, |c.staged|) && n <= |c.done|
    case Retired(c) => Published(h, s, c, |c.staged|)
    case Syncing(c) => Published(h, s, c, |c.staged|)
    case Returning(c, result) =>
      && OldOrNew(s.fs, c) && DoneOnDisk(s.fs, c)
      && (result ==>
        && |s.fs.dirs| == 1
        && forall j | 0 <= j < |c.pending| ::
             ValidKey(c.pending[j].key) && FileOf(s.fs, c.pending[j].key) == c.pending[j].val)
    case ClearFiles(left, listed) => s.seg == map[]
    case ClearSync(listed) => Dir(s.fs).Keys == s.strays
    case ClearReturning(result) => Dir(s.fs).Keys == s.strays && (result ==> |s.fs.dirs| == 1)
    case _ => true
  }

  ghost predicate SysInv(h: Hash, s: Sys) {
    && Locks(s) && SegOk(s) && FsInv(s.fs)
    && (!Clearing(s) ==> NoLostWrite(s))
    && (s.committer.Some? ==> CommitterInv(h, s, s.committer.value, s.procs[s.committer.value]))
  }

  ghost predicate Init(s: Sys) {
    && SegOk(s) && FsInv(s.fs) && NoLostWrite(s)
    && s.writer == None && s.committer == None && s.procs == map[]
  }

  lemma InitInv(h: Hash, s: Sys)
    requires Init(s)
    ensures SysInv(h, s)
  {
  }

  // ----------------------------------------------- segment-side changes --

  /** The map and counters changed, the disk did not; keys changed only to dirty, and their counters moved. */
  ghost predicate SegMoved(h: Hash, s: Sys, s': Sys)
    requires |s.slots| == SLOTS
  {
    && s'.fs == s.fs && s'.strays == s.strays && |s'.slots| == SLOTS
    && (forall x | 0 <= x < SLOTS :: s.slots[x] <= s'.slots[x])
    && (forall k | Dirty(s.seg, k) :: Dirty(s'.seg, k))
    && (forall k | SegVal(s'.seg, k) != SegVal(s.seg, k) :: Dirty(s'.seg, k) && s.slots[SlotOf(h(k))] < s'.slots[SlotOf(h(k))])
  }

  lemma ActMoves(h: Hash, s: Sys, op: SegOp, ok: bool)
    requires SegOk(s) && ValidKey(op.key)
    ensures SegMoved(h, s, ActOn(h, s, op, ok)) && SegOk(ActOn(h, s, op, ok))
  {
  }

  lemma MovedTracks(h: Hash, s: Sys, s': Sys, c: Commit)
    requires |s.slots| == SLOTS && SegMoved(h, s, s')
    ensures AllTrack(h, s, c) ==> AllTrack(h, s', c)
    ensures AllAdrift(s, c) ==> AllAdrift(s', c)
  {
  }

  lemma MovedInv(h: Hash, s: Sys, s': Sys, p: Pid, pc: Pc)
    requires |s.slots| == SLOTS && |s.fs.dirs| > 0 && SegMoved(h, s, s')
    requires CommitterInv(h, s, p, pc) && !pc.ClearFiles?
    ensures CommitterInv(h, s', p, pc)
  {
    if pc.SnapDone? || pc.Staging? || pc.Flushing? || pc.Publishing? || pc.RetireWait? || pc.Retiring? || pc.Retired? || pc.Syncing? {
      MovedTracks(h, s, s', pc.c);
    }
  }

  lemma MovedNoLost(h: Hash, s: Sys, s': Sys)
    requires |s.slots| == SLOTS && |s.fs.dirs| > 0 && SegMoved(h, s, s')
    requires NoLostWrite(s)
    ensures NoLostWrite(s')
  {
  }

  // -------------------------------------------------- disk-side changes --

  /** Staging, unstaging and flushing leave the map and every key's file as they were. */
  lemma TempsOnly(s: Sys, s': Sys)
    requires |s.fs.dirs| > 0 && |s'.fs.dirs| > 0 && s'.seg == s.seg && s'.strays == s.strays
    requires forall k | ValidKey(k) :: FileOf(s'.fs, k) == FileOf(s.fs, k)
    requires NoLostWrite(s)
    ensures NoLostWrite(s')
  {
  }

  lemma SameKeysLast(fs: Fs, fs': Fs)
    requires SameKeys(fs, fs')
    ensures forall k | ValidKey(k) :: FileOf(fs', k) == FileOf(fs, k)
  {
  }

  /** Staging the next pending value, or failing to. */
  lemma StageKeeps(h: Hash, s: Sys, p: Pid, c: Commit, n: nat, ok: bool, left: Option<Bytes>)
    requires FsInv(s.fs) && |s.slots| == SLOTS
    requires CommitterInv(h, s, p, Staging(c, n)) && n < |c.pending| && c.pending[n].val.Some?
    ensures var fs' := StageFs(s.fs, TempName(p, c.pending[n].key), c.pending[n].val.value, ok, left);
            && FsInv(fs') && SameKeys(s.fs, fs')
            && TempsHold(fs', p, StageResult(c, n, ok), 0)
  {
    var q := c.pending[n];
    var tmp := TempName(p, q.key);
    var fs' := StageFs(s.fs, tmp, q.val.value, ok, left);
    TempNotKey(p, q.key);
    if ok {
      CreateTemp(s.fs, tmp, q.val.value);
    } else if left.Some? {
      CreateTemp(s.fs, tmp, left.value);
    } else {
      UnlinkTemp(s.fs, tmp);
    }
    forall j | 0 <= j < |c.staged| && c.staged[j].tmp
      ensures TempName(p, c.staged[j].p.key) in Dir(fs') && FileOf(fs', TempName(p, c.staged[j].p.key)) == c.staged[j].p.val
    {
      StagedOther(c, n, j);
      TempNameInjective(p, c.staged[j].p.key, p, q.key);
    }
  }

  /** An entry staged earlier is of another key than the next pending one. */
  lemma StagedOther(c: Commit, n: nat, j: nat)
    requires StagedFrom(c, n) && n < |c.pending| && j < |c.staged|
    requires forall a, b | 0 <= a < b < |c.pending| :: c.pending[a].key != c.pending[b].key
    ensures c.staged[j].p.key != c.pending[n].key
  {
    assert AmongPending(c, n, c.staged[j].p);
    var i :| 0 <= i < n && i < |c.pending| && c.pending[i] == c.staged[j].p;
  }

  lemma AmongMore(c: Commit, c': Commit, n: nat, p: Pending)
    requires c'.pending == c.pending && AmongPending(c, n, p)
    ensures AmongPending(c', n + 1, p)
  {
    var i :| 0 <= i < n && i < |c.pending| && c.pending[i] == p;
    assert c'.pending[i] == p;
  }

  lemma StageList(c: Commit, n: nat, ok: bool)
    requires forall a, b | 0 <= a < b < |c.pending| :: c.pending[a].key != c.pending[b].key
    requires StagedFrom(c, n) && n < |c.pending|
    ensures StagedFrom(StageResult(c, n, ok), n + 1)
  {
    var c' := StageResult(c, n, ok);
    forall j | 0 <= j < |c'.staged|
      ensures AmongPending(c', n + 1, c'.staged[j].p)
    {
      if j < |c.staged| {
        AmongMore(c, c', n, c.staged[j].p);
      } else {
        assert c'.pending[n] == c'.staged[j].p;
      }
    }
    StageDistinct(c, n, ok);
  }

  lemma StageDistinct(c: Commit, n: nat, ok: bool)
    requires forall a, b | 0 <= a < b < |c.pending| :: c.pending[a].key != c.pending[b].key
    requires StagedFrom(c, n) && n < |c.pending|
    ensures var staged := StageResult(c, n, ok).staged;
            forall a, b | 0 <= a < b < |staged| :: staged[a].p.key != staged[b].p.key
  {
    var staged := StageResult(c, n, ok).staged;
    forall a, b | 0 <= a < b < |staged|
      ensures staged[a].p.key != staged[b].p.key
    {
      StagedOther(c, n, a);
      assert staged[a] == c.staged[a];
    }
  }

  /** The key of a staged entry is storable, and its file may be out of date, while nothing has been retired. */
  lemma StagedKey(h: Hash, s: Sys, c: Commit, j: nat)
    requires |s.slots| == SLOTS && AllTrack(h, s, c) && AllAdrift(s, c) && StagedFrom(c, |c.pending|) && j < |c.staged|
    ensures ValidKey(c.staged[j].p.key) && Adrift(s, c.staged[j].p.key)
  {
    assert AmongPending(c, |c.pending|, c.staged[j].p);
    var i :| 0 <= i < |c.pending| && c.pending[i] == c.staged[j].p;
    assert Tracks(h, s, c.pending[i]);
  }

  /** Publishing one entry: its key's file becomes its snapshot value, in one step, from flushed bytes. */
  lemma PublishKeepsDisk(h: Hash, s: Sys, p: Pid, c: Commit, n: nat, ok: bool, removed: bool)
    requires FsInv(s.fs) && |s.slots| == SLOTS
    requires CommitterInv(h, s, p, Publishing(c, n)) && n < |c.staged|
    requires ok ==> CanPublish(s.fs, p, c.staged[n])
    ensures var fs' := PublishFs(s.fs, p, c.staged[n], ok, removed);
            && FsInv(fs')
            && (if ok then KeyChanged(s.fs, fs', c.staged[n].p.key, c.staged[n].p.val) else SameKeys(s.fs, fs'))
  {
    var e := c.staged[n];
    var tmp := TempName(p, e.p.key);
    StagedKey(h, s, c, n);
    TempNotKey(p, e.p.key);
    if e.tmp {
      assert AnyStaged(c);
      if ok {
        RenameTemp(s.fs, tmp, e.p.key);
      } else {
        UnlinkTemp(s.fs, tmp);
      }
    } else {
      UnlinkKey(s.fs, e.p.key);
    }
  }

  lemma PublishKeepsTemps(h: Hash, s: Sys, p: Pid, c: Commit, n: nat, ok: bool, removed: bool)
    requires FsInv(s.fs) && |s.slots| == SLOTS
    requires CommitterInv(h, s, p, Publishing(c, n)) && n < |c.staged|
    requires ok ==> CanPublish(s.fs, p, c.staged[n])
    ensures TempsHold(PublishFs(s.fs, p, c.staged[n], ok, removed), p, PublishResult(c, n, ok), n + 1)
  {
    var e := c.staged[n];
    var fs' := PublishFs(s.fs, p, e, ok, removed);
    StagedKey(h, s, c, n);
    forall j | n + 1 <= j < |c.staged| && c.staged[j].tmp
      ensures var tmp := TempName(p, c.staged[j].p.key);
              && tmp in Dir(fs') && FileOf(fs', tmp) == c.staged[j].p.val
              && (c.flushed ==> Dir(fs')[tmp] in fs'.flushed)
    {
      TempNameInjective(p, c.staged[j].p.key, p, e.p.key);
      TempNotKey(p, c.staged[j].p.key);
      assert c.staged[n].p.key != c.staged[j].p.key;
      assert TempName(p, c.staged[j].p.key) in Dir(s.fs);
    }
  }

  lemma PublishList(c: Commit, n: nat, ok: bool)
    requires StagedFrom(c, |c.pending|) && DoneFrom(c, n) && n < |c.staged|
    ensures StagedFrom(PublishResult(c, n, ok), |c.pending|) && DoneFrom(PublishResult(c, n, ok), n + 1)
    ensures forall j | 0 <= j < |c.done| :: c.done[j].key != c.staged[n].p.key
  {
    PublishStagedList(c, n, ok);
    PublishDoneList(c, n, ok);
    forall j | 0 <= j < |c.done|
      ensures c.done[j].key != c.staged[n].p.key
    {
      assert AmongStaged(c, n, c.done[j]);
    }
  }

  lemma PublishStagedList(c: Commit, n: nat, ok: bool)
    requires StagedFrom(c, |c.pending|) && n < |c.staged|
    ensures StagedFrom(PublishResult(c, n, ok), |c.pending|)
  {
    var c' := PublishResult(c, n, ok);
    forall j | 0 <= j < |c.staged|
      ensures AmongPending(c', |c.pending|, c'.staged[j].p)
    {
      assert AmongPending(c, |c.pending|, c.staged[j].p);
      var i :| 0 <= i < |c.pending| && c.pending[i] == c.staged[j].p;
      assert c'.pending[i] == c'.staged[j].p;
    }
  }

  lemma PublishDoneList(c: Commit, n: nat, ok: bool)
    requires DoneFrom(c, n) && n < |c.staged|
    ensures DoneFrom(PublishResult(c, n, ok), n + 1)
  {
    var c' := PublishResult(c, n, ok);
    forall j | 0 <= j < |c'.done|
      ensures AmongStaged(c', n + 1, c'.done[j])
    {
      if j < |c.done| {
        assert AmongStaged(c, n, c.done[j]);
        var i :| 0 <= i < n && i < |c.staged| && c.staged[i].p == c.done[j];
        assert c'.staged[i].p == c'.done[j];
      } else {
        assert c'.staged[n].p == c'.done[j];
      }
    }
  }

  lemma PublishedMore(c: Commit, c': Commit, k: Key, v: Option<Bytes>)
    requires |c.done| <= |c'.done| && c'.done[..|c.done|] == c.done
    ensures PublishedAs(c, k, v) ==> PublishedAs(c', k, v)
  {
    if PublishedAs(c, k, v) {
      var j :| 0 <= j < |c.done| && c.done[j].key == k && c.done[j].val == v;
      assert c'.done[j] == c.done[j];
    }
  }

  /** Nothing has been published yet. */
  lemma OldOrNewStarts(fs: Fs, c: Commit)
    requires FsInv(fs) && c.before == fs
    ensures OldOrNew(fs, c)
  {
  }

  lemma OldOrNewKept(fs: Fs, fs': Fs, c: Commit, c': Commit)
    requires SameKeys(fs, fs') && OldOrNew(fs, c) && c'.before == c.before && c'.done == c.done
    ensures OldOrNew(fs', c')
  {
    forall i, k | 0 <= i < |fs'.dirs| && ValidKey(k)
      ensures HasHeld(c'.before, k, FileIn(fs', i, k)) || PublishedAs(c', k, FileIn(fs', i, k))
    {
      var j := if i < |fs.dirs| then i else |fs.dirs| - 1;
      assert FileIn(fs', i, k) == FileIn(fs, j, k);
      PublishedMore(c, c', k, FileIn(fs, j, k));
    }
  }

  lemma OldOrNewFlushed(fs: Fs, c: Commit)
    requires FsInv(fs) && OldOrNew(fs, c)
    ensures OldOrNew(Flush(fs), c)
  {
    forall i, k | 0 <= i < |Flush(fs).dirs| && ValidKey(k)
      ensures HasHeld(c.before, k, FileIn(Flush(fs), i, k)) || PublishedAs(c, k, FileIn(Flush(fs), i, k))
    {
      assert FileIn(Flush(fs), i, k) == FileIn(fs, |fs.dirs| - 1, k);
    }
  }

  lemma OldOrNewPublished(fs: Fs, fs': Fs, c: Commit, c': Commit, q: Pending)
    requires KeyChanged(fs, fs', q.key, q.val) && OldOrNew(fs, c)
    requires c'.before == c.before && c'.done == c.done + [q]
    ensures OldOrNew(fs', c')
  {
    forall i, k | 0 <= i < |fs'.dirs| && ValidKey(k)
      ensures HasHeld(c'.before, k, FileIn(fs', i, k)) || PublishedAs(c', k, FileIn(fs', i, k))
    {
      if i == |fs.dirs| && k == q.key {
        assert c'.done[|c.done|] == q;
      } else {
        var j := if i < |fs.dirs| then i else |fs.dirs| - 1;
        assert FileIn(fs', i, k) == FileIn(fs, j, k);
        PublishedMore(c, c', k, FileIn(fs, j, k));
      }
    }
  }
}
