/** Over every run of every process: no lost write, whole files after any crash, durable commits, clears that stay cleared. */
module CommitTheorem {
  import opened Layout
  import opened Index
  import opened Operations
  import opened MapRefinement
  import opened Names
  import opened FileSystem
  import opened CommitProtocol
  import opened CommitSafety

  // ------------------------------------------------ one step at a time --

  /** Process `p` has moved to `pc` without changing what it holds. */
  lemma LocksStay(s: Sys, s': Sys, p: Pid, pc: Pc)
    requires Locks(s) && p in s.procs && s'.procs == s.procs[p := pc]
    requires s'.writer == s.writer && s'.committer == s.committer
    requires HoldsWriter(pc) == HoldsWriter(s.procs[p]) && HoldsCommit(pc) == HoldsCommit(s.procs[p])
    ensures Locks(s')
  {
  }

  /** Nothing but who holds what has changed. */
  ghost predicate Quiet(s: Sys, s': Sys) {
    s'.seg == s.seg && s'.slots == s.slots && s'.fs == s.fs && s'.strays == s.strays
  }

  lemma QuietData(h: Hash, s: Sys, s': Sys, p: Pid, pc: Pc)
    requires Quiet(s, s') && |s.slots| == SLOTS && |s.fs.dirs| > 0 && CommitterInv(h, s, p, pc)
    ensures CommitterInv(h, s', p, pc)
  {
  }

  lemma StartKeeps(h: Hash, s: Sys, s': Sys, p: Pid, pc: Pc)
    requires SysInv(h, s) && DoStart(s, s', p, pc)
    ensures SysInv(h, s')
  {
    if s.committer.Some? {
      QuietData(h, s, s', s.committer.value, s.procs[s.committer.value]);
    }
  }

  lemma TakeWriterLocks(s: Sys, s': Sys, p: Pid)
    requires Locks(s) && DoTakeWriter(s, s', p)
    ensures Locks(s') && !Clearing(s) && !Clearing(s')
  {
  }

  lemma TakeWriterKeeps(h: Hash, s: Sys, s': Sys, p: Pid)
    requires SysInv(h, s) && DoTakeWriter(s, s', p)
    ensures SysInv(h, s')
  {
    TakeWriterLocks(s, s', p);
    if s.committer.Some? {
      QuietData(h, s, s', s.committer.value, s.procs[s.committer.value]);
    }
  }

  lemma TakeCommitKeeps(h: Hash, s: Sys, s': Sys, p: Pid)
    requires SysInv(h, s) && DoTakeCommit(s, s', p)
    ensures SysInv(h, s')
  {
    assert Locks(s');
  }

  lemma DropWriterLocks(s: Sys, s': Sys, p: Pid)
    requires Locks(s) && DoDropWriter(s, s', p)
    ensures Locks(s')
  {
  }

  lemma DropWriterKeeps(h: Hash, s: Sys, s': Sys, p: Pid)
    requires SysInv(h, s) && DoDropWriter(s, s', p)
    ensures SysInv(h, s')
  {
    DropWriterLocks(s, s', p);
    if s.committer.Some? {
      QuietData(h, s, s', s.committer.value, s.procs[s.committer.value]);
    }
  }

  lemma FinishKeeps(h: Hash, s: Sys, s': Sys, p: Pid)
    requires SysInv(h, s) && DoFinish(s, s', p)
    ensures SysInv(h, s')
  {
    assert Locks(s');
  }

  lemma DieKeeps(h: Hash, s: Sys, s': Sys, p: Pid)
    requires SysInv(h, s) && DoDie(s, s', p)
    ensures SysInv(h, s')
  {
    assert Locks(s');
    if s.committer.Some? {
      QuietData(h, s, s', s.committer.value, s.procs[s.committer.value]);
    }
  }

  lemma ActKeeps(h: Hash, s: Sys, s': Sys, p: Pid, ok: bool)
    requires SysInv(h, s) && DoAct(h, s, s', p, ok)
    ensures SysInv(h, s')
  {
    var t := ActOn(h, s, s.procs[p].op, ok);
    ActMoves(h, s, s.procs[p].op, ok);
    LocksStay(s, s', p, SetDone);
    assert SegMoved(h, s, s');
    if !Clearing(s) {
      MovedNoLost(h, s, s');
    }
    if s.committer.Some? {
      assert s.committer.value != p;
      MovedInv(h, s, s', s.committer.value, s.procs[s.committer.value]);
    }
  }

  /** With no write lost, a snapshot finds only dirty keys and strays: the others match their files. */
  lemma SnapKeeps(h: Hash, s: Sys, s': Sys, p: Pid, pending: seq<Pending>)
    requires SysInv(h, s) && DoSnap(h, s, s', p, pending)
    ensures SysInv(h, s')
  {
    var c := Commit(pending, [], [], true, false, s.fs);
    LocksStay(s, s', p, SnapDone(c));
    forall j | 0 <= j < |pending|
      ensures Tracks(h, s', pending[j]) && Adrift(s', pending[j].key)
    {
      assert pending[j] in pending;
      assert ValidKey(pending[j].key);
    }
  }

  lemma StageDisk(h: Hash, s: Sys, s': Sys, p: Pid, ok: bool, left: Option<Bytes>)
    requires |s.slots| == SLOTS && FsInv(s.fs) && NoLostWrite(s) && DoStageOne(s, s', p, ok, left)
    requires CommitterInv(h, s, p, s.procs[p])
    ensures FsInv(s'.fs) && NoLostWrite(s') && CommitterInv(h, s', p, s'.procs[p])
  {
    var (c, n) := (s.procs[p].c, s.procs[p].n);
    StageList(c, n, ok);
    if c.pending[n].val.Some? {
      StageKeeps(h, s, p, c, n, ok, left);
      SameKeysLast(s.fs, s'.fs);
    }
    TempsOnly(s, s');
    StagePlace(h, s, s', p, c, n, ok);
  }

  lemma StageOneKeeps(h: Hash, s: Sys, s': Sys, p: Pid, ok: bool, left: Option<Bytes>)
    requires SysInv(h, s) && DoStageOne(s, s', p, ok, left)
    ensures SysInv(h, s')
  {
    var (c, n) := (s.procs[p].c, s.procs[p].n);
    LocksStay(s, s', p, Staging(StageResult(c, n, ok), n + 1));
    StageDisk(h, s, s', p, ok, left);
  }

  lemma StagePlace(h: Hash, s: Sys, s': Sys, p: Pid, c: Commit, n: nat, ok: bool)
    requires |s.slots| == SLOTS && |s.fs.dirs| > 0 && |s'.fs.dirs| > 0 && s'.seg == s.seg && s'.slots == s.slots
    requires s'.strays == s.strays
    requires CommitterInv(h, s, p, Staging(c, n)) && n < |c.pending|
    requires StagedFrom(StageResult(c, n, ok), n + 1)
    requires TempsHold(s'.fs, p, StageResult(c, n, ok), 0) || (s'.fs == s.fs && c.pending[n].val.None?)
    ensures CommitterInv(h, s', p, Staging(StageResult(c, n, ok), n + 1))
  {
  }

  lemma StageEndKeeps(h: Hash, s: Sys, s': Sys, p: Pid)
    requires SysInv(h, s) && DoStageEnd(s, s', p)
    ensures SysInv(h, s')
  {
    var c := s.procs[p].c;
    LocksStay(s, s', p, AfterStaging(c, s.fs));
    StagedPlace(h, s, s', p, c);
  }

  lemma StagedPlace(h: Hash, s: Sys, s': Sys, p: Pid, c: Commit)
    requires |s.slots| == SLOTS && FsInv(s.fs) && Quiet(s, s')
    requires CommitterInv(h, s, p, Staging(c, |c.pending|))
    ensures CommitterInv(h, s', p, AfterStaging(c, s.fs))
  {
    var c' := c.(before := s.fs);
    OldOrNewStarts(s.fs, c');
    StagedElsewhere(c, c');
  }

  /** What has been staged does not depend on the flush or on the state of the disk. */
  lemma StagedElsewhere(c: Commit, c': Commit)
    requires StagedFrom(c, |c.pending|)
    requires c'.pending == c.pending && c'.staged == c.staged && c'.ok == c.ok
    ensures StagedFrom(c', |c'.pending|) && (AnyStaged(c') <==> AnyStaged(c))
  {
    forall j | 0 <= j < |c.staged|
      ensures AmongPending(c', |c.pending|, c'.staged[j].p)
    {
      assert AmongPending(c, |c.pending|, c.staged[j].p);
      var i :| 0 <= i < |c.pending| && c.pending[i] == c.staged[j].p;
      assert c'.pending[i] == c'.staged[j].p;
    }
  }

  lemma FlushAllKeeps(h: Hash, s: Sys, s': Sys, p: Pid, ok: bool)
    requires SysInv(h, s) && DoFlushAll(s, s', p, ok)
    ensures SysInv(h, s')
  {
    LocksStay(s, s', p, AfterFlush(s.procs[p].c, s.fs, ok));
    FlushAllDisk(h, s, s', p, ok);
  }

  lemma FlushAllDisk(h: Hash, s: Sys, s': Sys, p: Pid, ok: bool)
    requires |s.slots| == SLOTS && FsInv(s.fs) && NoLostWrite(s) && DoFlushAll(s, s', p, ok)
    requires CommitterInv(h, s, p, s.procs[p])
    ensures FsInv(s'.fs) && NoLostWrite(s') && CommitterInv(h, s', p, s'.procs[p])
  {
    var c := s.procs[p].c;
    if ok {
      FlushKeeps(s.fs);
      TempsOnly(s, s');
      FlushedPlace(h, s, s', p, c);
    } else {
      OldOrNewStarts(s.fs, c.(before := s.fs));
    }
  }

  lemma FlushedPlace(h: Hash, s: Sys, s': Sys, p: Pid, c: Commit)
    requires |s.slots| == SLOTS && FsInv(s.fs) && s'.seg == s.seg && s'.slots == s.slots && s'.fs == Flush(s.fs) && s'.strays == s.strays
    requires CommitterInv(h, s, p, Flushing(c))
    ensures CommitterInv(h, s', p, AfterFlush(c, s.fs, true))
  {
    var c' := c.(flushed := true, before := Flush(s.fs));
    FlushKeeps(s.fs);
    OldOrNewStarts(s'.fs, c');
    StagedElsewhere(c, c');
  }

  lemma DiscardOneKeeps(h: Hash, s: Sys, s': Sys, p: Pid, removed: bool)
    requires SysInv(h, s) && DoDiscardOne(s, s', p, removed)
    ensures SysInv(h, s')
  {
    var (c, n) := (s.procs[p].c, s.procs[p].n);
    LocksStay(s, s', p, if n + 1 == |c.staged| then Returning(c, false) else Discarding(c, n + 1));
    if c.staged[n].tmp && removed {
      TempNotKey(p, c.staged[n].p.key);
      UnlinkTemp(s.fs, TempName(p, c.staged[n].p.key));
      OldOrNewKept(s.fs, s'.fs, c, c);
    }
    TempsOnly(s, s');
  }

  lemma PublishOneKeeps(h: Hash, s: Sys, s': Sys, p: Pid, ok: bool, removed: bool)
    requires SysInv(h, s) && DoPublishOne(s, s', p, ok, removed)
    ensures SysInv(h, s')
  {
    PublishLocks(s, s', p, ok, removed);
    PublishDisk(h, s, s', p, ok, removed);
  }

  lemma PublishLocks(s: Sys, s': Sys, p: Pid, ok: bool, removed: bool)
    requires |s.fs.dirs| > 0 && Locks(s) && DoPublishOne(s, s', p, ok, removed)
    ensures Locks(s') && s'.committer == Some(p) && !Clearing(s) && !Clearing(s')
  {
    var (c, n) := (s.procs[p].c, s.procs[p].n);
    LocksStay(s, s', p, Publishing(PublishResult(c, n, ok), n + 1));
  }

  lemma PublishDisk(h: Hash, s: Sys, s': Sys, p: Pid, ok: bool, removed: bool)
    requires |s.slots| == SLOTS && FsInv(s.fs) && NoLostWrite(s) && DoPublishOne(s, s', p, ok, removed)
    requires CommitterInv(h, s, p, s.procs[p])
    ensures FsInv(s'.fs) && NoLostWrite(s') && CommitterInv(h, s', p, s'.procs[p])
  {
    var (c, n) := (s.procs[p].c, s.procs[p].n);
    PublishKeepsDisk(h, s, p, c, n, ok, removed);
    PublishNoLost(h, s, s', p, c, n, ok, removed);
    PublishPlace(h, s, s', p, c, n, ok, removed);
  }

  lemma PublishNoLost(h: Hash, s: Sys, s': Sys, p: Pid, c: Commit, n: nat, ok: bool, removed: bool)
    requires |s.slots| == SLOTS && FsInv(s.fs) && NoLostWrite(s) && s'.seg == s.seg && s'.strays == s.strays
    requires CommitterInv(h, s, p, Publishing(c, n)) && n < |c.staged|
    requires ok ==> CanPublish(s.fs, p, c.staged[n])
    requires s'.fs == PublishFs(s.fs, p, c.staged[n], ok, removed) && |s'.fs.dirs| > 0
    ensures NoLostWrite(s')
  {
    PublishKeepsDisk(h, s, p, c, n, ok, removed);
    StagedKey(h, s, c, n);
    if !ok {
      SameKeysLast(s.fs, s'.fs);
    }
    assert forall k :: Adrift(s', k) <==> Adrift(s, k);
  }

  lemma PublishPlace(h: Hash, s: Sys, s': Sys, p: Pid, c: Commit, n: nat, ok: bool, removed: bool)
    requires |s.slots| == SLOTS && FsInv(s.fs) && s'.seg == s.seg && s'.slots == s.slots && s'.strays == s.strays && |s'.fs.dirs| > 0
    requires CommitterInv(h, s, p, Publishing(c, n)) && n < |c.staged|
    requires ok ==> CanPublish(s.fs, p, c.staged[n])
    requires s'.fs == PublishFs(s.fs, p, c.staged[n], ok, removed)
    ensures CommitterInv(h, s', p, Publishing(PublishResult(c, n, ok), n + 1))
  {
    PublishKeepsTemps(h, s, p, c, n, ok, removed);
    PublishedNext(h, s, s', p, c, n, ok, removed);
    var c' := PublishResult(c, n, ok);
    assert AnyStaged(c') ==> AnyStaged(c);
    forall j | 0 <= j < |c'.pending|
      ensures Adrift(s', c'.pending[j].key)
    {
      assert Adrift(s, c.pending[j].key);
    }
  }

  lemma PublishedNext(h: Hash, s: Sys, s': Sys, p: Pid, c: Commit, n: nat, ok: bool, removed: bool)
    requires |s.slots| == SLOTS && FsInv(s.fs) && s'.seg == s.seg && s'.slots == s.slots && |s'.fs.dirs| > 0
    requires CommitterInv(h, s, p, Publishing(c, n)) && n < |c.staged|
    requires ok ==> CanPublish(s.fs, p, c.staged[n])
    requires s'.fs == PublishFs(s.fs, p, c.staged[n], ok, removed)
    ensures Published(h, s', PublishResult(c, n, ok), n + 1)
  {
    PublishKeepsDisk(h, s, p, c, n, ok, removed);
    PublishList(c, n, ok);
    PublishedKeys(h, s, c, n);
    StagedKey(h, s, c, n);
    PublishedOnDisk(s.fs, s'.fs, c, n, ok);
    forall j | 0 <= j < |c.pending|
      ensures Tracks(h, s', c.pending[j])
    {
      assert Tracks(h, s, c.pending[j]);
    }
  }

  lemma PublishedOnDisk(fs: Fs, fs': Fs, c: Commit, n: nat, ok: bool)
    requires n < |c.staged| && ValidKey(c.staged[n].p.key)
    requires if ok then KeyChanged(fs, fs', c.staged[n].p.key, c.staged[n].p.val) else SameKeys(fs, fs')
    requires forall j | 0 <= j < |c.done| :: c.done[j].key != c.staged[n].p.key && ValidKey(c.done[j].key)
    requires |fs.dirs| > 0 && DoneOnDisk(fs, c) && OldOrNew(fs, c)
    ensures DoneOnDisk(fs', PublishResult(c, n, ok)) && OldOrNew(fs', PublishResult(c, n, ok))
  {
    var c' := PublishResult(c, n, ok);
    if ok {
      OldOrNewPublished(fs, fs', c, c', c.staged[n].p);
    } else {
      SameKeysLast(fs, fs');
      OldOrNewKept(fs, fs', c, c');
    }
  }

  /** Every published entry is one of the pending ones. */
  lemma PublishedKeys(h: Hash, s: Sys, c: Commit, n: nat)
    requires |s.slots| == SLOTS && AllTrack(h, s, c) && StagedFrom(c, |c.pending|) && DoneFrom(c, n)
    ensures forall j | 0 <= j < |c.done| :: Tracks(h, s, c.done[j])
  {
    forall j | 0 <= j < |c.done|
      ensures Tracks(h, s, c.done[j])
    {
      assert AmongStaged(c, n, c.done[j]);
      var i :| 0 <= i < n && i < |c.staged| && c.staged[i].p == c.done[j];
      assert AmongPending(c, |c.pending|, c.staged[i].p);
    }
  }

  lemma PublishEndKeeps(h: Hash, s: Sys, s': Sys, p: Pid)
    requires SysInv(h, s) && DoPublishEnd(s, s', p)
    ensures SysInv(h, s')
  {
    var c := s.procs[p].c;
    LocksStay(s, s', p, if c.done == [] then Syncing(c) else RetireWait(c));
  }

  /** A flag is retired only when memory still holds what was published, which is what the disk holds. */
  lemma RetireOneKeeps(h: Hash, s: Sys, s': Sys, p: Pid)
    requires SysInv(h, s) && DoRetireOne(s, s', p)
    ensures SysInv(h, s')
  {
    RetireLocks(s, s', p);
    RetireSeg(s, s', p);
    RetireMemory(h, s, s', p);
  }

  lemma RetireLocks(s: Sys, s': Sys, p: Pid)
    requires |s.slots| == SLOTS && Locks(s) && DoRetireOne(s, s', p)
    ensures Locks(s') && !Clearing(s')
  {
    var (c, n) := (s.procs[p].c, s.procs[p].n);
    LocksStay(s, s', p, if n == |c.done| then Retired(c) else Retiring(c, n + 1));
  }

  lemma RetireSeg(s: Sys, s': Sys, p: Pid)
    requires SegOk(s) && DoRetireOne(s, s', p)
    ensures SegOk(s')
  {
  }

  lemma RetireMemory(h: Hash, s: Sys, s': Sys, p: Pid)
    requires |s.slots| == SLOTS && |s.fs.dirs| > 0 && NoLostWrite(s) && DoRetireOne(s, s', p)
    requires CommitterInv(h, s, p, s.procs[p])
    ensures s'.slots == s.slots && s'.fs == s.fs && NoLostWrite(s') && CommitterInv(h, s', p, s'.procs[p])
  {
    var (c, n) := (s.procs[p].c, s.procs[p].n);
    if n < |c.done| {
      PublishedKeys(h, s, c, |c.staged|);
      assert Tracks(h, s, c.done[n]) && FileOf(s.fs, c.done[n].key) == c.done[n].val;
      RetireData(h, s, s', c, c.done[n]);
    }
  }

  lemma RetireData(h: Hash, s: Sys, s': Sys, c: Commit, q: Pending)
    requires |s.slots| == SLOTS && s'.slots == s.slots && |s.fs.dirs| > 0 && s'.fs == s.fs && s'.strays == s.strays
    requires s'.seg == if s.slots[SlotOf(q.hash)] == q.seen then RetireMap(s.seg, q.key) else s.seg
    requires Tracks(h, s, q) && FileOf(s.fs, q.key) == q.val
    requires AllTrack(h, s, c) && NoLostWrite(s)
    ensures AllTrack(h, s', c) && NoLostWrite(s')
  {
    assert forall k :: SegVal(s'.seg, k) == SegVal(s.seg, k);
    forall k | ValidKey(k) && !Adrift(s', k)
      ensures FileOf(s'.fs, k) == SegVal(s'.seg, k)
    {
      if k != q.key {
        assert !Adrift(s, k);
      }
    }
    forall j | 0 <= j < |c.pending|
      ensures Tracks(h, s', c.pending[j])
    {
      assert Tracks(h, s, c.pending[j]);
    }
  }

  lemma SyncAllKeeps(h: Hash, s: Sys, s': Sys, p: Pid, ok: bool)
    requires SysInv(h, s) && DoSyncAll(s, s', p, ok)
    ensures SysInv(h, s')
  {
    var pc := s.procs[p];
    LocksStay(s, s', p, AfterSync(pc, ok));
    SyncAllDisk(h, s, s', p, ok);
  }

  lemma SyncAllDisk(h: Hash, s: Sys, s': Sys, p: Pid, ok: bool)
    requires |s.slots| == SLOTS && FsInv(s.fs) && NoLostWrite(s) && DoSyncAll(s, s', p, ok)
    requires CommitterInv(h, s, p, s.procs[p])
    ensures FsInv(s'.fs) && NoLostWrite(s') && CommitterInv(h, s', p, s'.procs[p])
  {
    var pc := s.procs[p];
    if ok {
      FlushKeeps(s.fs);
      TempsOnly(s, s');
      if pc.Syncing? {
        OldOrNewFlushed(s.fs, pc.c);
      }
    }
    if pc.Syncing? && pc.c.ok && ok {
      forall j | 0 <= j < |pc.c.pending|
        ensures ValidKey(pc.c.pending[j].key) && FileOf(s'.fs, pc.c.pending[j].key) == pc.c.pending[j].val
      {
        assert Tracks(h, s, pc.c.pending[j]);
        assert pc.c.done[j] == pc.c.pending[j];
      }
    }
  }

  lemma ClearSegKeeps(h: Hash, s: Sys, s': Sys, p: Pid, listed: bool)
    requires SysInv(h, s) && DoClearSeg(s, s', p, listed)
    ensures SysInv(h, s')
  {
    LocksStay(s, s', p, s'.procs[p]);
  }

  lemma RemoveOneKeeps(h: Hash, s: Sys, s': Sys, p: Pid, name: Name, ok: bool)
    requires SysInv(h, s) && DoRemoveOne(s, s', p, name, ok)
    ensures SysInv(h, s')
  {
    if s.procs[p].left == {} {
      RemoveLocks(s, s', p, name, ok);
    } else {
      RemoveFileKeeps(h, s, s', p, name, ok);
    }
  }

  lemma RemoveFileKeeps(h: Hash, s: Sys, s': Sys, p: Pid, name: Name, ok: bool)
    requires SysInv(h, s) && DoRemoveOne(s, s', p, name, ok) && s.procs[p].left != {}
    ensures SysInv(h, s')
  {
    LocksStay(s, s', p, s'.procs[p]);
    if ok {
      RemoveKeepsFs(s.fs, name);
    }
  }

  lemma RemoveKeepsFs(fs: Fs, name: Name)
    requires FsInv(fs)
    ensures FsInv(Unlink(fs, name))
  {
    if ValidKey(name) {
      UnlinkKey(fs, name);
    } else {
      UnlinkTemp(fs, name);
    }
  }

  lemma RemoveLocks(s: Sys, s': Sys, p: Pid, name: Name, ok: bool)
    requires |s.fs.dirs| > 0 && Locks(s) && DoRemoveOne(s, s', p, name, ok) && s.procs[p].left == {}
    ensures Locks(s') && !Clearing(s')
  {
  }

  lemma LockStepKeeps(h: Hash, s: Sys, s': Sys, step: Step)
    requires SysInv(h, s) && Next(h, s, s', step)
    requires step.Start? || step.TakeWriter? || step.TakeCommit? || step.DropWriter?
    ensures SysInv(h, s')
  {
    if step.Start? { StartKeeps(h, s, s', step.p, step.pc); }
    else if step.TakeWriter? { TakeWriterKeeps(h, s, s', step.p); }
    else if step.TakeCommit? { TakeCommitKeeps(h, s, s', step.p); }
    else { DropWriterKeeps(h, s, s', step.p); }
  }

  lemma EndStepKeeps(h: Hash, s: Sys, s': Sys, step: Step)
    requires SysInv(h, s) && Next(h, s, s', step)
    requires step.Finish? || step.Die? || step.StageEnd? || step.PublishEnd?
    ensures SysInv(h, s')
  {
    if step.Finish? { FinishKeeps(h, s, s', step.p); }
    else if step.Die? { DieKeeps(h, s, s', step.p); }
    else if step.StageEnd? { StageEndKeeps(h, s, s', step.p); }
    else { PublishEndKeeps(h, s, s', step.p); }
  }

  lemma MemoryStepKeeps(h: Hash, s: Sys, s': Sys, step: Step)
    requires SysInv(h, s) && Next(h, s, s', step)
    requires step.Act? || step.Snap? || step.RetireOne? || step.ClearSeg?
    ensures SysInv(h, s')
  {
    if step.Act? { ActKeeps(h, s, s', step.p, step.ok); }
    else if step.Snap? { SnapKeeps(h, s, s', step.p, step.pending); }
    else if step.RetireOne? { RetireOneKeeps(h, s, s', step.p); }
    else { ClearSegKeeps(h, s, s', step.p, step.listed); }
  }

  lemma DiskStepKeeps(h: Hash, s: Sys, s': Sys, step: Step)
    requires SysInv(h, s) && Next(h, s, s', step)
    requires step.StageOne? || step.DiscardOne? || step.PublishOne? || step.RemoveOne?
    ensures SysInv(h, s')
  {
    if step.StageOne? { StageOneKeeps(h, s, s', step.p, step.ok, step.left); }
    else if step.DiscardOne? { DiscardOneKeeps(h, s, s', step.p, step.removed); }
    else if step.PublishOne? { PublishOneKeeps(h, s, s', step.p, step.ok, step.removed); }
    else { RemoveOneKeeps(h, s, s', step.p, step.name, step.ok); }
  }

  lemma FlushStepKeeps(h: Hash, s: Sys, s': Sys, step: Step)
    requires SysInv(h, s) && Next(h, s, s', step) && (step.FlushAll? || step.SyncAll?)
    ensures SysInv(h, s')
  {
    if step.FlushAll? { FlushAllKeeps(h, s, s', step.p, step.ok); }
    else { SyncAllKeeps(h, s, s', step.p, step.ok); }
  }

  lemma NextKeeps(h: Hash, s: Sys, s': Sys, step: Step)
    requires SysInv(h, s) && Next(h, s, s', step)
    ensures SysInv(h, s')
  {
    if step.Start? || step.TakeWriter? || step.TakeCommit? || step.DropWriter? {
      LockStepKeeps(h, s, s', step);
    } else if step.Finish? || step.Die? || step.StageEnd? || step.PublishEnd? {
      EndStepKeeps(h, s, s', step);
    } else if step.Act? || step.Snap? || step.RetireOne? || step.ClearSeg? {
      MemoryStepKeeps(h, s, s', step);
    } else if step.FlushAll? || step.SyncAll? {
      FlushStepKeeps(h, s, s', step);
    } else {
      DiskStepKeeps(h, s, s', step);
    }
  }

  // -------------------------------------------------------- whole runs --

  ghost predicate IsRun(h: Hash, states: seq<Sys>, steps: seq<Step>) {
    && |states| == |steps| + 1 && Init(states[0])
    && forall t | 0 <= t < |steps| :: StepsAt(h, states, steps, t)
  }

  /** `states[t]` becomes `states[t + 1]` by `steps[t]`. */
  ghost predicate StepsAt(h: Hash, states: seq<Sys>, steps: seq<Step>, t: nat) {
    t < |steps| && t + 1 < |states| && Next(h, states[t], states[t + 1], steps[t])
  }

  lemma {:induction false} RunKeeps(h: Hash, states: seq<Sys>, steps: seq<Step>, t: nat)
    requires IsRun(h, states, steps) && t < |states|
    ensures SysInv(h, states[t])
  {
    if t == 0 {
      InitInv(h, states[0]);
    } else {
      RunKeeps(h, states, steps, t - 1);
      assert StepsAt(h, states, steps, t - 1);
      NextKeeps(h, states[t - 1], states[t], steps[t - 1]);
    }
  }

  /**
   * No write is lost. In every reachable state with no clear in progress, each storable key without a dirty flag, and
   * whose file is no stray, has on disk exactly what it has in memory; and every dirty key is storable, so none can make
   * commits fail for ever.
   */
  lemma NothingLost(h: Hash, states: seq<Sys>, steps: seq<Step>, t: nat, k: Key)
    requires IsRun(h, states, steps) && t < |states|
    ensures |states[t].fs.dirs| > 0
    ensures !Clearing(states[t]) && ValidKey(k) && !Dirty(states[t].seg, k) && k !in states[t].strays ==>
              FileOf(states[t].fs, k) == SegVal(states[t].seg, k)
    ensures Dirty(states[t].seg, k) ==> ValidKey(k)
  {
    RunKeeps(h, states, steps, t);
  }

  /** The commit that a process is publishing or has published, until it returns. */
  function PublishingCommit(pc: Pc): Option<Commit> {
    if pc.Discarding? || pc.Publishing? || pc.RetireWait? || pc.Retiring? || pc.Retired? || pc.Syncing? || pc.Returning? then
      Some(pc.c)
    else
      None
  }

  function Left(after: map<Name, Bytes>, k: Key): Option<Bytes> {
    if k in after then Some(after[k]) else None
  }

  /** A crash could have left the key's file so. */
  ghost predicate CouldLeave(fs: Fs, k: Key, v: Option<Bytes>) {
    exists after :: Survives(fs, after) && Left(after, k) == v
  }

  lemma HeldCouldBeLeft(fs: Fs, k: Key, v: Option<Bytes>)
    requires FsInv(fs) && HasHeld(fs, k, v)
    ensures CouldLeave(fs, k, v)
  {
    var i :| 0 <= i < |fs.dirs| && FileIn(fs, i, k) == v;
    var after := map n | n in fs.dirs[i] :: fs.data[fs.dirs[i][n]];
    forall n
      ensures NameSurvives(fs, after, n)
    {
      assert SurvivesAs(fs, after, n, i);
    }
    assert Survives(fs, after) && Left(after, k) == v;
  }

  /**
   * A crash in any reachable state leaves every key's file whole: it is what the key had at some moment since the last
   * flush. While a commit is publishing, and until it has returned, it is what a crash just before the publishing could
   * have left, or the key's value in the snapshot, absent for a deletion.
   */
  lemma CrashIsAtomic(h: Hash, states: seq<Sys>, steps: seq<Step>, t: nat, after: map<Name, Bytes>, k: Key) returns (i: nat)
    requires IsRun(h, states, steps) && t < |states|
    requires Survives(states[t].fs, after) && ValidKey(k)
    ensures var s := states[t];
            var left := if k in after then Some(after[k]) else None;
            && i < |s.fs.dirs| && left == FileIn(s.fs, i, k)
            && forall p | p in s.procs && PublishingCommit(s.procs[p]).Some? ::
                 var c := PublishingCommit(s.procs[p]).value;
                 CouldLeave(c.before, k, left) || PublishedAs(c, k, left)
  {
    RunKeeps(h, states, steps, t);
    var s := states[t];
    i := CrashLeavesWholeFiles(s.fs, after, k);
    forall p | p in s.procs && PublishingCommit(s.procs[p]).Some?
      ensures CouldLeave(PublishingCommit(s.procs[p]).value.before, k, FileIn(s.fs, i, k))
              || PublishedAs(PublishingCommit(s.procs[p]).value, k, FileIn(s.fs, i, k))
    {
      PublishingOldOrNew(h, s, p);
      if HasHeld(PublishingCommit(s.procs[p]).value.before, k, FileIn(s.fs, i, k)) {
        HeldCouldBeLeft(PublishingCommit(s.procs[p]).value.before, k, FileIn(s.fs, i, k));
      }
    }
  }

  lemma PublishingOldOrNew(h: Hash, s: Sys, p: Pid)
    requires SysInv(h, s) && p in s.procs && PublishingCommit(s.procs[p]).Some?
    ensures OldOrNew(s.fs, PublishingCommit(s.procs[p]).value)
  {
    assert HoldsCommit(s.procs[p]) && s.committer == Some(p);
  }

  /** When a commit returns true, everything in its snapshot survives any crash. */
  lemma TrueMeansDurable(h: Hash, states: seq<Sys>, steps: seq<Step>, t: nat, p: Pid, after: map<Name, Bytes>, j: nat)
    requires IsRun(h, states, steps) && t < |states|
    requires p in states[t].procs && states[t].procs[p].Returning? && states[t].procs[p].result
    requires j < |states[t].procs[p].c.pending|
    requires Survives(states[t].fs, after)
    ensures var q := states[t].procs[p].c.pending[j];
            q.val == if q.key in after then Some(after[q.key]) else None
  {
    RunKeeps(h, states, steps, t);
    var q := states[t].procs[p].c.pending[j];
    assert FileOf(states[t].fs, q.key) == q.val && ValidKey(q.key);
    DurableFile(states[t].fs, after, q.key);
  }

  lemma DurableFile(fs: Fs, after: map<Name, Bytes>, k: Key)
    requires FsInv(fs) && |fs.dirs| == 1 && Survives(fs, after)
    requires ValidKey(k)
    ensures FileOf(fs, k) == if k in after then Some(after[k]) else None
  {
    assert NameSurvives(fs, after, k);
    var i :| 0 <= i < |fs.dirs| && SurvivesAs(fs, after, k, i);
  }

  // ------------------------------------------------- clear and progress --

  /** The process is past the removal of the last file of a clear. */
  predicate Cleared(pc: Pc) {
    pc.ClearSync? || pc.ClearReturning?
  }

  predicate HoldsSnapshot(pc: Pc) {
    HoldsCommit(pc) && !pc.SnapWait? && !pc.SnapHold? && !pc.ClearWait2? && !pc.ClearHold? && !pc.ClearFiles? && !Cleared(pc)
  }

  /**
   * While a clear holds the commit lock nobody holds a snapshot taken before it, so no commit can bring a file back:
   * from the moment the clear lets the writer lock go, the only files are those it could not remove.
   */
  lemma ClearStaysCleared(h: Hash, states: seq<Sys>, steps: seq<Step>, t: nat, p: Pid, k: Key)
    requires IsRun(h, states, steps) && t < |states|
    requires p in states[t].procs && (states[t].procs[p].ClearFiles? || Cleared(states[t].procs[p]))
    ensures forall q | q in states[t].procs :: !HoldsSnapshot(states[t].procs[q])
    ensures |states[t].fs.dirs| > 0
    ensures Cleared(states[t].procs[p]) && k !in states[t].strays ==> FileOf(states[t].fs, k) == None
  {
    RunKeeps(h, states, steps, t);
  }

  /** Once every removal has been tried the store is empty in memory, and on disk but for what could not be removed. */
  lemma ClearEmpties(h: Hash, s: Sys, s': Sys, p: Pid, name: Name, ok: bool, k: Key)
    requires SysInv(h, s) && DoRemoveOne(s, s', p, name, ok) && s.procs[p].left == {}
    ensures s'.seg == map[] && |s'.fs.dirs| > 0 && Cleared(s'.procs[p]) && s'.strays == Dir(s'.fs).Keys
    ensures k !in s'.strays ==> FileOf(s'.fs, k) == None
  {
  }

  predicate Blocked(s: Sys, p: Pid)
    requires p in s.procs
  {
    (WaitsForWriter(s.procs[p]) && s.writer.Some?) || (WaitsForCommit(s.procs[p]) && s.committer.Some?)
  }

  /** A snapshot of what is owed among `keys`. */
  lemma {:induction false} SnapshotExists(h: Hash, s: Sys, keys: set<Key>) returns (pending: seq<Pending>)
    requires |s.slots| == SLOTS && |s.fs.dirs| > 0 && keys <= s.seg.Keys
    ensures forall p :: p in pending <==> p.key in keys && OwedNow(h, s, p)
    ensures forall a, b | 0 <= a < b < |pending| :: pending[a].key != pending[b].key
    decreases |keys|
  {
    pending := [];
    if keys != {} {
      var k :| k in keys;
      var rest := SnapshotExists(h, s, keys - {k});
      var p := Pending(k, s.seg[k].val, h(k), s.slots[SlotOf(h(k))]);
      pending := if OwedNow(h, s, p) then rest + [p] else rest;
      assert forall a | 0 <= a < |rest| :: rest[a] in rest;
    }
  }

  /** The process is within the list it is working through. */
  predicate Placed(pc: Pc) {
    && (pc.Staging? ==> pc.n <= |pc.c.pending|)
    && (pc.Discarding? ==> pc.n < |pc.c.staged|)
    && (pc.Publishing? ==> pc.n <= |pc.c.staged|)
    && (pc.Retiring? ==> pc.n <= |pc.c.done|)
  }

  lemma PlacedInRun(h: Hash, s: Sys, p: Pid)
    requires SysInv(h, s) && p in s.procs
    ensures Placed(s.procs[p]) && |s.slots| == SLOTS && |s.fs.dirs| > 0
  {
    if HoldsCommit(s.procs[p]) {
      assert s.committer == Some(p);
    }
  }

  /** A process that waits for no lock somebody holds has a step to make. */
  lemma UnblockedCanStep(h: Hash, s: Sys, p: Pid) returns (step: Step, s': Sys)
    requires SysInv(h, s) && p in s.procs && !Blocked(s, p)
    ensures step.p == p && Next(h, s, s', step)
  {
    PlacedInRun(h, s, p);
    var pc := s.procs[p];
    if WaitsForWriter(pc) {
      step, s' := TakeWriter(p), At(s, p, AfterWriter(pc)).(writer := Some(p));
    } else if WaitsForCommit(pc) {
      step, s' := TakeCommit(p), At(s, p, if pc.CommitWait? then SnapWait else ClearWait2).(committer := Some(p));
    } else if HoldsWriter(pc) {
      step, s' := WriterCanStep(h, s, p);
    } else {
      step, s' := CommitterCanStep(h, s, p);
    }
  }

  lemma WriterCanStep(h: Hash, s: Sys, p: Pid) returns (step: Step, s': Sys)
    requires p in s.procs && Placed(s.procs[p]) && |s.slots| == SLOTS && |s.fs.dirs| > 0
    requires HoldsWriter(s.procs[p])
    ensures step.p == p && Next(h, s, s', step)
  {
    match s.procs[p]
    case SetHold(op) => step, s' := Act(p, true), At(ActOn(h, s, op, true), p, SetDone);
    case SetDone => step, s' := DropWriter(p), s.(writer := None, procs := s.procs - {p});
    case SnapHold =>
      var pending := SnapshotExists(h, s, s.seg.Keys);
      step, s' := Snap(p, pending), At(s, p, SnapDone(Commit(pending, [], [], true, false, s.fs)));
    case SnapDone(c) => step, s' := DropWriter(p), At(s, p, Staging(c, 0)).(writer := None);
    case Retiring(c, n) =>
      step := RetireOne(p);
      s' := if n == |c.done| then At(s, p, Retired(c))
            else At(s, p, Retiring(c, n + 1)).(
                   seg := if s.slots[SlotOf(c.done[n].hash)] == c.done[n].seen then RetireMap(s.seg, c.done[n].key) else s.seg);
    case Retired(c) => step, s' := DropWriter(p), At(s, p, Syncing(c)).(writer := None);
    case ClearHold =>
      step := ClearSeg(p, true);
      s' := At(s, p, ClearFiles(Dir(s.fs).Keys, true)).(seg := map[], slots := NextEvens(s.slots));
    case ClearFiles(left, listed) =>
      if left == {} {
        step, s' := RemoveOne(p, [], true), At(s, p, ClearSync(listed)).(writer := None, strays := Dir(s.fs).Keys);
      } else {
        var name :| name in left;
        step, s' := RemoveOne(p, name, true), At(s, p, ClearFiles(left - {name}, listed)).(fs := Unlink(s.fs, name));
      }
  }

  lemma CommitterCanStep(h: Hash, s: Sys, p: Pid) returns (step: Step, s': Sys)
    requires p in s.procs && Placed(s.procs[p]) && |s.slots| == SLOTS && |s.fs.dirs| > 0
    requires !HoldsWriter(s.procs[p]) && !WaitsForWriter(s.procs[p]) && !WaitsForCommit(s.procs[p])
    ensures step.p == p && Next(h, s, s', step)
  {
    match s.procs[p]
    case Staging(c, n) =>
      if n < |c.pending| {
        var q := c.pending[n];
        step, s' := StageOne(p, false, None), At(s, p, Staging(StageResult(c, n, false), n + 1)).(
          fs := if q.val.None? then s.fs else Unlink(s.fs, TempName(p, q.key)));
      } else {
        step, s' := StageEnd(p), At(s, p, AfterStaging(c, s.fs));
      }
    case Flushing(c) => step, s' := FlushAll(p, false), At(s, p, AfterFlush(c, s.fs, false));
    case Discarding(c, n) =>
      step, s' := DiscardOne(p, false), At(s, p, if n + 1 == |c.staged| then Returning(c, false) else Discarding(c, n + 1));
    case Publishing(c, n) =>
      if n < |c.staged| {
        step, s' := PublishOne(p, false, false), At(s, p, Publishing(PublishResult(c, n, false), n + 1));
      } else {
        step, s' := PublishEnd(p), At(s, p, if c.done == [] then Syncing(c) else RetireWait(c));
      }
    case Syncing(c) => step, s' := SyncAll(p, false), At(s, p, Returning(c, false));
    case ClearSync(_) => step, s' := SyncAll(p, false), At(s, p, ClearReturning(false));
    case Returning(c, result) => step, s' := Finish(p), s.(committer := None, procs := s.procs - {p});
    case ClearReturning(result) => step, s' := Finish(p), s.(committer := None, procs := s.procs - {p});
  }

  /** No reachable state has every process blocked on the two locks: some process always has a step to make. */
  lemma NoDeadlock(h: Hash, states: seq<Sys>, steps: seq<Step>, t: nat) returns (step: Step, s': Sys)
    requires IsRun(h, states, steps) && t < |states|
    requires states[t].procs != map[]
    ensures step.p in states[t].procs && Next(h, states[t], s', step)
  {
    RunKeeps(h, states, steps, t);
    var s := states[t];
    var q :| q in s.procs;
    if WaitsForCommit(s.procs[q]) && s.committer.Some? {
      q := s.committer.value;
    }
    if WaitsForWriter(s.procs[q]) && s.writer.Some? {
      q := s.writer.value;
    }
    step, s' := UnblockedCanStep(h, s, q);
  }
}
