/**
 * Any number of attached processes setting, unsetting, clearing and committing, one step at a time, over the map the
 * segment stands for and a filesystem that may crash. The writer lock and the commit lock are released on death.
 *
 * An operation on the segment is one step here: the writer lock is held for the whole of it, and what it does to the
 * map is proved of the segment itself in `MapRefinement`.
 */
module CommitProtocol {
  import opened Layout
  import opened Index
  import opened Operations
  import opened MapRefinement
  import opened Names
  import opened FileSystem

  type Pid = nat

  datatype SegOp = Set(key: Key, val: Bytes) | Unset(key: Key)

  /** A value staged in its temporary file, or a deletion, which stages nothing. */
  datatype Staged = Staged(p: Pending, tmp: bool)

  /**
   * A commit under way: what it owes, what it has staged, what it has published, whether all went well, and whether what
   * it staged has been flushed. `before` is the filesystem as it was just before anything was published.
   */
  datatype Commit = Commit(
    pending: seq<Pending>,
    staged: seq<Staged>,
    done: seq<Pending>,
    ok: bool,
    flushed: bool,
    before: Fs)

  datatype Pc =
    | SetWait(op: SegOp)
    | SetHold(op: SegOp)
    | SetDone
    | CommitWait
    | SnapWait
    | SnapHold
    | SnapDone(c: Commit)
    | Staging(c: Commit, n: nat)
    | Flushing(c: Commit)
    | Discarding(c: Commit, n: nat)
    | Publishing(c: Commit, n: nat)
    | RetireWait(c: Commit)
    | Retiring(c: Commit, n: nat)
    | Retired(c: Commit)
    | Syncing(c: Commit)
    | Returning(c: Commit, result: bool)
    | ClearWait
    | ClearWait2
    | ClearHold
    | ClearFiles(left: set<Name>, listed: bool)
    | ClearSync(listed: bool)
    | ClearReturning(result: bool)

  predicate HoldsWriter(pc: Pc) {
    pc.SetHold? || pc.SetDone? || pc.SnapHold? || pc.SnapDone? || pc.Retiring? || pc.Retired? || pc.ClearHold? || pc.ClearFiles?
  }

  predicate HoldsCommit(pc: Pc) {
    !pc.SetWait? && !pc.SetHold? && !pc.SetDone? && !pc.CommitWait? && !pc.ClearWait?
  }

  predicate WaitsForWriter(pc: Pc) {
    pc.SetWait? || pc.SnapWait? || pc.RetireWait? || pc.ClearWait2?
  }

  predicate WaitsForCommit(pc: Pc) {
    pc.CommitWait? || pc.ClearWait?
  }

  /**
   * The map, its counters, who holds the locks, where each process is, and the disk. `strays` are the names whose files
   * need not be what memory holds: files that others have changed, and files that a clear could not remove.
   */
  datatype Sys = Sys(
    seg: map<Key, Cell>,
    slots: seq<nat>,
    writer: Option<Pid>,
    committer: Option<Pid>,
    procs: map<Pid, Pc>,
    fs: Fs,
    strays: set<Name>)

  function SegVal(seg: map<Key, Cell>, key: Key): Option<Bytes> {
    if key in seg then seg[key].val else None
  }

  predicate Dirty(seg: map<Key, Cell>, key: Key) {
    key in seg && seg[key].dirty
  }

  // -------------------------------------------------------------- steps --

  datatype Step =
    | Start(p: Pid, pc: Pc)
    | TakeWriter(p: Pid)
    | TakeCommit(p: Pid)
    | DropWriter(p: Pid)
    | Act(p: Pid, ok: bool)
    | Snap(p: Pid, pending: seq<Pending>)
    | StageOne(p: Pid, ok: bool, left: Option<Bytes>)
    | StageEnd(p: Pid)
    | FlushAll(p: Pid, ok: bool)
    | DiscardOne(p: Pid, removed: bool)
    | PublishOne(p: Pid, ok: bool, removed: bool)
    | PublishEnd(p: Pid)
    | RetireOne(p: Pid)
    | SyncAll(p: Pid, ok: bool)
    | ClearSeg(p: Pid, listed: bool)
    | RemoveOne(p: Pid, name: Name, ok: bool)
    | Finish(p: Pid)
    | Die(p: Pid)

  /** What a set or unset does under the writer lock; a set may fail and change nothing. */
  function ActOn(h: Hash, s: Sys, op: SegOp, ok: bool): Sys
    requires |s.slots| == SLOTS
  {
    var x := SlotOf(h(op.key));
    match op
    case Set(key, val) =>
      if !ok || SegVal(s.seg, key) == Some(val) then s
      else s.(seg := s.seg[key := Cell(Some(val), true)], slots := BumpSlot(s.slots, x))
    case Unset(key) =>
      if SegVal(s.seg, key).None? then s
      else s.(seg := s.seg[key := Cell(None, true)], slots := BumpSlot(s.slots, x))
  }

  predicate Differs(fs: Fs, key: Key, len: nat)
    requires |fs.dirs| > 0
  {
    ValidKey(key) && (FileOf(fs, key).None? || |FileOf(fs, key).value| != len)
  }

  /** The disk is owed a write of this entry: it is dirty, or its file is missing or of the wrong length. */
  predicate OwedNow(h: Hash, s: Sys, p: Pending)
    requires |s.slots| == SLOTS && |s.fs.dirs| > 0
  {
    && p.key in s.seg && p.val == s.seg[p.key].val && p.hash == h(p.key) && p.seen == s.slots[SlotOf(h(p.key))]
    && (s.seg[p.key].dirty || (p.val.Some? && Differs(s.fs, p.key, |p.val.value|)))
  }

  /** The snapshot's contract: everything owed, each key once. */
  ghost predicate IsSnapshot(h: Hash, s: Sys, pending: seq<Pending>)
    requires |s.slots| == SLOTS && |s.fs.dirs| > 0
  {
    && (forall p :: p in pending <==> OwedNow(h, s, p))
    && (forall a, b | 0 <= a < b < |pending| :: pending[a].key != pending[b].key)
  }

  /** A stage that fails removes its temporary file, or leaves some part of it behind. */
  function StageFs(fs: Fs, tmp: Name, val: Bytes, ok: bool, left: Option<Bytes>): Fs
    requires |fs.dirs| > 0
  {
    if ok then Create(fs, tmp, val)
    else if left.Some? then Create(fs, tmp, left.value)
    else Unlink(fs, tmp)
  }

  function StageResult(c: Commit, n: nat, ok: bool): Commit
    requires n < |c.pending|
  {
    var p := c.pending[n];
    if p.val.None? then c.(staged := c.staged + [Staged(p, false)])
    else if ok then c.(staged := c.staged + [Staged(p, true)])
    else c.(ok := false)
  }

  predicate AnyStaged(c: Commit) {
    exists j | 0 <= j < |c.staged| :: c.staged[j].tmp
  }

  predicate CanPublish(fs: Fs, p: Pid, e: Staged)
    requires |fs.dirs| > 0
  {
    !e.tmp || TempName(p, e.p.key) in Dir(fs)
  }

  /** Publishing renames the temporary file over the key's, or removes the key's file for a deletion. */
  function PublishFs(fs: Fs, p: Pid, e: Staged, ok: bool, removed: bool): Fs
    requires |fs.dirs| > 0
    requires ok ==> CanPublish(fs, p, e)
  {
    var tmp := TempName(p, e.p.key);
    if e.tmp then
      if ok then Rename(fs, tmp, e.p.key)
      else if removed then Unlink(fs, tmp)
      else fs
    else if ok then Unlink(fs, e.p.key)
    else fs
  }

  function PublishResult(c: Commit, n: nat, ok: bool): Commit
    requires n < |c.staged|
  {
    if ok then c.(done := c.done + [c.staged[n].p]) else c.(ok := false)
  }

  function AfterWriter(pc: Pc): Pc {
    match pc
    case SetWait(op) => SetHold(op)
    case SnapWait => SnapHold
    case RetireWait(c) => Retiring(c, 0)
    case ClearWait2 => ClearHold
    case _ => pc
  }

  /** Process `p` moves on to `pc`. */
  function At(s: Sys, p: Pid, pc: Pc): Sys {
    s.(procs := s.procs[p := pc])
  }

  predicate DoStart(s: Sys, s': Sys, p: Pid, pc: Pc) {
    && p !in s.procs && (pc == CommitWait || pc == ClearWait || (pc.SetWait? && ValidKey(pc.op.key)))
    && s' == At(s, p, pc)
  }

  predicate DoTakeWriter(s: Sys, s': Sys, p: Pid) {
    && p in s.procs && s.writer == None && WaitsForWriter(s.procs[p])
    && s' == At(s, p, AfterWriter(s.procs[p])).(writer := Some(p))
  }

  predicate DoTakeCommit(s: Sys, s': Sys, p: Pid) {
    && p in s.procs && s.committer == None && WaitsForCommit(s.procs[p])
    && s' == At(s, p, if s.procs[p].CommitWait? then SnapWait else ClearWait2).(committer := Some(p))
  }

  predicate DoDropWriter(s: Sys, s': Sys, p: Pid) {
    && p in s.procs
    && match s.procs[p]
       case SetDone => s' == s.(writer := None, procs := s.procs - {p})
       case SnapDone(c) => s' == At(s, p, Staging(c, 0)).(writer := None)
       case Retired(c) => s' == At(s, p, Syncing(c)).(writer := None)
       case _ => false
  }

  predicate DoAct(h: Hash, s: Sys, s': Sys, p: Pid, ok: bool)
    requires |s.slots| == SLOTS
  {
    && p in s.procs && s.procs[p].SetHold?
    && s' == At(ActOn(h, s, s.procs[p].op, ok), p, SetDone)
  }

  ghost predicate DoSnap(h: Hash, s: Sys, s': Sys, p: Pid, pending: seq<Pending>)
    requires |s.slots| == SLOTS && |s.fs.dirs| > 0
  {
    && p in s.procs && s.procs[p].SnapHold? && IsSnapshot(h, s, pending)
    && s' == At(s, p, SnapDone(Commit(pending, [], [], true, false, s.fs)))
  }

  predicate DoStageOne(s: Sys, s': Sys, p: Pid, ok: bool, left: Option<Bytes>)
    requires |s.fs.dirs| > 0
  {
    && p in s.procs && s.procs[p].Staging? && s.procs[p].n < |s.procs[p].c.pending|
    && var (c, n) := (s.procs[p].c, s.procs[p].n);
       var q := c.pending[n];
       s' == At(s, p, Staging(StageResult(c, n, ok), n + 1)).(
               fs := if q.val.None? then s.fs else StageFs(s.fs, TempName(p, q.key), q.val.value, ok, left))
  }

  /** Where a commit goes on once everything is staged, and where once it has asked for the flush. */
  function AfterStaging(c: Commit, fs: Fs): Pc {
    if AnyStaged(c) then Flushing(c) else Publishing(c.(before := fs), 0)
  }

  function AfterFlush(c: Commit, fs: Fs, ok: bool): Pc
    requires |fs.dirs| > 0
  {
    if ok then Publishing(c.(flushed := true, before := Flush(fs)), 0) else Discarding(c.(before := fs), 0)
  }

  predicate DoStageEnd(s: Sys, s': Sys, p: Pid) {
    && p in s.procs && s.procs[p].Staging? && s.procs[p].n == |s.procs[p].c.pending|
    && s' == At(s, p, AfterStaging(s.procs[p].c, s.fs))
  }

  predicate DoFlushAll(s: Sys, s': Sys, p: Pid, ok: bool)
    requires |s.fs.dirs| > 0
  {
    && p in s.procs && s.procs[p].Flushing?
    && s' == At(s, p, AfterFlush(s.procs[p].c, s.fs, ok)).(fs := if ok then Flush(s.fs) else s.fs)
  }

  predicate DoDiscardOne(s: Sys, s': Sys, p: Pid, removed: bool)
    requires |s.fs.dirs| > 0
  {
    && p in s.procs && s.procs[p].Discarding? && s.procs[p].n < |s.procs[p].c.staged|
    && var (c, n) := (s.procs[p].c, s.procs[p].n);
       s' == At(s, p, if n + 1 == |c.staged| then Returning(c, false) else Discarding(c, n + 1)).(
               fs := if c.staged[n].tmp && removed then Unlink(s.fs, TempName(p, c.staged[n].p.key)) else s.fs)
  }

  predicate DoPublishOne(s: Sys, s': Sys, p: Pid, ok: bool, removed: bool)
    requires |s.fs.dirs| > 0
  {
    && p in s.procs && s.procs[p].Publishing? && s.procs[p].n < |s.procs[p].c.staged|
    && var (c, n) := (s.procs[p].c, s.procs[p].n);
       && (ok ==> CanPublish(s.fs, p, c.staged[n]))
       && s' == At(s, p, Publishing(PublishResult(c, n, ok), n + 1)).(fs := PublishFs(s.fs, p, c.staged[n], ok, removed))
  }

  predicate DoPublishEnd(s: Sys, s': Sys, p: Pid) {
    && p in s.procs && s.procs[p].Publishing? && s.procs[p].n == |s.procs[p].c.staged|
    && var c := s.procs[p].c;
       s' == At(s, p, if c.done == [] then Syncing(c) else RetireWait(c))
  }

  ghost predicate DoRetireOne(s: Sys, s': Sys, p: Pid)
    requires |s.slots| == SLOTS
  {
    && p in s.procs && s.procs[p].Retiring? && s.procs[p].n <= |s.procs[p].c.done|
    && var (c, n) := (s.procs[p].c, s.procs[p].n);
       s' == if n == |c.done| then At(s, p, Retired(c))
             else At(s, p, Retiring(c, n + 1)).(
                    seg := if s.slots[SlotOf(c.done[n].hash)] == c.done[n].seen then RetireMap(s.seg, c.done[n].key) else s.seg)
  }

  /** What a clear or a commit returns once its last flush has succeeded or failed. */
  function AfterSync(pc: Pc, ok: bool): Pc
    requires pc.Syncing? || pc.ClearSync?
  {
    if pc.ClearSync? then ClearReturning(pc.listed && ok) else Returning(pc.c, pc.c.ok && ok)
  }

  predicate DoSyncAll(s: Sys, s': Sys, p: Pid, ok: bool)
    requires |s.fs.dirs| > 0
  {
    && p in s.procs && (s.procs[p].Syncing? || s.procs[p].ClearSync?)
    && s' == At(s, p, AfterSync(s.procs[p], ok)).(fs := if ok then Flush(s.fs) else s.fs)
  }

  /** Clearing empties the segment and lists the files, which may fail. */
  predicate DoClearSeg(s: Sys, s': Sys, p: Pid, listed: bool)
    requires |s.fs.dirs| > 0
  {
    && p in s.procs && s.procs[p].ClearHold?
    && s' == At(s, p, ClearFiles(if listed then Dir(s.fs).Keys else {}, listed)).(seg := map[], slots := NextEvens(s.slots))
  }

  /**
   * It tries to remove each file listed, and passes over those it cannot. Having tried them all it lets the writer lock
   * go; the files that are left are nothing that memory holds.
   */
  predicate DoRemoveOne(s: Sys, s': Sys, p: Pid, name: Name, ok: bool)
    requires |s.fs.dirs| > 0
  {
    && p in s.procs && s.procs[p].ClearFiles?
    && var (left, listed) := (s.procs[p].left, s.procs[p].listed);
       if left == {} then s' == At(s, p, ClearSync(listed)).(writer := None, strays := Dir(s.fs).Keys)
       else
         && name in left
         && s' == At(s, p, ClearFiles(left - {name}, listed)).(fs := if ok then Unlink(s.fs, name) else s.fs)
  }

  predicate DoFinish(s: Sys, s': Sys, p: Pid) {
    && p in s.procs && (s.procs[p].Returning? || s.procs[p].ClearReturning?)
    && s' == s.(committer := None, procs := s.procs - {p})
  }

  /** Death anywhere but in the middle of a clear; an operation on the segment is one step, so it is never cut in two. */
  predicate DoDie(s: Sys, s': Sys, p: Pid) {
    && p in s.procs && !s.procs[p].ClearFiles?
    && s' == s.(writer := if s.writer == Some(p) then None else s.writer,
                committer := if s.committer == Some(p) then None else s.committer,
                procs := s.procs - {p})
  }

  ghost predicate Next(h: Hash, s: Sys, s': Sys, step: Step) {
    && |s.slots| == SLOTS && |s.fs.dirs| > 0
    && match step
       case Start(p, pc) => DoStart(s, s', p, pc)
       case TakeWriter(p) => DoTakeWriter(s, s', p)
       case TakeCommit(p) => DoTakeCommit(s, s', p)
       case DropWriter(p) => DoDropWriter(s, s', p)
       case Act(p, ok) => DoAct(h, s, s', p, ok)
       case Snap(p, pending) => DoSnap(h, s, s', p, pending)
       case StageOne(p, ok, left) => DoStageOne(s, s', p, ok, left)
       case StageEnd(p) => DoStageEnd(s, s', p)
       case FlushAll(p, ok) => DoFlushAll(s, s', p, ok)
       case DiscardOne(p, removed) => DoDiscardOne(s, s', p, removed)
       case PublishOne(p, ok, removed) => DoPublishOne(s, s', p, ok, removed)
       case PublishEnd(p) => DoPublishEnd(s, s', p)
       case RetireOne(p) => DoRetireOne(s, s', p)
       case SyncAll(p, ok) => DoSyncAll(s, s', p, ok)
       case ClearSeg(p, listed) => DoClearSeg(s, s', p, listed)
       case RemoveOne(p, name, ok) => DoRemoveOne(s, s', p, name, ok)
       case Finish(p) => DoFinish(s, s', p)
       case Die(p) => DoDie(s, s', p)
  }
}
