/**
 * What a commit comes to: which of its entries it publishes, what becomes of their files and flags, and what it returns.
 * Each follows exactly from which of the calls it made failed.
 */
module CommitOutcome {
  import opened Layout
  import opened Index
  import opened Operations
  import opened MapRefinement
  import opened Names
  import opened FileSystem
  import opened CommitProtocol
  import opened CommitSafety
  import opened CommitTheorem

  /** The commit a process has taken its snapshot for. */
  function CommitOf(pc: Pc): Option<Commit> {
    match pc
    case SnapDone(c) => Some(c)
    case Staging(c, _) => Some(c)
    case Flushing(c) => Some(c)
    case Discarding(c, _) => Some(c)
    case Publishing(c, _) => Some(c)
    case RetireWait(c) => Some(c)
    case Retiring(c, _) => Some(c)
    case Retired(c) => Some(c)
    case Syncing(c) => Some(c)
    case Returning(c, _) => Some(c)
    case _ => None
  }

  /** Process `p` snapshots at step `u` and is still in that commit at `t`. */
  ghost predicate InCommit(states: seq<Sys>, steps: seq<Step>, p: Pid, u: nat, t: nat) {
    && u < t < |states| && |states| == |steps| + 1
    && steps[u].Snap? && steps[u].p == p
    && (forall i | u < i <= t :: p in states[i].procs)
  }

  // -------------------------------------------------- calls that fail --

  /** The entry that a stage or a publish is about. */
  function EntryOf(s: Sys, step: Step): Option<Pending> {
    if step.p !in s.procs then None
    else
      var pc := s.procs[step.p];
      if step.StageOne? && pc.Staging? && pc.n < |pc.c.pending| then Some(pc.c.pending[pc.n])
      else if step.PublishOne? && pc.Publishing? && pc.n < |pc.c.staged| then Some(pc.c.staged[pc.n].p)
      else None
  }

  /** The step is a call that fails for `q`: its own stage or publish, or the flush ahead of all publishing. */
  predicate FailsFor(s: Sys, step: Step, q: Pending) {
    || (step.StageOne? && !step.ok && EntryOf(s, step) == Some(q) && q.val.Some?)
    || (step.PublishOne? && !step.ok && EntryOf(s, step) == Some(q))
    || (step.FlushAll? && !step.ok)
  }

  /** The step is a call that fails. A deletion stages nothing, so staging it cannot. */
  predicate Fails(s: Sys, step: Step) {
    || (step.StageOne? && !step.ok && EntryOf(s, step).Some? && EntryOf(s, step).value.val.Some?)
    || ((step.PublishOne? || step.FlushAll? || step.SyncAll?) && !step.ok)
  }

  /** No call the commit has made has failed for `q`. */
  ghost predicate NoneFailsFor(states: seq<Sys>, steps: seq<Step>, p: Pid, u: nat, t: nat, q: Pending)
    requires t < |states| && |states| == |steps| + 1
  {
    forall i | u < i < t && steps[i].p == p :: !FailsFor(states[i], steps[i], q)
  }

  ghost predicate NoneFails(states: seq<Sys>, steps: seq<Step>, p: Pid, u: nat, t: nat)
    requires t < |states| && |states| == |steps| + 1
  {
    forall i | u < i < t && steps[i].p == p :: !Fails(states[i], steps[i])
  }

  // ------------------------------------------------------ what it returns --

  /** Whether all has gone well is what the commit remembers. */
  ghost predicate Remembers(pc: Pc, well: bool)
    requires CommitOf(pc).Some?
  {
    if pc.Discarding? then !well
    else if pc.Returning? then pc.result <==> well
    else CommitOf(pc).value.ok <==> well
  }

  lemma StepRemembers(h: Hash, s: Sys, s': Sys, step: Step, p: Pid, well: bool)
    requires Next(h, s, s', step) && step.p == p && p in s.procs && p in s'.procs
    requires CommitOf(s.procs[p]).Some? && Remembers(s.procs[p], well)
    ensures CommitOf(s'.procs[p]).Some? && Remembers(s'.procs[p], well && !Fails(s, step))
  {
    if step.StageOne? || step.FlushAll? || step.PublishOne? || step.SyncAll? {
      CallRemembers(h, s, s', step, p, well);
    }
  }

  lemma CallRemembers(h: Hash, s: Sys, s': Sys, step: Step, p: Pid, well: bool)
    requires Next(h, s, s', step) && step.p == p && p in s.procs && p in s'.procs
    requires CommitOf(s.procs[p]).Some? && Remembers(s.procs[p], well)
    requires step.StageOne? || step.FlushAll? || step.PublishOne? || step.SyncAll?
    ensures CommitOf(s'.procs[p]).Some? && Remembers(s'.procs[p], well && !Fails(s, step))
  {
  }

  // -------------------------------------------------- what it publishes --

  /** How far `q` has got, if no call has failed for it; and if one has, that it will get no further. */
  ghost predicate Fate(pc: Pc, q: Pending, well: bool)
    requires CommitOf(pc).Some?
  {
    var c := CommitOf(pc).value;
    var staged := AmongStaged(c, |c.staged|, q);
    match pc
    case SnapDone(_) => well && !staged && q !in c.done
    case Staging(_, n) => q !in c.done && (if AmongPending(c, n, q) then staged <==> well else well && !staged)
    case Flushing(_) => q !in c.done && (staged <==> well)
    case Discarding(_, _) => q !in c.done && !well
    case Publishing(_, n) => if AmongStaged(c, n, q) then q in c.done <==> well else q !in c.done && (staged <==> well)
    case _ => q in c.done <==> well
  }

  /** The entries of a snapshot, and of what is staged, are all of different keys. */
  ghost predicate Distinct(c: Commit) {
    && (forall a, b | 0 <= a < b < |c.pending| :: c.pending[a].key != c.pending[b].key)
    && (forall a, b | 0 <= a < b < |c.staged| :: c.staged[a].p.key != c.staged[b].p.key)
  }

  lemma StageFate(c: Commit, n: nat, ok: bool, q: Pending, well: bool)
    requires Distinct(c) && n < |c.pending| && Fate(Staging(c, n), q, well)
    ensures Fate(Staging(StageResult(c, n, ok), n + 1), q, well && !(c.pending[n] == q && q.val.Some? && !ok))
  {
    var c' := StageResult(c, n, ok);
    assert AmongPending(c', n + 1, q) <==> AmongPending(c, n, q) || c.pending[n] == q by {
      if AmongPending(c, n, q) {
        AmongMore(c, c', n, q);
      }
      if c.pending[n] == q {
        assert c'.pending[n] == q;
      }
    }
    if |c'.staged| > |c.staged| {
      StagedMore(c, c', q);
    }
    assert AmongPending(c, n, q) ==> c.pending[n] != q;
  }

  lemma StagedMore(c: Commit, c': Commit, q: Pending)
    requires |c'.staged| == |c.staged| + 1 && c'.staged[..|c.staged|] == c.staged
    ensures AmongStaged(c', |c'.staged|, q) <==> AmongStaged(c, |c.staged|, q) || c'.staged[|c.staged|].p == q
  {
    if AmongStaged(c, |c.staged|, q) {
      var i :| 0 <= i < |c.staged| && c.staged[i].p == q;
      assert c'.staged[i].p == q;
    }
    if AmongStaged(c', |c'.staged|, q) {
      var i :| 0 <= i < |c'.staged| && c'.staged[i].p == q;
      if i < |c.staged| {
        assert c.staged[i] == c'.staged[i];
      }
    }
  }

  lemma PublishFate(c: Commit, n: nat, ok: bool, q: Pending, well: bool)
    requires Distinct(c) && n < |c.staged| && Fate(Publishing(c, n), q, well)
    ensures Fate(Publishing(PublishResult(c, n, ok), n + 1), q, well && !(c.staged[n].p == q && !ok))
  {
    var c' := PublishResult(c, n, ok);
    assert AmongStaged(c', n + 1, q) <==> AmongStaged(c, n, q) || c.staged[n].p == q by {
      if AmongStaged(c, n, q) {
        var i :| 0 <= i < n && i < |c.staged| && c.staged[i].p == q;
        assert c'.staged[i].p == q;
      }
      if c.staged[n].p == q {
        assert c'.staged[n].p == q;
      }
      if AmongStaged(c', n + 1, q) {
        var i :| 0 <= i < n + 1 && i < |c'.staged| && c'.staged[i].p == q;
        assert c.staged[i].p == q;
      }
    }
    assert AmongStaged(c', |c'.staged|, q) <==> AmongStaged(c, |c.staged|, q) by {
      SameStaged(c, c', q);
      SameStaged(c', c, q);
    }
    assert AmongStaged(c, n, q) ==> c.staged[n].p != q;
    assert c.staged[n].p == q ==> AmongStaged(c, |c.staged|, q);
  }

  lemma SameStaged(c: Commit, c': Commit, q: Pending)
    requires c'.staged == c.staged
    ensures AmongStaged(c, |c.staged|, q) ==> AmongStaged(c', |c'.staged|, q)
  {
    if AmongStaged(c, |c.staged|, q) {
      var i :| 0 <= i < |c.staged| && c.staged[i].p == q;
      assert c'.staged[i].p == q;
    }
  }

  lemma StepFate(h: Hash, s: Sys, s': Sys, step: Step, p: Pid, q: Pending, well: bool)
    requires Next(h, s, s', step) && step.p == p && p in s.procs && p in s'.procs
    requires CommitOf(s.procs[p]).Some? && Distinct(CommitOf(s.procs[p]).value) && Fate(s.procs[p], q, well)
    requires q in CommitOf(s.procs[p]).value.pending
    ensures CommitOf(s'.procs[p]).Some? && Fate(s'.procs[p], q, well && !FailsFor(s, step, q))
  {
    if step.StageOne? || step.PublishOne? {
      EntryFate(h, s, s', step, p, q, well);
    } else if step.StageEnd? || step.FlushAll? {
      FlushFate(h, s, s', step, p, q, well);
    } else {
      OtherFate(h, s, s', step, p, q, well);
    }
  }

  lemma EntryFate(h: Hash, s: Sys, s': Sys, step: Step, p: Pid, q: Pending, well: bool)
    requires Next(h, s, s', step) && step.p == p && p in s.procs && p in s'.procs
    requires CommitOf(s.procs[p]).Some? && Distinct(CommitOf(s.procs[p]).value) && Fate(s.procs[p], q, well)
    requires q in CommitOf(s.procs[p]).value.pending
    requires step.StageOne? || step.PublishOne?
    ensures CommitOf(s'.procs[p]).Some? && Fate(s'.procs[p], q, well && !FailsFor(s, step, q))
  {
    var pc := s.procs[p];
    if step.StageOne? {
      StageFate(pc.c, pc.n, step.ok, q, well);
    } else {
      PublishFate(pc.c, pc.n, step.ok, q, well);
    }
  }

  lemma FlushFate(h: Hash, s: Sys, s': Sys, step: Step, p: Pid, q: Pending, well: bool)
    requires Next(h, s, s', step) && step.p == p && p in s.procs && p in s'.procs
    requires CommitOf(s.procs[p]).Some? && Distinct(CommitOf(s.procs[p]).value) && Fate(s.procs[p], q, well)
    requires q in CommitOf(s.procs[p]).value.pending
    requires step.StageEnd? || step.FlushAll?
    ensures CommitOf(s'.procs[p]).Some? && Fate(s'.procs[p], q, well && !FailsFor(s, step, q))
  {
    StagedFate(s.procs[p].c, s'.procs[p].c, q);
  }

  lemma OtherFate(h: Hash, s: Sys, s': Sys, step: Step, p: Pid, q: Pending, well: bool)
    requires Next(h, s, s', step) && step.p == p && p in s.procs && p in s'.procs
    requires CommitOf(s.procs[p]).Some? && Distinct(CommitOf(s.procs[p]).value) && Fate(s.procs[p], q, well)
    requires q in CommitOf(s.procs[p]).value.pending
    requires !step.StageOne? && !step.PublishOne? && !step.StageEnd? && !step.FlushAll?
    ensures CommitOf(s'.procs[p]).Some? && Fate(s'.procs[p], q, well && !FailsFor(s, step, q))
  {
    if step.PublishEnd? {
      EndFate(s.procs[p].c, q);
    }
  }

  lemma EndFate(c: Commit, q: Pending)
    ensures !AmongStaged(c, |c.staged|, q) ==> forall n :: !AmongStaged(c, n, q)
  {
    forall n: nat | AmongStaged(c, n, q)
      ensures AmongStaged(c, |c.staged|, q)
    {
      var i :| 0 <= i < n && i < |c.staged| && c.staged[i].p == q;
    }
  }

  lemma StagedFate(c: Commit, c': Commit, q: Pending)
    requires c'.staged == c.staged && c'.done == c.done && c'.pending == c.pending && q in c.pending
    ensures AmongStaged(c', |c'.staged|, q) <==> AmongStaged(c, |c.staged|, q)
    ensures AmongPending(c, |c.pending|, q) && !AmongStaged(c', 0, q)
  {
    SameStaged(c, c', q);
    SameStaged(c', c, q);
    var i :| 0 <= i < |c.pending| && c.pending[i] == q;
  }

  // -------------------------------------------------------- its entries --

  /** What is staged and published comes from the snapshot, and no two entries are of one key. */
  ghost predicate Listed(c: Commit) {
    && Distinct(c)
    && (forall j | 0 <= j < |c.staged| :: c.staged[j].p in c.pending)
    && (forall q | q in c.done :: q in c.pending)
  }

  lemma PlaceInStage(h: Hash, s: Sys, p: Pid)
    requires SysInv(h, s) && p in s.procs && s.procs[p].Staging?
    ensures StagedFrom(s.procs[p].c, s.procs[p].n)
  {
    assert HoldsCommit(s.procs[p]) && s.committer == Some(p);
  }

  lemma StepListed(h: Hash, s: Sys, s': Sys, step: Step, p: Pid)
    requires Next(h, s, s', step) && step.p == p && p in s.procs && p in s'.procs
    requires s.procs[p].Staging? ==> StagedFrom(s.procs[p].c, s.procs[p].n)
    requires CommitOf(s.procs[p]).Some? && Listed(CommitOf(s.procs[p]).value)
    ensures CommitOf(s'.procs[p]).Some? && CommitOf(s'.procs[p]).value.pending == CommitOf(s.procs[p]).value.pending
    ensures Listed(CommitOf(s'.procs[p]).value)
  {
    var pc := s.procs[p];
    if step.StageOne? {
      StageListed(pc.c, pc.n, step.ok);
    } else if step.PublishOne? {
      PublishListed(pc.c, pc.n, step.ok);
    } else {
      OtherLists(h, s, s', step, p);
    }
  }

  lemma StageListed(c: Commit, n: nat, ok: bool)
    requires Listed(c) && StagedFrom(c, n) && n < |c.pending|
    ensures Listed(StageResult(c, n, ok))
  {
    StageDistinct(c, n, ok);
  }

  lemma PublishListed(c: Commit, n: nat, ok: bool)
    requires Listed(c) && n < |c.staged|
    ensures Listed(PublishResult(c, n, ok))
  {
  }

  lemma OtherLists(h: Hash, s: Sys, s': Sys, step: Step, p: Pid)
    requires Next(h, s, s', step) && step.p == p && p in s.procs && p in s'.procs
    requires CommitOf(s.procs[p]).Some? && !step.StageOne? && !step.PublishOne?
    ensures CommitOf(s'.procs[p]).Some?
    ensures var (c, c') := (CommitOf(s.procs[p]).value, CommitOf(s'.procs[p]).value);
            c'.pending == c.pending && c'.staged == c.staged && c'.done == c.done
  {
  }

  /** The counter of `q` is where the snapshot found it. */
  predicate Standing(s: Sys, q: Pending) {
    |s.slots| == SLOTS && s.slots[SlotOf(q.hash)] == q.seen
  }

  /** No counter was further on when the snapshot was taken than it is now. */
  ghost predicate SeenBefore(h: Hash, s: Sys, c: Commit) {
    && |s.slots| == SLOTS
    && forall q | q in c.pending :: q.hash == h(q.key) && q.seen <= s.slots[SlotOf(q.hash)]
  }

  ghost predicate SettledTo(s: Sys, c: Commit, n: nat) {
    forall j | 0 <= j < n && j < |c.done| && Standing(s, c.done[j]) :: !Dirty(s.seg, c.done[j].key)
  }

  /** Nothing is published before the flush, and of what has been retired each entry whose counter stands is clean. */
  ghost predicate Settled(s: Sys, pc: Pc) {
    && (pc.SnapDone? || pc.Staging? || pc.Flushing? || pc.Discarding? ==> pc.c.done == [])
    && (pc.Retiring? ==> SettledTo(s, pc.c, pc.n))
    && (pc.Retired? || pc.Syncing? || pc.Returning? ==> SettledTo(s, pc.c, |pc.c.done|))
  }

  lemma ActSettles(h: Hash, s: Sys, op: SegOp, ok: bool, c: Commit, n: nat)
    requires SeenBefore(h, s, c) && Listed(c) && SettledTo(s, c, n)
    ensures SeenBefore(h, ActOn(h, s, op, ok), c) && SettledTo(ActOn(h, s, op, ok), c, n)
  {
  }

  lemma OwnSettles(h: Hash, s: Sys, s': Sys, step: Step, p: Pid)
    requires Next(h, s, s', step) && step.p == p && p in s.procs && p in s'.procs
    requires CommitOf(s.procs[p]).Some? && Settled(s, s.procs[p])
    ensures CommitOf(s'.procs[p]).Some? && Settled(s', s'.procs[p])
    ensures s'.slots == s.slots
  {
    if step.RetireOne? {
      RetireSettles(s, s', s.procs[p].c, s.procs[p].n);
    } else {
      OtherSettles(h, s, s', step, p);
    }
  }

  lemma RetireSettles(s: Sys, s': Sys, c: Commit, n: nat)
    requires |s.slots| == SLOTS && s'.slots == s.slots && SettledTo(s, c, n)
    ensures n < |c.done| && s'.seg == (if Standing(s, c.done[n]) then RetireMap(s.seg, c.done[n].key) else s.seg) ==>
              SettledTo(s', c, n + 1)
    ensures n == |c.done| && s'.seg == s.seg ==> SettledTo(s', c, |c.done|)
  {
  }

  lemma OtherSettles(h: Hash, s: Sys, s': Sys, step: Step, p: Pid)
    requires Next(h, s, s', step) && step.p == p && p in s.procs && p in s'.procs
    requires CommitOf(s.procs[p]).Some? && Settled(s, s.procs[p]) && !step.RetireOne?
    ensures CommitOf(s'.procs[p]).Some? && Settled(s', s'.procs[p])
    ensures s'.slots == s.slots
  {
    if step.StageOne? || step.StageEnd? || step.FlushAll? || step.DiscardOne? || step.PublishOne? {
      EarlySettles(h, s, s', step, p);
    } else {
      LateSettles(h, s, s', step, p);
    }
  }

  lemma EarlySettles(h: Hash, s: Sys, s': Sys, step: Step, p: Pid)
    requires Next(h, s, s', step) && step.p == p && p in s.procs && p in s'.procs
    requires CommitOf(s.procs[p]).Some? && Settled(s, s.procs[p])
    requires step.StageOne? || step.StageEnd? || step.FlushAll? || step.DiscardOne? || step.PublishOne?
    ensures CommitOf(s'.procs[p]).Some? && Settled(s', s'.procs[p])
    ensures s'.slots == s.slots
  {
  }

  lemma LateSettles(h: Hash, s: Sys, s': Sys, step: Step, p: Pid)
    requires Next(h, s, s', step) && step.p == p && p in s.procs && p in s'.procs
    requires CommitOf(s.procs[p]).Some? && Settled(s, s.procs[p]) && !step.RetireOne?
    requires !step.StageOne? && !step.StageEnd? && !step.FlushAll? && !step.DiscardOne? && !step.PublishOne?
    ensures CommitOf(s'.procs[p]).Some? && Settled(s', s'.procs[p])
    ensures s'.slots == s.slots
  {
  }

  // ------------------------------------------------ everybody else --

  /** While a process holds the commit lock only its own steps touch the disk, and others change the map by sets alone. */
  lemma OthersLeave(h: Hash, s: Sys, s': Sys, step: Step, p: Pid)
    requires Locks(s) && Next(h, s, s', step) && step.p != p
    requires p in s.procs && p in s'.procs && HoldsCommit(s.procs[p])
    ensures s'.procs[p] == s.procs[p] && s'.fs == s.fs && s'.strays == s.strays
    ensures step.Act? || (s'.seg == s.seg && s'.slots == s.slots)
  {
    if step.p in s.procs {
      assert !HoldsCommit(s.procs[step.p]);
    }
  }

  // ---------------------------------------------------------- the disk --

  /** Every key's file but those published is what it was. */
  ghost predicate Elsewhere(fs0: Fs, fs: Fs, c: Commit)
    requires |fs0.dirs| > 0 && |fs.dirs| > 0
  {
    forall k | ValidKey(k) && (forall j | 0 <= j < |c.done| :: c.done[j].key != k) :: FileOf(fs, k) == FileOf(fs0, k)
  }

  lemma StepElsewhere(h: Hash, s: Sys, s': Sys, step: Step, p: Pid, fs0: Fs)
    requires SysInv(h, s) && Next(h, s, s', step) && step.p == p && p in s.procs && p in s'.procs
    requires s.committer == Some(p)
    requires CommitOf(s.procs[p]).Some? && |fs0.dirs| > 0 && Elsewhere(fs0, s.fs, CommitOf(s.procs[p]).value)
    ensures |s'.fs.dirs| > 0 && CommitOf(s'.procs[p]).Some?
    ensures Elsewhere(fs0, s'.fs, CommitOf(s'.procs[p]).value)
  {
    if step.PublishOne? {
      PublishElsewhere(h, s, s', p, step.ok, step.removed, fs0);
    } else {
      OtherLeavesDisk(h, s, s', step, p);
      SameDone(h, s, s', step, p);
      if step.StageOne? || step.FlushAll? || step.SyncAll? || step.DiscardOne? {
        CallLeavesKeys(h, s, s', step, p);
      }
    }
  }

  lemma SameDone(h: Hash, s: Sys, s': Sys, step: Step, p: Pid)
    requires Next(h, s, s', step) && step.p == p && p in s.procs && p in s'.procs
    requires CommitOf(s.procs[p]).Some? && !step.PublishOne?
    ensures CommitOf(s'.procs[p]).Some? && CommitOf(s'.procs[p]).value.done == CommitOf(s.procs[p]).value.done
  {
    if !step.StageOne? {
      OtherLists(h, s, s', step, p);
    }
  }

  lemma OtherLeavesDisk(h: Hash, s: Sys, s': Sys, step: Step, p: Pid)
    requires Next(h, s, s', step) && step.p == p && p in s.procs && p in s'.procs
    requires CommitOf(s.procs[p]).Some? && !step.PublishOne?
    ensures step.StageOne? || step.FlushAll? || step.SyncAll? || step.DiscardOne? || s'.fs == s.fs
  {
  }

  lemma PublishElsewhere(h: Hash, s: Sys, s': Sys, p: Pid, ok: bool, removed: bool, fs0: Fs)
    requires SysInv(h, s) && DoPublishOne(s, s', p, ok, removed) && s.committer == Some(p)
    requires |fs0.dirs| > 0 && Elsewhere(fs0, s.fs, s.procs[p].c)
    ensures |s'.fs.dirs| > 0 && Elsewhere(fs0, s'.fs, s'.procs[p].c)
  {
    var (c, n) := (s.procs[p].c, s.procs[p].n);
    PublishKeepsDisk(h, s, p, c, n, ok, removed);
    if ok {
      var c' := s'.procs[p].c;
      assert c'.done[|c.done|] == c.staged[n].p;
      assert forall j | 0 <= j < |c.done| :: c'.done[j] == c.done[j];
    } else {
      SameKeysLast(s.fs, s'.fs);
    }
  }

  /** Staging, discarding and flushing leave every key's file as it was. */
  lemma CallLeavesKeys(h: Hash, s: Sys, s': Sys, step: Step, p: Pid)
    requires SysInv(h, s) && Next(h, s, s', step) && step.p == p && p in s.procs && s.committer == Some(p)
    requires CommitOf(s.procs[p]).Some? && (step.StageOne? || step.FlushAll? || step.SyncAll? || step.DiscardOne?)
    ensures |s'.fs.dirs| > 0 && forall k | ValidKey(k) :: FileOf(s'.fs, k) == FileOf(s.fs, k)
  {
    var pc := s.procs[p];
    if step.StageOne? {
      if pc.c.pending[pc.n].val.Some? {
        StageKeeps(h, s, p, pc.c, pc.n, step.ok, step.left);
        SameKeysLast(s.fs, s'.fs);
      }
    } else if step.DiscardOne? {
      var key := pc.c.staged[pc.n].p.key;
      TempNotKey(p, key);
      UnlinkTemp(s.fs, TempName(p, key));
    } else {
      FlushKeeps(s.fs);
    }
  }

  // ------------------------------------------------------- over a run --

  /** Process `p` is in the commit it took this snapshot for, when the disk was `fs0`. */
  ghost predicate Tracked(h: Hash, s: Sys, p: Pid, pending: seq<Pending>, fs0: Fs) {
    && p in s.procs && CommitOf(s.procs[p]).Some? && |fs0.dirs| > 0 && |s.fs.dirs| > 0
    && var c := CommitOf(s.procs[p]).value;
       && c.pending == pending && Listed(c) && SeenBefore(h, s, c)
       && Settled(s, s.procs[p]) && Elsewhere(fs0, s.fs, c)
  }

  lemma SnapTracked(h: Hash, s: Sys, s': Sys, p: Pid, pending: seq<Pending>)
    requires |s.slots| == SLOTS && |s.fs.dirs| > 0 && DoSnap(h, s, s', p, pending)
    ensures Tracked(h, s', p, pending, s.fs) && Remembers(s'.procs[p], true)
  {
    forall q | q in pending
      ensures q.hash == h(q.key) && q.seen <= s'.slots[SlotOf(q.hash)]
    {
      assert OwedNow(h, s, q);
    }
  }

  lemma OwnTracked(h: Hash, s: Sys, s': Sys, step: Step, p: Pid, pending: seq<Pending>, fs0: Fs)
    requires SysInv(h, s) && Next(h, s, s', step) && step.p == p && p in s'.procs && Tracked(h, s, p, pending, fs0)
    ensures Tracked(h, s', p, pending, fs0)
  {
    CommitterHolds(h, s, p);
    if s.procs[p].Staging? {
      PlaceInStage(h, s, p);
    }
    StepListed(h, s, s', step, p);
    OwnSettles(h, s, s', step, p);
    StepElsewhere(h, s, s', step, p, fs0);
  }

  lemma CommitterHolds(h: Hash, s: Sys, p: Pid)
    requires SysInv(h, s) && p in s.procs && CommitOf(s.procs[p]).Some?
    ensures Locks(s) && HoldsCommit(s.procs[p]) && s.committer == Some(p)
  {
  }

  lemma OthersTracked(h: Hash, s: Sys, s': Sys, step: Step, p: Pid, pending: seq<Pending>, fs0: Fs)
    requires Locks(s) && Next(h, s, s', step) && step.p != p && p in s'.procs && Tracked(h, s, p, pending, fs0)
    ensures Tracked(h, s', p, pending, fs0) && s'.procs[p] == s.procs[p]
  {
    OthersLeave(h, s, s', step, p);
    if step.Act? {
      ActTracked(h, s, s', step.p, step.ok, p, pending, fs0);
    }
  }

  lemma ActTracked(h: Hash, s: Sys, s': Sys, other: Pid, ok: bool, p: Pid, pending: seq<Pending>, fs0: Fs)
    requires |s.slots| == SLOTS && DoAct(h, s, s', other, ok) && other != p && Tracked(h, s, p, pending, fs0)
    ensures Tracked(h, s', p, pending, fs0)
  {
    var (pc, op) := (s.procs[p], s.procs[other].op);
    var c := CommitOf(pc).value;
    ActSettles(h, s, op, ok, c, 0);
    if pc.Retiring? {
      ActSettles(h, s, op, ok, c, pc.n);
    } else if pc.Retired? || pc.Syncing? || pc.Returning? {
      ActSettles(h, s, op, ok, c, |c.done|);
    }
  }

  lemma {:induction false} RunTracked(h: Hash, states: seq<Sys>, steps: seq<Step>, p: Pid, u: nat, t: nat)
    requires IsRun(h, states, steps) && InCommit(states, steps, p, u, t)
    ensures Tracked(h, states[t], p, steps[u].pending, states[u].fs)
    decreases t
  {
    if t == u + 1 {
      FirstTracked(h, states, steps, p, u);
    } else {
      RunTracked(h, states, steps, p, u, t - 1);
      NextTracked(h, states, steps, p, t - 1, steps[u].pending, states[u].fs);
    }
  }

  lemma FirstTracked(h: Hash, states: seq<Sys>, steps: seq<Step>, p: Pid, u: nat)
    requires IsRun(h, states, steps) && u < |steps| && steps[u].Snap? && steps[u].p == p
    ensures Tracked(h, states[u + 1], p, steps[u].pending, states[u].fs) && Remembers(states[u + 1].procs[p], true)
  {
    assert StepsAt(h, states, steps, u);
    SnapTracked(h, states[u], states[u + 1], p, steps[u].pending);
  }

  lemma FirstFate(h: Hash, states: seq<Sys>, steps: seq<Step>, p: Pid, u: nat, q: Pending)
    requires IsRun(h, states, steps) && u < |steps| && steps[u].Snap? && steps[u].p == p
    ensures p in states[u + 1].procs && CommitOf(states[u + 1].procs[p]).Some? && Fate(states[u + 1].procs[p], q, true)
  {
    assert StepsAt(h, states, steps, u);
  }

  lemma NextTracked(h: Hash, states: seq<Sys>, steps: seq<Step>, p: Pid, i: nat, pending: seq<Pending>, fs0: Fs)
    requires IsRun(h, states, steps) && i < |steps| && p in states[i + 1].procs
    requires Tracked(h, states[i], p, pending, fs0)
    ensures Tracked(h, states[i + 1], p, pending, fs0)
    ensures steps[i].p != p ==> states[i + 1].procs[p] == states[i].procs[p]
  {
    RunKeeps(h, states, steps, i);
    assert StepsAt(h, states, steps, i);
    if steps[i].p == p {
      OwnTracked(h, states[i], states[i + 1], steps[i], p, pending, fs0);
    } else {
      OthersTracked(h, states[i], states[i + 1], steps[i], p, pending, fs0);
    }
  }

  lemma {:induction false} RunRemembers(h: Hash, states: seq<Sys>, steps: seq<Step>, p: Pid, u: nat, t: nat)
    requires IsRun(h, states, steps) && InCommit(states, steps, p, u, t)
    ensures CommitOf(states[t].procs[p]).Some? && Remembers(states[t].procs[p], NoneFails(states, steps, p, u, t))
    decreases t
  {
    RunTracked(h, states, steps, p, u, t);
    if t == u + 1 {
      FirstTracked(h, states, steps, p, u);
    } else {
      RunRemembers(h, states, steps, p, u, t - 1);
      RunTracked(h, states, steps, p, u, t - 1);
      NextRemembers(h, states, steps, p, u, t - 1);
    }
  }

  lemma NextRemembers(h: Hash, states: seq<Sys>, steps: seq<Step>, p: Pid, u: nat, i: nat)
    requires IsRun(h, states, steps) && u < i < |steps| && p in states[i + 1].procs
    requires steps[u].Snap? && Tracked(h, states[i], p, steps[u].pending, states[u].fs)
    requires Remembers(states[i].procs[p], NoneFails(states, steps, p, u, i))
    ensures CommitOf(states[i + 1].procs[p]).Some?
    ensures Remembers(states[i + 1].procs[p], NoneFails(states, steps, p, u, i + 1))
  {
    NextTracked(h, states, steps, p, i, steps[u].pending, states[u].fs);
    NoneFailsNext(states, steps, p, u, i);
    if steps[i].p == p {
      assert StepsAt(h, states, steps, i);
      StepRemembers(h, states[i], states[i + 1], steps[i], p, NoneFails(states, steps, p, u, i));
    }
  }

  lemma NoneFailsNext(states: seq<Sys>, steps: seq<Step>, p: Pid, u: nat, i: nat)
    requires u < i < |steps| && |states| == |steps| + 1
    ensures NoneFails(states, steps, p, u, i + 1) <==>
              NoneFails(states, steps, p, u, i) && (steps[i].p == p ==> !Fails(states[i], steps[i]))
    ensures forall q :: NoneFailsFor(states, steps, p, u, i + 1, q) <==>
              NoneFailsFor(states, steps, p, u, i, q) && (steps[i].p == p ==> !FailsFor(states[i], steps[i], q))
  {
  }

  lemma {:induction false} RunFate(h: Hash, states: seq<Sys>, steps: seq<Step>, p: Pid, u: nat, t: nat, q: Pending)
    requires IsRun(h, states, steps) && InCommit(states, steps, p, u, t) && q in steps[u].pending
    ensures CommitOf(states[t].procs[p]).Some? && Fate(states[t].procs[p], q, NoneFailsFor(states, steps, p, u, t, q))
    decreases t
  {
    if t == u + 1 {
      FirstFate(h, states, steps, p, u, q);
    } else {
      RunFate(h, states, steps, p, u, t - 1, q);
      RunTracked(h, states, steps, p, u, t - 1);
      NextFate(h, states, steps, p, u, t - 1, q);
    }
  }

  lemma NextFate(h: Hash, states: seq<Sys>, steps: seq<Step>, p: Pid, u: nat, i: nat, q: Pending)
    requires IsRun(h, states, steps) && u < i < |steps| && p in states[i + 1].procs
    requires steps[u].Snap? && q in steps[u].pending && Tracked(h, states[i], p, steps[u].pending, states[u].fs)
    requires Fate(states[i].procs[p], q, NoneFailsFor(states, steps, p, u, i, q))
    ensures CommitOf(states[i + 1].procs[p]).Some?
    ensures Fate(states[i + 1].procs[p], q, NoneFailsFor(states, steps, p, u, i + 1, q))
  {
    NextTracked(h, states, steps, p, i, steps[u].pending, states[u].fs);
    NoneFailsNext(states, steps, p, u, i);
    if steps[i].p == p {
      assert StepsAt(h, states, steps, i);
      StepFate(h, states[i], states[i + 1], steps[i], p, q, NoneFailsFor(states, steps, p, u, i, q));
    }
  }

  // ---------------------------------------------------------- durability --

  /** Neither of the commit's flushes has failed. */
  ghost predicate FlushesWell(steps: seq<Step>, p: Pid, u: nat, t: nat)
    requires t <= |steps|
  {
    forall i | u < i < t && steps[i].p == p && (steps[i].FlushAll? || steps[i].SyncAll?) :: steps[i].ok
  }

  ghost predicate Flushed(s: Sys, pc: Pc, well: bool) {
    (pc.Discarding? ==> !well) && (pc.Returning? && well ==> |s.fs.dirs| == 1)
  }

  lemma StepFlushed(h: Hash, s: Sys, s': Sys, step: Step, p: Pid, well: bool)
    requires Next(h, s, s', step) && step.p == p && p in s.procs && p in s'.procs
    requires CommitOf(s.procs[p]).Some? && Flushed(s, s.procs[p], well)
    ensures Flushed(s', s'.procs[p], well && (step.FlushAll? || step.SyncAll? ==> step.ok))
  {
  }

  lemma {:induction false} RunFlushed(h: Hash, states: seq<Sys>, steps: seq<Step>, p: Pid, u: nat, t: nat)
    requires IsRun(h, states, steps) && InCommit(states, steps, p, u, t)
    ensures Flushed(states[t], states[t].procs[p], FlushesWell(steps, p, u, t))
    decreases t
  {
    if t == u + 1 {
      assert StepsAt(h, states, steps, u);
    } else {
      RunFlushed(h, states, steps, p, u, t - 1);
      RunTracked(h, states, steps, p, u, t - 1);
      NextFlushed(h, states, steps, p, u, t - 1);
    }
  }

  lemma NextFlushed(h: Hash, states: seq<Sys>, steps: seq<Step>, p: Pid, u: nat, i: nat)
    requires IsRun(h, states, steps) && u < i < |steps| && p in states[i + 1].procs
    requires steps[u].Snap? && Tracked(h, states[i], p, steps[u].pending, states[u].fs)
    requires Flushed(states[i], states[i].procs[p], FlushesWell(steps, p, u, i))
    ensures Flushed(states[i + 1], states[i + 1].procs[p], FlushesWell(steps, p, u, i + 1))
  {
    assert StepsAt(h, states, steps, i);
    if steps[i].p == p {
      StepFlushed(h, states[i], states[i + 1], steps[i], p, FlushesWell(steps, p, u, i));
    } else {
      RunKeeps(h, states, steps, i);
      CommitterHolds(h, states[i], p);
      OthersLeave(h, states[i], states[i + 1], steps[i], p);
    }
  }

  /** If its flushes succeeded, what a commit published survives any crash, though other entries of it failed. */
  lemma PublishedSurvives(h: Hash, states: seq<Sys>, steps: seq<Step>, p: Pid, u: nat, t: nat, after: map<Name, Bytes>, q: Pending)
    requires IsRun(h, states, steps) && InCommit(states, steps, p, u, t) && states[t].procs[p].Returning?
    requires FlushesWell(steps, p, u, t) && q in steps[u].pending && NoneFailsFor(states, steps, p, u, t, q)
    requires Survives(states[t].fs, after)
    ensures q.val == if q.key in after then Some(after[q.key]) else None
  {
    CommitEnds(h, states, steps, p, u, t);
    RunFlushed(h, states, steps, p, u, t);
    RunKeeps(h, states, steps, t);
    OwedIsStorable(h, states, steps, p, u, q);
    DurableFile(states[t].fs, after, q.key);
  }

  lemma OwedIsStorable(h: Hash, states: seq<Sys>, steps: seq<Step>, p: Pid, u: nat, q: Pending)
    requires IsRun(h, states, steps) && u < |steps| && steps[u].Snap? && steps[u].p == p && q in steps[u].pending
    ensures ValidKey(q.key)
  {
    RunKeeps(h, states, steps, u);
    SnapshotTaken(h, states, steps, p, u);
    assert OwedNow(h, states[u], q);
  }

  // --------------------------------------------------------- the outcome --

  /**
   * How a commit ends. It returns true exactly when none of its calls failed. It has published exactly those entries of
   * its snapshot for which none did, however others fared: the file of each is its value then, absent for a deletion,
   * and the file of every other key is what it was. Each entry published whose counter stands is clean.
   */
  lemma CommitEnds(h: Hash, states: seq<Sys>, steps: seq<Step>, p: Pid, u: nat, t: nat)
    requires IsRun(h, states, steps) && InCommit(states, steps, p, u, t) && states[t].procs[p].Returning?
    ensures |states[u].fs.dirs| > 0 && |states[t].fs.dirs| > 0 && |states[u].slots| == SLOTS
    ensures IsSnapshot(h, states[u], steps[u].pending)
    ensures states[t].procs[p].result <==> NoneFails(states, steps, p, u, t)
    ensures states[t].procs[p].c.pending == steps[u].pending
    ensures forall q | q in steps[u].pending ::
              && (q in states[t].procs[p].c.done <==> NoneFailsFor(states, steps, p, u, t, q))
              && (NoneFailsFor(states, steps, p, u, t, q) ==>
                    && FileOf(states[t].fs, q.key) == q.val
                    && (Standing(states[t], q) ==> !Dirty(states[t].seg, q.key)))
    ensures forall k | ValidKey(k) && (forall q | q in states[t].procs[p].c.done :: q.key != k) ::
              FileOf(states[t].fs, k) == FileOf(states[u].fs, k)
  {
    RunTracked(h, states, steps, p, u, t);
    RunRemembers(h, states, steps, p, u, t);
    SnapshotTaken(h, states, steps, p, u);
    forall q | q in steps[u].pending
      ensures q in states[t].procs[p].c.done <==> NoneFailsFor(states, steps, p, u, t, q)
      ensures NoneFailsFor(states, steps, p, u, t, q) ==>
                && FileOf(states[t].fs, q.key) == q.val
                && (Standing(states[t], q) ==> !Dirty(states[t].seg, q.key))
    {
      EntryEnds(h, states, steps, p, u, t, q);
    }
  }

  lemma SnapshotTaken(h: Hash, states: seq<Sys>, steps: seq<Step>, p: Pid, u: nat)
    requires IsRun(h, states, steps) && u < |steps| && steps[u].Snap? && steps[u].p == p
    ensures |states[u].fs.dirs| > 0 && |states[u].slots| == SLOTS && IsSnapshot(h, states[u], steps[u].pending)
  {
    assert StepsAt(h, states, steps, u);
  }

  lemma EntryEnds(h: Hash, states: seq<Sys>, steps: seq<Step>, p: Pid, u: nat, t: nat, q: Pending)
    requires IsRun(h, states, steps) && InCommit(states, steps, p, u, t) && states[t].procs[p].Returning?
    requires Tracked(h, states[t], p, steps[u].pending, states[u].fs) && q in steps[u].pending
    ensures q in states[t].procs[p].c.done <==> NoneFailsFor(states, steps, p, u, t, q)
    ensures NoneFailsFor(states, steps, p, u, t, q) ==>
              && FileOf(states[t].fs, q.key) == q.val
              && (Standing(states[t], q) ==> !Dirty(states[t].seg, q.key))
  {
    RunFate(h, states, steps, p, u, t, q);
    RunKeeps(h, states, steps, t);
    ReturnedDisk(h, states[t], p);
    var c := states[t].procs[p].c;
    if q in c.done {
      var j :| 0 <= j < |c.done| && c.done[j] == q;
    }
  }

  lemma ReturnedDisk(h: Hash, s: Sys, p: Pid)
    requires SysInv(h, s) && p in s.procs && s.procs[p].Returning?
    ensures |s.fs.dirs| > 0 && DoneOnDisk(s.fs, s.procs[p].c)
  {
    CommitterHolds(h, s, p);
  }
}
