/** A commit comes to an end: each of its steps brings it nearer, and it always has one to make that does not fail. */
module CommitProgress {
  import opened Layout
  import opened Index
  import opened Operations
  import opened MapRefinement
  import opened Names
  import opened FileSystem
  import opened CommitProtocol
  import opened CommitSafety
  import opened CommitTheorem
  import opened CommitOutcome

  /** A bound on the steps a commit still has to make. */
  function StepsLeft(pc: Pc): int
    requires CommitOf(pc).Some?
  {
    var c := CommitOf(pc).value;
    var (pending, staged, done) := (|c.pending|, |c.staged|, |c.done|);
    match pc
    case SnapDone(_) => 4 * pending + 3 * staged + done + 11
    case Staging(_, n) => 4 * (pending - n) + 3 * staged + done + 10
    case Flushing(_) => 3 * staged + done + 9
    case Discarding(_, n) => staged - n + 1
    case Publishing(_, n) => 2 * (staged - n) + done + 7
    case RetireWait(_) => done + 6
    case Retiring(_, n) => done - n + 5
    case Retired(_) => 4
    case Syncing(_) => 3
    case Returning(_, _) => 0
  }

  lemma StepsLeftPlaced(pc: Pc)
    requires CommitOf(pc).Some? && Placed(pc)
    ensures StepsLeft(pc) >= 0
  {
  }

  /** Every step a commit makes, whether it fails or not, brings it nearer its end. */
  lemma StepNearer(h: Hash, s: Sys, s': Sys, step: Step, p: Pid)
    requires Next(h, s, s', step) && step.p == p && p in s.procs && p in s'.procs && CommitOf(s.procs[p]).Some?
    ensures CommitOf(s'.procs[p]).Some? && StepsLeft(s'.procs[p]) < StepsLeft(s.procs[p])
  {
    if step.StageOne? || step.StageEnd? || step.FlushAll? || step.DiscardOne? || step.PublishOne? {
      CallNearer(h, s, s', step, p);
    }
  }

  lemma CallNearer(h: Hash, s: Sys, s': Sys, step: Step, p: Pid)
    requires Next(h, s, s', step) && step.p == p && p in s.procs && p in s'.procs && CommitOf(s.procs[p]).Some?
    requires step.StageOne? || step.StageEnd? || step.FlushAll? || step.DiscardOne? || step.PublishOne?
    ensures CommitOf(s'.procs[p]).Some? && StepsLeft(s'.procs[p]) < StepsLeft(s.procs[p])
  {
  }

  predicate Undisturbed(s: Sys, p: Pid) {
    s.writer == None || s.writer == Some(p)
  }

  /** A commit that nothing has failed has a step to make that does not fail, unless another holds the writer lock. */
  lemma CanProceed(h: Hash, s: Sys, p: Pid) returns (step: Step, s': Sys)
    requires SysInv(h, s) && p in s.procs && CommitOf(s.procs[p]).Some? && !s.procs[p].Returning?
    requires Remembers(s.procs[p], true) && Undisturbed(s, p)
    ensures step.p == p && Next(h, s, s', step) && !Fails(s, step) && p in s'.procs && Undisturbed(s', p)
  {
    PlacedInRun(h, s, p);
    CommitterHolds(h, s, p);
    var pc := s.procs[p];
    if HoldsWriter(pc) || pc.RetireWait? {
      step, s' := LockProceeds(h, s, p);
    } else if pc.Publishing? {
      PublishReady(h, s, p);
      step, s' := PublishProceeds(h, s, p);
    } else {
      step, s' := CallProceeds(h, s, p);
    }
  }

  lemma LockProceeds(h: Hash, s: Sys, p: Pid) returns (step: Step, s': Sys)
    requires |s.slots| == SLOTS && |s.fs.dirs| > 0 && p in s.procs && Placed(s.procs[p]) && Undisturbed(s, p)
    requires CommitOf(s.procs[p]).Some? && (HoldsWriter(s.procs[p]) || s.procs[p].RetireWait?)
    requires HoldsWriter(s.procs[p]) <==> s.writer == Some(p)
    ensures step.p == p && Next(h, s, s', step) && !Fails(s, step) && p in s'.procs && Undisturbed(s', p)
  {
    if s.procs[p].RetireWait? {
      step, s' := TakeWriter(p), At(s, p, AfterWriter(s.procs[p])).(writer := Some(p));
    } else {
      match s.procs[p]
      case SnapDone(c) => step, s' := DropWriter(p), At(s, p, Staging(c, 0)).(writer := None);
      case Retired(c) => step, s' := DropWriter(p), At(s, p, Syncing(c)).(writer := None);
      case Retiring(c, n) =>
        step := RetireOne(p);
        s' := if n == |c.done| then At(s, p, Retired(c))
              else At(s, p, Retiring(c, n + 1)).(
                     seg := if s.slots[SlotOf(c.done[n].hash)] == c.done[n].seen then RetireMap(s.seg, c.done[n].key) else s.seg);
    }
  }

  /** The temporary file of the next entry to be published is where it was staged. */
  lemma PublishReady(h: Hash, s: Sys, p: Pid)
    requires SysInv(h, s) && p in s.procs && s.procs[p].Publishing?
    ensures |s.fs.dirs| > 0 && s.procs[p].n <= |s.procs[p].c.staged|
    ensures s.procs[p].n < |s.procs[p].c.staged| ==> CanPublish(s.fs, p, s.procs[p].c.staged[s.procs[p].n])
  {
    CommitterHolds(h, s, p);
  }

  lemma PublishProceeds(h: Hash, s: Sys, p: Pid) returns (step: Step, s': Sys)
    requires |s.slots| == SLOTS && |s.fs.dirs| > 0 && p in s.procs && s.procs[p].Publishing? && Undisturbed(s, p)
    requires s.procs[p].n <= |s.procs[p].c.staged|
    requires s.procs[p].n < |s.procs[p].c.staged| ==> CanPublish(s.fs, p, s.procs[p].c.staged[s.procs[p].n])
    ensures step.p == p && Next(h, s, s', step) && !Fails(s, step) && p in s'.procs && Undisturbed(s', p)
  {
    var (c, n) := (s.procs[p].c, s.procs[p].n);
    if n < |c.staged| {
      step := PublishOne(p, true, false);
      s' := At(s, p, Publishing(PublishResult(c, n, true), n + 1)).(fs := PublishFs(s.fs, p, c.staged[n], true, false));
    } else {
      step, s' := PublishEnd(p), At(s, p, if c.done == [] then Syncing(c) else RetireWait(c));
    }
  }

  lemma CallProceeds(h: Hash, s: Sys, p: Pid) returns (step: Step, s': Sys)
    requires |s.slots| == SLOTS && |s.fs.dirs| > 0 && p in s.procs && Placed(s.procs[p]) && Undisturbed(s, p)
    requires s.procs[p].Staging? || s.procs[p].Flushing? || s.procs[p].Syncing?
    ensures step.p == p && Next(h, s, s', step) && !Fails(s, step) && p in s'.procs && Undisturbed(s', p)
  {
    match s.procs[p]
    case Staging(c, n) =>
      if n < |c.pending| {
        var q := c.pending[n];
        step, s' := StageOne(p, true, None), At(s, p, Staging(StageResult(c, n, true), n + 1)).(
          fs := if q.val.None? then s.fs else StageFs(s.fs, TempName(p, q.key), q.val.value, true, None));
      } else {
        step, s' := StageEnd(p), At(s, p, AfterStaging(c, s.fs));
      }
    case Flushing(c) => step, s' := FlushAll(p, true), At(s, p, AfterFlush(c, s.fs, true)).(fs := Flush(s.fs));
    case Syncing(c) => step, s' := SyncAll(p, true), At(s, p, AfterSync(Syncing(c), true)).(fs := Flush(s.fs));
  }

  // ------------------------------------------------------- to the end --

  /** The second run goes on from where the first stops, by steps of `p` alone. */
  ghost predicate Continues(states: seq<Sys>, steps: seq<Step>, states': seq<Sys>, steps': seq<Step>, p: Pid) {
    && |states| == |steps| + 1 && |states'| == |steps'| + 1
    && states <= states' && steps <= steps'
    && forall i | |steps| <= i < |steps'| :: steps'[i].p == p
  }

  lemma RunExtends(h: Hash, states: seq<Sys>, steps: seq<Step>, step: Step, s': Sys)
    requires IsRun(h, states, steps) && Next(h, states[|steps|], s', step)
    ensures IsRun(h, states + [s'], steps + [step])
  {
    var (more, moreSteps) := (states + [s'], steps + [step]);
    forall t | 0 <= t < |moreSteps|
      ensures StepsAt(h, more, moreSteps, t)
    {
      if t < |steps| {
        assert StepsAt(h, states, steps, t);
      }
    }
  }

  /**
   * Wherever a commit has got to without a failure, with nobody else holding the writer lock, there is a way on for it,
   * by its own steps alone, to returning true.
   */
  lemma {:induction false} CommitFinishes(h: Hash, states: seq<Sys>, steps: seq<Step>, p: Pid, u: nat)
    returns (states': seq<Sys>, steps': seq<Step>)
    requires IsRun(h, states, steps) && InCommit(states, steps, p, u, |steps|)
    requires NoneFails(states, steps, p, u, |steps|) && Undisturbed(states[|steps|], p)
    ensures IsRun(h, states', steps') && Continues(states, steps, states', steps', p)
    ensures InCommit(states', steps', p, u, |steps'|)
    ensures states'[|steps'|].procs[p].Returning? && states'[|steps'|].procs[p].result
    decreases CommitLeft(states[|steps|], p)
  {
    RunRemembers(h, states, steps, p, u, |steps|);
    if states[|steps|].procs[p].Returning? {
      states', steps' := states, steps;
    } else {
      var step, s1 := OneStepOn(h, states, steps, p, u);
      states', steps' := CommitFinishes(h, states + [s1], steps + [step], p, u);
    }
  }

  lemma OneStepOn(h: Hash, states: seq<Sys>, steps: seq<Step>, p: Pid, u: nat) returns (step: Step, s': Sys)
    requires IsRun(h, states, steps) && InCommit(states, steps, p, u, |steps|)
    requires NoneFails(states, steps, p, u, |steps|) && Undisturbed(states[|steps|], p)
    requires !states[|steps|].procs[p].Returning?
    ensures step.p == p && IsRun(h, states + [s'], steps + [step])
    ensures InCommit(states + [s'], steps + [step], p, u, |steps| + 1)
    ensures NoneFails(states + [s'], steps + [step], p, u, |steps| + 1)
    ensures Undisturbed(s', p) && CommitLeft(s', p) < CommitLeft(states[|steps|], p)
  {
    RunRemembers(h, states, steps, p, u, |steps|);
    RunKeeps(h, states, steps, |steps|);
    step, s' := CanProceed(h, states[|steps|], p);
    RunExtends(h, states, steps, step, s');
    OneMore(states, steps, p, u, step, s');
    LeftLess(h, states[|steps|], s', step, p);
  }

  lemma LeftLess(h: Hash, s: Sys, s': Sys, step: Step, p: Pid)
    requires SysInv(h, s) && Next(h, s, s', step) && step.p == p && p in s.procs && p in s'.procs
    requires CommitOf(s.procs[p]).Some?
    ensures CommitLeft(s', p) < CommitLeft(s, p)
  {
    PlacedInRun(h, s, p);
    StepsLeftPlaced(s.procs[p]);
    StepNearer(h, s, s', step, p);
    NextKeeps(h, s, s', step);
    PlacedInRun(h, s', p);
    StepsLeftPlaced(s'.procs[p]);
  }

  function CommitLeft(s: Sys, p: Pid): nat {
    if p in s.procs && CommitOf(s.procs[p]).Some? && StepsLeft(s.procs[p]) >= 0 then StepsLeft(s.procs[p]) else 0
  }

  lemma OneMore(states: seq<Sys>, steps: seq<Step>, p: Pid, u: nat, step: Step, s': Sys)
    requires InCommit(states, steps, p, u, |steps|) && NoneFails(states, steps, p, u, |steps|)
    requires p in s'.procs && !Fails(states[|steps|], step)
    ensures InCommit(states + [s'], steps + [step], p, u, |steps| + 1)
    ensures NoneFails(states + [s'], steps + [step], p, u, |steps| + 1)
  {
  }
}
