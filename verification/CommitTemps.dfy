/** A commit cleans up after itself: unless a removal fails, none of its temporary files is left when it returns. */
module CommitTemps {
  import opened Layout
  import opened Index
  import opened Operations
  import opened MapRefinement
  import opened Names
  import opened FileSystem
  import opened CommitProtocol
  import opened CommitSafety
  import opened CommitTheorem
  import opened CommitOutcome

  /** The step may leave a temporary file behind: one that a stage could not write, or a publish not rename. */
  predicate Litters(s: Sys, step: Step) {
    || (step.StageOne? && !step.ok && step.left.Some?)
    || (step.DiscardOne? && !step.removed)
    || (step.PublishOne? && !step.ok && !step.removed)
  }

  ghost predicate NeverLitters(states: seq<Sys>, steps: seq<Step>, p: Pid, u: nat, t: nat)
    requires t < |states| && |states| == |steps| + 1
  {
    forall i | u < i < t && steps[i].p == p :: !Litters(states[i], steps[i])
  }

  /** The temporary file of `q`, once its turn to be staged has come, is there only while it waits to be published. */
  ghost predicate Tidy(fs: Fs, p: Pid, pc: Pc, q: Pending)
    requires |fs.dirs| > 0 && CommitOf(pc).Some?
  {
    var c := CommitOf(pc).value;
    var (there, staged) := (TempName(p, q.key) in Dir(fs), AmongStaged(c, |c.staged|, q));
    match pc
    case SnapDone(_) => true
    case Staging(_, n) => there && AmongPending(c, n, q) ==> staged
    case Flushing(_) => there ==> staged
    case Discarding(_, n) => there ==> staged && !AmongStaged(c, n, q)
    case Publishing(_, n) => there ==> staged && !AmongStaged(c, n, q)
    case _ => !there
  }

  // ---------------------------------------------------------- directories --

  lemma CallsOnOther(fs: Fs, n: Name, bytes: Bytes, m: Name)
    requires |fs.dirs| > 0 && m != n
    ensures m in Dir(Create(fs, n, bytes)) <==> m in Dir(fs)
    ensures m in Dir(Unlink(fs, n)) <==> m in Dir(fs)
    ensures n !in Dir(Unlink(fs, n))
    ensures forall a | a in Dir(fs) && a != m :: m in Dir(Rename(fs, a, n)) <==> m in Dir(fs)
    ensures forall a | a in Dir(fs) && a != n :: a !in Dir(Rename(fs, a, n))
  {
  }

  lemma StageTidy(fs: Fs, p: Pid, c: Commit, n: nat, ok: bool, q: Pending)
    requires |fs.dirs| > 0 && Distinct(c) && n < |c.pending| && Tidy(fs, p, Staging(c, n), q) && q.val.Some?
    requires q in c.pending
    ensures var e := c.pending[n];
            var fs' := if e.val.None? then fs else StageFs(fs, TempName(p, e.key), e.val.value, ok, None);
            Tidy(fs', p, Staging(StageResult(c, n, ok), n + 1), q)
  {
    var (e, c') := (c.pending[n], StageResult(c, n, ok));
    assert AmongPending(c', n + 1, q) ==> AmongPending(c, n, q) || e == q by {
      if AmongPending(c', n + 1, q) {
        var i :| 0 <= i < n + 1 && i < |c'.pending| && c'.pending[i] == q;
        assert c.pending[i] == q;
      }
    }
    if |c'.staged| > |c.staged| {
      StagedMore(c, c', q);
    }
    if e != q && e.val.Some? {
      OtherEntry(c, n, q);
      TempNameInjective(p, e.key, p, q.key);
      CallsOnOther(fs, TempName(p, e.key), e.val.value, TempName(p, q.key));
    }
  }

  /** Another entry of a snapshot is of another key. */
  lemma OtherEntry(c: Commit, n: nat, q: Pending)
    requires Distinct(c) && n < |c.pending| && q in c.pending && q != c.pending[n]
    ensures q.key != c.pending[n].key
  {
    var i :| 0 <= i < |c.pending| && c.pending[i] == q;
    assert i < n || n < i;
  }

  lemma OtherStaged(c: Commit, n: nat, q: Pending)
    requires Listed(c) && n < |c.staged| && q in c.pending && q != c.staged[n].p
    ensures q.key != c.staged[n].p.key
  {
    var i :| 0 <= i < |c.pending| && c.pending[i] == c.staged[n].p;
    OtherEntry(c, i, q);
  }

  /** The next entry is dealt with: `q` waits still if it is not that entry. */
  lemma Passed(c: Commit, c': Commit, n: nat, q: Pending)
    requires c'.staged == c.staged && n < |c.staged|
    ensures AmongStaged(c', n + 1, q) ==> AmongStaged(c, n, q) || c.staged[n].p == q
    ensures AmongStaged(c, |c.staged|, q) ==> AmongStaged(c', |c'.staged|, q)
  {
    if AmongStaged(c', n + 1, q) {
      var i :| 0 <= i < n + 1 && i < |c'.staged| && c'.staged[i].p == q;
      assert c.staged[i].p == q;
    }
    SameStaged(c, c', q);
  }

  lemma PublishTidy(fs: Fs, p: Pid, c: Commit, n: nat, ok: bool, removed: bool, q: Pending)
    requires |fs.dirs| > 0 && Listed(c) && n < |c.staged| && Tidy(fs, p, Publishing(c, n), q)
    requires q in c.pending && q.val.Some? && ValidKey(c.staged[n].p.key)
    requires (c.staged[n].tmp <==> c.staged[n].p.val.Some?) && (ok ==> CanPublish(fs, p, c.staged[n])) && (ok || removed)
    ensures Tidy(PublishFs(fs, p, c.staged[n], ok, removed), p, Publishing(PublishResult(c, n, ok), n + 1), q)
  {
    var e := c.staged[n];
    var (mine, its) := (TempName(p, q.key), TempName(p, e.p.key));
    Passed(c, PublishResult(c, n, ok), n, q);
    TempNotKey(p, q.key);
    CallsOnOther(fs, e.p.key, [], mine);
    if e.p != q {
      OtherStaged(c, n, q);
      TempNameInjective(p, e.p.key, p, q.key);
      CallsOnOther(fs, its, [], mine);
    }
  }

  lemma DiscardTidy(fs: Fs, p: Pid, c: Commit, n: nat, q: Pending)
    requires |fs.dirs| > 0 && Listed(c) && n < |c.staged| && Tidy(fs, p, Discarding(c, n), q)
    requires q in c.pending && q.val.Some? && (c.staged[n].tmp <==> c.staged[n].p.val.Some?)
    ensures var fs' := if c.staged[n].tmp then Unlink(fs, TempName(p, c.staged[n].p.key)) else fs;
            Tidy(fs', p, if n + 1 == |c.staged| then Returning(c, false) else Discarding(c, n + 1), q)
  {
    var e := c.staged[n];
    Passed(c, c, n, q);
    if e.p != q {
      OtherStaged(c, n, q);
      TempNameInjective(p, e.p.key, p, q.key);
      CallsOnOther(fs, TempName(p, e.p.key), [], TempName(p, q.key));
    }
  }

  // ------------------------------------------------------------ the steps --

  /** Only values are staged in files. */
  ghost predicate StagesValues(c: Commit) {
    && (forall j | 0 <= j < |c.staged| :: c.staged[j].tmp <==> c.staged[j].p.val.Some?)
    && (forall q | q in c.pending :: ValidKey(q.key))
  }

  lemma StepStages(h: Hash, s: Sys, s': Sys, step: Step, p: Pid)
    requires Next(h, s, s', step) && step.p == p && p in s.procs && p in s'.procs
    requires CommitOf(s.procs[p]).Some? && StagesValues(CommitOf(s.procs[p]).value)
    ensures CommitOf(s'.procs[p]).Some? && StagesValues(CommitOf(s'.procs[p]).value)
  {
    if !step.StageOne? && !step.PublishOne? {
      OtherLists(h, s, s', step, p);
    }
  }

  lemma StepTidy(h: Hash, s: Sys, s': Sys, step: Step, p: Pid, q: Pending)
    requires Next(h, s, s', step) && step.p == p && p in s.procs && p in s'.procs && !Litters(s, step)
    requires CommitOf(s.procs[p]).Some? && Listed(CommitOf(s.procs[p]).value) && StagesValues(CommitOf(s.procs[p]).value)
    requires q in CommitOf(s.procs[p]).value.pending && q.val.Some? && Tidy(s.fs, p, s.procs[p], q)
    ensures |s'.fs.dirs| > 0 && CommitOf(s'.procs[p]).Some? && Tidy(s'.fs, p, s'.procs[p], q)
  {
    var pc := s.procs[p];
    if step.StageOne? {
      StageTidy(s.fs, p, pc.c, pc.n, step.ok, q);
    } else if step.PublishOne? {
      PublishTidy(s.fs, p, pc.c, pc.n, step.ok, step.removed, q);
    } else if step.DiscardOne? {
      DiscardTidy(s.fs, p, pc.c, pc.n, q);
    } else {
      OtherTidy(h, s, s', step, p, q);
    }
  }

  lemma OtherTidy(h: Hash, s: Sys, s': Sys, step: Step, p: Pid, q: Pending)
    requires Next(h, s, s', step) && step.p == p && p in s.procs && p in s'.procs
    requires !step.StageOne? && !step.PublishOne? && !step.DiscardOne?
    requires CommitOf(s.procs[p]).Some? && q in CommitOf(s.procs[p]).value.pending && Tidy(s.fs, p, s.procs[p], q)
    ensures |s'.fs.dirs| > 0 && CommitOf(s'.procs[p]).Some? && Tidy(s'.fs, p, s'.procs[p], q)
  {
    if step.StageEnd? || step.FlushAll? {
      StagedFate(s.procs[p].c, s'.procs[p].c, q);
    }
  }

  // --------------------------------------------------------- over a run --

  ghost predicate TidyAt(s: Sys, p: Pid, q: Pending, clean: bool) {
    && p in s.procs && CommitOf(s.procs[p]).Some? && |s.fs.dirs| > 0
    && StagesValues(CommitOf(s.procs[p]).value) && (clean ==> Tidy(s.fs, p, s.procs[p], q))
  }

  lemma {:induction false} RunTidy(h: Hash, states: seq<Sys>, steps: seq<Step>, p: Pid, u: nat, t: nat, q: Pending)
    requires IsRun(h, states, steps) && InCommit(states, steps, p, u, t) && q in steps[u].pending && q.val.Some?
    ensures TidyAt(states[t], p, q, NeverLitters(states, steps, p, u, t))
    decreases t
  {
    if t == u + 1 {
      FirstTidy(h, states, steps, p, u, q);
    } else {
      RunTidy(h, states, steps, p, u, t - 1, q);
      RunTracked(h, states, steps, p, u, t - 1);
      NextTidy(h, states, steps, p, u, t - 1, q);
    }
  }

  lemma FirstTidy(h: Hash, states: seq<Sys>, steps: seq<Step>, p: Pid, u: nat, q: Pending)
    requires IsRun(h, states, steps) && u < |steps| && steps[u].Snap? && steps[u].p == p
    ensures TidyAt(states[u + 1], p, q, true)
  {
    assert StepsAt(h, states, steps, u);
    forall e | e in steps[u].pending
      ensures ValidKey(e.key)
    {
      OwedIsStorable(h, states, steps, p, u, e);
    }
  }

  lemma NextTidy(h: Hash, states: seq<Sys>, steps: seq<Step>, p: Pid, u: nat, i: nat, q: Pending)
    requires IsRun(h, states, steps) && u < i < |steps| && p in states[i + 1].procs
    requires steps[u].Snap? && q in steps[u].pending && q.val.Some?
    requires Tracked(h, states[i], p, steps[u].pending, states[u].fs)
    requires TidyAt(states[i], p, q, NeverLitters(states, steps, p, u, i))
    ensures TidyAt(states[i + 1], p, q, NeverLitters(states, steps, p, u, i + 1))
  {
    assert StepsAt(h, states, steps, i);
    if steps[i].p == p {
      OwnTidy(h, states[i], states[i + 1], steps[i], p, q, NeverLitters(states, steps, p, u, i));
    } else {
      RunKeeps(h, states, steps, i);
      CommitterHolds(h, states[i], p);
      OthersLeave(h, states[i], states[i + 1], steps[i], p);
    }
  }

  lemma OwnTidy(h: Hash, s: Sys, s': Sys, step: Step, p: Pid, q: Pending, clean: bool)
    requires Next(h, s, s', step) && step.p == p && p in s'.procs && TidyAt(s, p, q, clean)
    requires Listed(CommitOf(s.procs[p]).value) && q in CommitOf(s.procs[p]).value.pending && q.val.Some?
    ensures TidyAt(s', p, q, clean && !Litters(s, step))
  {
    StepStages(h, s, s', step, p);
    DirsStay(h, s, s', step);
    if clean && !Litters(s, step) {
      StepTidy(h, s, s', step, p, q);
    }
  }

  lemma DirsStay(h: Hash, s: Sys, s': Sys, step: Step)
    requires Next(h, s, s', step)
    ensures |s'.fs.dirs| > 0
  {
  }

  /** A commit that returns, whatever it returns, has left none of its temporary files, unless it failed to remove one. */
  lemma CommitLeavesNoTemp(h: Hash, states: seq<Sys>, steps: seq<Step>, p: Pid, u: nat, t: nat, q: Pending)
    requires IsRun(h, states, steps) && InCommit(states, steps, p, u, t) && states[t].procs[p].Returning?
    requires NeverLitters(states, steps, p, u, t) && q in steps[u].pending && q.val.Some?
    ensures |states[t].fs.dirs| > 0 && TempName(p, q.key) !in Dir(states[t].fs)
  {
    RunTidy(h, states, steps, p, u, t, q);
  }
}
