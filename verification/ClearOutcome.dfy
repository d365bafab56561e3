/** What a clear comes to: what it returns, and what it leaves on disk whatever crash follows. */
module ClearOutcome {
  import opened Layout
  import opened Index
  import opened Operations
  import opened Names
  import opened FileSystem
  import opened CommitProtocol
  import opened CommitSafety
  import opened CommitTheorem
  import opened CommitOutcome

  /** Process `p` clears the segment at step `u` and is still in that clear at `t`. */
  ghost predicate InClear(states: seq<Sys>, steps: seq<Step>, p: Pid, u: nat, t: nat) {
    && u < t < |states| && |states| == |steps| + 1
    && steps[u].ClearSeg? && steps[u].p == p
    && (forall i | u < i <= t :: p in states[i].procs)
  }

  predicate Clears(pc: Pc) {
    pc.ClearFiles? || pc.ClearSync? || pc.ClearReturning?
  }

  /** The step fails to remove this file. */
  predicate Spared(s: Sys, step: Step, p: Pid, n: Name) {
    && step == RemoveOne(p, n, false)
    && p in s.procs && s.procs[p].ClearFiles? && n in s.procs[p].left
  }

  /** A removal of this file has failed since `u`. */
  ghost predicate EverSpared(states: seq<Sys>, steps: seq<Step>, p: Pid, n: Name, u: nat, t: nat)
    requires t < |states| && |states| == |steps| + 1
  {
    exists i | u < i < t :: Spared(states[i], steps[i], p, n)
  }

  /** The last flush has been asked for and has failed. */
  ghost predicate FlushFailed(steps: seq<Step>, p: Pid, u: nat, t: nat)
    requires t <= |steps|
  {
    exists i | u < i < t :: steps[i] == SyncAll(p, false)
  }

  /** How far the clear of `n` has got: still to be tried, removed, or passed over. */
  ghost predicate Clearance(s: Sys, pc: Pc, n: Name, was: bool, listed: bool, spared: bool, failed: bool)
    requires |s.fs.dirs| > 0
  {
    match pc
    case ClearFiles(left, l) =>
      && l == listed && !failed && (n in left ==> was && listed && !spared)
      && (n in Dir(s.fs) <==> was && (n in left || spared || !listed))
    case ClearSync(l) => l == listed && !failed && (n in Dir(s.fs) <==> was && (spared || !listed))
    case ClearReturning(result) => (result <==> listed && !failed) && (n in Dir(s.fs) <==> was && (spared || !listed))
    case _ => false
  }

  lemma OwnClears(h: Hash, s: Sys, s': Sys, step: Step, p: Pid, n: Name, was: bool, listed: bool, spared: bool, failed: bool)
    requires Next(h, s, s', step) && step.p == p && p in s.procs && p in s'.procs && |s'.fs.dirs| > 0
    requires |s.fs.dirs| > 0 && Clearance(s, s.procs[p], n, was, listed, spared, failed)
    ensures Clearance(s', s'.procs[p], n, was, listed, spared || Spared(s, step, p, n), failed || step == SyncAll(p, false))
  {
    if step.RemoveOne? {
      RemoveClears(s, s', p, step.name, step.ok, n, was, listed, spared, failed);
    }
  }

  lemma RemoveClears(s: Sys, s': Sys, p: Pid, name: Name, ok: bool, n: Name, was: bool, listed: bool, spared: bool, failed: bool)
    requires |s.fs.dirs| > 0 && DoRemoveOne(s, s', p, name, ok)
    requires Clearance(s, s.procs[p], n, was, listed, spared, failed)
    ensures |s'.fs.dirs| > 0
    ensures Clearance(s', s'.procs[p], n, was, listed, spared || Spared(s, RemoveOne(p, name, ok), p, n), failed)
  {
  }

  lemma ClearBegins(h: Hash, s: Sys, s': Sys, p: Pid, listed: bool, n: Name)
    requires |s.fs.dirs| > 0 && DoClearSeg(s, s', p, listed)
    ensures |s'.fs.dirs| > 0 && Clearance(s', s'.procs[p], n, n in Dir(s.fs), listed, false, false)
  {
  }

  lemma {:induction false} RunClears(h: Hash, states: seq<Sys>, steps: seq<Step>, p: Pid, u: nat, t: nat, n: Name)
    requires IsRun(h, states, steps) && InClear(states, steps, p, u, t)
    ensures |states[u].fs.dirs| > 0 && |states[t].fs.dirs| > 0
    ensures Clearance(states[t], states[t].procs[p], n, n in Dir(states[u].fs), steps[u].listed,
                      EverSpared(states, steps, p, n, u, t), FlushFailed(steps, p, u, t))
    decreases t
  {
    assert StepsAt(h, states, steps, u);
    if t == u + 1 {
      ClearBegins(h, states[u], states[t], p, steps[u].listed, n);
    } else {
      RunClears(h, states, steps, p, u, t - 1, n);
      NextClears(h, states, steps, p, u, t - 1, n);
    }
  }

  lemma NextClears(h: Hash, states: seq<Sys>, steps: seq<Step>, p: Pid, u: nat, i: nat, n: Name)
    requires IsRun(h, states, steps) && u < i < |steps| && p in states[i].procs && p in states[i + 1].procs
    requires steps[u].ClearSeg? && |states[u].fs.dirs| > 0 && |states[i].fs.dirs| > 0
    requires Clearance(states[i], states[i].procs[p], n, n in Dir(states[u].fs), steps[u].listed,
                       EverSpared(states, steps, p, n, u, i), FlushFailed(steps, p, u, i))
    ensures |states[i + 1].fs.dirs| > 0
    ensures Clearance(states[i + 1], states[i + 1].procs[p], n, n in Dir(states[u].fs), steps[u].listed,
                      EverSpared(states, steps, p, n, u, i + 1), FlushFailed(steps, p, u, i + 1))
  {
    RunKeeps(h, states, steps, i);
    RunKeeps(h, states, steps, i + 1);
    assert StepsAt(h, states, steps, i);
    var (s, s') := (states[i], states[i + 1]);
    assert HoldsCommit(s.procs[p]);
    EverSparedNext(states, steps, p, n, u, i);
    if steps[i].p == p {
      OwnClears(h, s, s', steps[i], p, n, n in Dir(states[u].fs), steps[u].listed,
                EverSpared(states, steps, p, n, u, i), FlushFailed(steps, p, u, i));
    } else {
      OthersLeave(h, s, s', steps[i], p);
    }
  }

  lemma EverSparedNext(states: seq<Sys>, steps: seq<Step>, p: Pid, n: Name, u: nat, i: nat)
    requires u < i < |steps| && |states| == |steps| + 1
    ensures EverSpared(states, steps, p, n, u, i + 1) <==> EverSpared(states, steps, p, n, u, i) || Spared(states[i], steps[i], p, n)
    ensures FlushFailed(steps, p, u, i + 1) <==> FlushFailed(steps, p, u, i) || steps[i] == SyncAll(p, false)
  {
  }

  /**
   * How a clear ends. It returns true exactly when it could list the files and its last flush succeeded. Then whatever
   * crash follows, the files it leaves are exactly those there were that it failed to remove: none, if it removed all.
   */
  lemma ClearEnds(h: Hash, states: seq<Sys>, steps: seq<Step>, p: Pid, u: nat, t: nat, after: map<Name, Bytes>)
    requires IsRun(h, states, steps) && InClear(states, steps, p, u, t) && states[t].procs[p].ClearReturning?
    requires Survives(states[t].fs, after)
    ensures |states[u].fs.dirs| > 0
    ensures states[t].procs[p].result <==> steps[u].listed && !FlushFailed(steps, p, u, t)
    ensures states[t].procs[p].result ==>
              forall n :: n in after <==> n in Dir(states[u].fs) && EverSpared(states, steps, p, n, u, t)
    ensures states[t].procs[p].result && (forall n :: !EverSpared(states, steps, p, n, u, t)) ==> after == map[]
  {
    RunClears(h, states, steps, p, u, t, []);
    forall n | states[t].procs[p].result
      ensures n in after <==> n in Dir(states[u].fs) && EverSpared(states, steps, p, n, u, t)
    {
      RunClears(h, states, steps, p, u, t, n);
      ClearedDisk(h, states, steps, p, t);
      assert NameSurvives(states[t].fs, after, n);
    }
  }

  lemma ClearedDisk(h: Hash, states: seq<Sys>, steps: seq<Step>, p: Pid, t: nat)
    requires IsRun(h, states, steps) && t < |states| && p in states[t].procs
    requires states[t].procs[p].ClearReturning? && states[t].procs[p].result
    ensures |states[t].fs.dirs| == 1
  {
    RunKeeps(h, states, steps, t);
    assert HoldsCommit(states[t].procs[p]) && states[t].committer == Some(p);
  }

  // -------------------------------------------------------------- strays --

  /** No clear so far has failed to list the files or to remove one. */
  ghost predicate ClearsFully(states: seq<Sys>, steps: seq<Step>, t: nat)
    requires t < |states| && |states| == |steps| + 1
  {
    forall i | 0 <= i < t ::
      && (steps[i].ClearSeg? ==> steps[i].listed)
      && (steps[i].RemoveOne? ==> !Spared(states[i], steps[i], steps[i].p, steps[i].name))
  }

  /** While it removes files, what is left on disk is what it has yet to try. */
  ghost predicate NoneSpared(s: Sys) {
    && |s.fs.dirs| > 0
    && forall p | p in s.procs && s.procs[p].ClearFiles? :: Dir(s.fs).Keys <= s.procs[p].left
  }

  lemma StepStrays(h: Hash, s: Sys, s': Sys, step: Step)
    requires Locks(s) && Next(h, s, s', step) && NoneSpared(s) && |s'.fs.dirs| > 0
    requires step.ClearSeg? ==> step.listed
    requires step.RemoveOne? ==> !Spared(s, step, step.p, step.name)
    ensures NoneSpared(s') && s'.strays <= s.strays
  {
    StraysGo(h, s, s', step);
    forall p | p in s'.procs && s'.procs[p].ClearFiles?
      ensures Dir(s'.fs).Keys <= s'.procs[p].left
    {
      if step.p == p {
        OwnLeft(h, s, s', step);
      } else {
        ClearerLeft(h, s, s', step, p);
      }
    }
  }

  lemma StraysGo(h: Hash, s: Sys, s': Sys, step: Step)
    requires Next(h, s, s', step) && NoneSpared(s)
    ensures s'.strays <= s.strays
  {
  }

  lemma OwnLeft(h: Hash, s: Sys, s': Sys, step: Step)
    requires Next(h, s, s', step) && NoneSpared(s) && |s'.fs.dirs| > 0
    requires step.p in s'.procs && s'.procs[step.p].ClearFiles?
    requires step.ClearSeg? ==> step.listed
    requires step.RemoveOne? ==> !Spared(s, step, step.p, step.name)
    ensures Dir(s'.fs).Keys <= s'.procs[step.p].left
  {
  }

  lemma ClearerLeft(h: Hash, s: Sys, s': Sys, step: Step, p: Pid)
    requires Locks(s) && Next(h, s, s', step) && step.p != p && p in s'.procs && s'.procs[p].ClearFiles?
    ensures p in s.procs && s.procs[p] == s'.procs[p] && s'.fs == s.fs
  {
    OthersStay(h, s, s', step, p);
    OthersLeave(h, s, s', step, p);
  }

  lemma OthersStay(h: Hash, s: Sys, s': Sys, step: Step, p: Pid)
    requires Next(h, s, s', step) && step.p != p && p in s'.procs
    ensures p in s.procs && s.procs[p] == s'.procs[p]
  {
  }

  /** Only a clear that cannot list or remove files makes strays; the others that there were may go, but none comes. */
  lemma {:induction false} NoNewStrays(h: Hash, states: seq<Sys>, steps: seq<Step>, t: nat)
    requires IsRun(h, states, steps) && t < |states| && ClearsFully(states, steps, t)
    ensures NoneSpared(states[t]) && states[t].strays <= states[0].strays
  {
    RunKeeps(h, states, steps, t);
    if t > 0 {
      NoNewStrays(h, states, steps, t - 1);
      RunKeeps(h, states, steps, t - 1);
      assert StepsAt(h, states, steps, t - 1);
      StepStrays(h, states[t - 1], states[t], steps[t - 1]);
    }
  }
}
