/**
 * A commit during which no set or unset changes anything: it settles every debt, and gives back their files to keys whose
 * files others have removed or cut short.
 */
module QuietCommit {
  import opened Layout
  import opened Index
  import opened Operations
  import opened MapRefinement
  import opened Names
  import opened FileSystem
  import opened CommitProtocol
  import opened CommitSafety
  import opened CommitTheorem
  import opened CommitOutcome
  import R = Reboot

  // -------------------------------------------------------- the snapshot --

  predicate Lists(pending: seq<Pending>, k: Key) {
    exists j | 0 <= j < |pending| :: pending[j].key == k
  }

  /**
   * A snapshot lists a key of memory exactly when it is dirty, or is live and storable and its file is missing or not of
   * its value's length; and it lists it with its value and counter of that moment.
   */
  lemma SnapshotLists(h: Hash, s: Sys, pending: seq<Pending>, k: Key)
    requires |s.slots| == SLOTS && |s.fs.dirs| > 0 && IsSnapshot(h, s, pending) && k in s.seg
    ensures Lists(pending, k) <==>
              || s.seg[k].dirty
              || (&& s.seg[k].val.Some? && ValidKey(k)
                  && (FileOf(s.fs, k) == None || |FileOf(s.fs, k).value| != |s.seg[k].val.value|))
    ensures forall q | q in pending && q.key == k ::
              q.val == s.seg[k].val && q.hash == h(k) && q.seen == s.slots[SlotOf(h(k))]
  {
    var q := Pending(k, s.seg[k].val, h(k), s.slots[SlotOf(h(k))]);
    assert q in pending <==> OwedNow(h, s, q);
    if Lists(pending, k) {
      var j :| 0 <= j < |pending| && pending[j].key == k;
      assert pending[j] in pending && OwedNow(h, s, pending[j]);
    }
  }

  // ----------------------------------------------------- nothing changes --

  /** Values and counters are what they were, and no key has become dirty. */
  ghost predicate Unchanged(s0: Sys, s: Sys) {
    && s.slots == s0.slots
    && (forall k :: SegVal(s.seg, k) == SegVal(s0.seg, k))
    && (forall k | Dirty(s.seg, k) :: Dirty(s0.seg, k))
  }

  /** Process `p` snapshots at step `u` and is still in that commit at `t`, and no set or unset has changed anything since. */
  ghost predicate RunsQuietly(states: seq<Sys>, steps: seq<Step>, p: Pid, u: nat, t: nat) {
    && InCommit(states, steps, p, u, t)
    && (forall i | u < i < t && steps[i].Act? :: states[i + 1].seg == states[i].seg)
  }

  lemma ActUnchanged(h: Hash, s: Sys, op: SegOp, ok: bool)
    requires |s.slots| == SLOTS && ActOn(h, s, op, ok).seg == s.seg
    ensures ActOn(h, s, op, ok) == s
  {
    var t := ActOn(h, s, op, ok);
    assert t != s ==> SegVal(t.seg, op.key) != SegVal(s.seg, op.key);
  }

  /** A commit's own steps change no value and no counter. */
  lemma OwnUnchanged(h: Hash, s: Sys, s': Sys, step: Step, p: Pid)
    requires Next(h, s, s', step) && step.p == p && p in s.procs && CommitOf(s.procs[p]).Some?
    ensures Unchanged(s, s')
  {
  }

  lemma StepUnchanged(h: Hash, s: Sys, s': Sys, step: Step, p: Pid)
    requires Locks(s) && Next(h, s, s', step) && p in s.procs && p in s'.procs && CommitOf(s.procs[p]).Some?
    requires step.Act? ==> s'.seg == s.seg
    ensures Unchanged(s, s')
  {
    if step.p == p {
      OwnUnchanged(h, s, s', step, p);
    } else {
      OthersLeave(h, s, s', step, p);
      if step.Act? {
        ActUnchanged(h, s, s.procs[step.p].op, step.ok);
      }
    }
  }

  lemma {:induction false} RunQuiet(h: Hash, states: seq<Sys>, steps: seq<Step>, p: Pid, u: nat, t: nat)
    requires IsRun(h, states, steps) && RunsQuietly(states, steps, p, u, t)
    ensures Unchanged(states[u], states[t])
    decreases t
  {
    if t == u + 1 {
      assert StepsAt(h, states, steps, u);
    } else {
      RunQuiet(h, states, steps, p, u, t - 1);
      RunTracked(h, states, steps, p, u, t - 1);
      NextQuiet(h, states, steps, p, t - 1);
    }
  }

  lemma NextQuiet(h: Hash, states: seq<Sys>, steps: seq<Step>, p: Pid, i: nat)
    requires IsRun(h, states, steps) && i < |steps| && p in states[i].procs && CommitOf(states[i].procs[p]).Some?
    requires p in states[i + 1].procs && (steps[i].Act? ==> states[i + 1].seg == states[i].seg)
    ensures Unchanged(states[i], states[i + 1])
  {
    RunKeeps(h, states, steps, i);
    assert StepsAt(h, states, steps, i);
    StepUnchanged(h, states[i], states[i + 1], steps[i], p);
  }

  // ------------------------------------------------------ what it settles --

  /** A commit without a failure has published every entry of its snapshot. */
  lemma NoneFailsForAny(states: seq<Sys>, steps: seq<Step>, p: Pid, u: nat, t: nat, q: Pending)
    requires t < |states| && |states| == |steps| + 1 && NoneFails(states, steps, p, u, t)
    ensures NoneFailsFor(states, steps, p, u, t, q)
  {
    forall i | u < i < t && steps[i].p == p
      ensures !FailsFor(states[i], steps[i], q)
    {
      assert !Fails(states[i], steps[i]);
    }
  }

  /**
   * Such a commit returns true exactly when none of its calls fails. Then nothing is dirty, and each key of its snapshot
   * has for its file the value that memory had throughout: so has each live key whose file was missing or of another
   * length, whoever had touched it.
   */
  lemma QuietCommitHeals(h: Hash, states: seq<Sys>, steps: seq<Step>, p: Pid, u: nat, t: nat)
    requires IsRun(h, states, steps) && RunsQuietly(states, steps, p, u, t) && states[t].procs[p].Returning?
    ensures |states[u].fs.dirs| > 0 && |states[t].fs.dirs| > 0
    ensures states[t].procs[p].result <==> NoneFails(states, steps, p, u, t)
    ensures NoneFails(states, steps, p, u, t) ==>
              && (forall k :: !Dirty(states[t].seg, k))
              && (forall k | Lists(steps[u].pending, k) ::
                    SegVal(states[t].seg, k) == SegVal(states[u].seg, k) == FileOf(states[t].fs, k))
    ensures NoneFails(states, steps, p, u, t) ==>
              forall k | k in states[u].seg && states[u].seg[k].val.Some? && ValidKey(k)
                         && (FileOf(states[u].fs, k) == None || |FileOf(states[u].fs, k).value| != |states[u].seg[k].val.value|) ::
                FileOf(states[t].fs, k) == states[u].seg[k].val
  {
    CommitEnds(h, states, steps, p, u, t);
    RunQuiet(h, states, steps, p, u, t);
    if NoneFails(states, steps, p, u, t) {
      forall k | Lists(steps[u].pending, k)
        ensures SegVal(states[t].seg, k) == SegVal(states[u].seg, k) == FileOf(states[t].fs, k)
        ensures !Dirty(states[t].seg, k)
      {
        ListedSettles(h, states, steps, p, u, t, k);
      }
      forall k
        ensures !Dirty(states[t].seg, k)
        ensures k in states[u].seg && Dirty(states[u].seg, k) ==> Lists(steps[u].pending, k)
      {
        if k in states[u].seg {
          SnapshotLists(h, states[u], steps[u].pending, k);
        }
      }
      forall k | k in states[u].seg && states[u].seg[k].val.Some? && ValidKey(k)
                 && (FileOf(states[u].fs, k) == None || |FileOf(states[u].fs, k).value| != |states[u].seg[k].val.value|)
        ensures FileOf(states[t].fs, k) == states[u].seg[k].val
      {
        SnapshotLists(h, states[u], steps[u].pending, k);
      }
    }
  }

  lemma ListedSettles(h: Hash, states: seq<Sys>, steps: seq<Step>, p: Pid, u: nat, t: nat, k: Key)
    requires IsRun(h, states, steps) && RunsQuietly(states, steps, p, u, t) && states[t].procs[p].Returning?
    requires NoneFails(states, steps, p, u, t) && Lists(steps[u].pending, k) && Unchanged(states[u], states[t])
    ensures |states[t].fs.dirs| > 0 && !Dirty(states[t].seg, k)
    ensures SegVal(states[t].seg, k) == SegVal(states[u].seg, k) == FileOf(states[t].fs, k)
  {
    CommitEnds(h, states, steps, p, u, t);
    var j :| 0 <= j < |steps[u].pending| && steps[u].pending[j].key == k;
    var q := steps[u].pending[j];
    assert q in steps[u].pending && OwedNow(h, states[u], q);
    NoneFailsForAny(states, steps, p, u, t, q);
    assert Standing(states[t], q);
  }

  /** So the reboot that follows such a commit brings the store back: nothing is dirty, whatever else was running. */
  lemma QuietCommitCommits(h: Hash, states: seq<Sys>, steps: seq<Step>, p: Pid, u: nat, t: nat)
    requires IsRun(h, states, steps) && RunsQuietly(states, steps, p, u, t)
    requires states[t].procs[p].Returning? && states[t].procs[p].result
    ensures R.Committed(states[t], p)
  {
    QuietCommitHeals(h, states, steps, p, u, t);
  }
}
