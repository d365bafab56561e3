/** The store leaves no file that populating would take for a key it could not have been asked to store. */
module StorableNames {
  import opened Layout
  import opened Index
  import opened Operations
  import opened MapRefinement
  import opened Names
  import opened FileSystem
  import opened CommitProtocol
  import opened CommitSafety
  import opened CommitTheorem

  /** If the walk of the directory hands this name on, it is a key that can be stored. */
  predicate NameOk(n: Name) {
    Visible(n) ==> ValidKey(n)
  }

  /** So it is of every name since the last flush. */
  ghost predicate OnlyStorable(fs: Fs) {
    forall i, n | 0 <= i < |fs.dirs| && n in fs.dirs[i] :: NameOk(n)
  }

  lemma TempIsHidden(p: Pid, key: Key)
    ensures NameOk(TempName(p, key))
  {
    assert TempName(p, key)[0] == DOT;
  }

  /** The directories of `fs'` hold no names but those of `fs`, and perhaps `n`. */
  ghost predicate NamesWithin(fs: Fs, fs': Fs, n: Name)
    requires |fs.dirs| > 0
  {
    forall i, m | 0 <= i < |fs'.dirs| && m in fs'.dirs[i] :: m == n || exists j | 0 <= j < |fs.dirs| :: m in fs.dirs[j]
  }

  lemma CallsAddNoName(fs: Fs, n: Name, bytes: Bytes)
    requires |fs.dirs| > 0
    ensures NamesWithin(fs, Create(fs, n, bytes), n) && NamesWithin(fs, Unlink(fs, n), n)
    ensures NamesWithin(fs, Flush(fs), n) && NamesWithin(fs, fs, n)
    ensures forall a | a in Dir(fs) :: NamesWithin(fs, Rename(fs, a, n), n)
  {
  }

  lemma StaysStorable(fs: Fs, fs': Fs, n: Name)
    requires |fs.dirs| > 0 && OnlyStorable(fs) && NamesWithin(fs, fs', n) && NameOk(n)
    ensures OnlyStorable(fs')
  {
  }

  lemma UnlinkStays(fs: Fs, n: Name)
    requires |fs.dirs| > 0 && OnlyStorable(fs)
    ensures OnlyStorable(Unlink(fs, n)) && OnlyStorable(Flush(fs))
  {
  }

  lemma StageStays(s: Sys, s': Sys, p: Pid, ok: bool, left: Option<Bytes>)
    requires |s.fs.dirs| > 0 && DoStageOne(s, s', p, ok, left) && OnlyStorable(s.fs)
    ensures OnlyStorable(s'.fs)
  {
    var q := s.procs[p].c.pending[s.procs[p].n];
    var tmp := TempName(p, q.key);
    TempIsHidden(p, q.key);
    if q.val.Some? {
      var bytes := if ok then q.val.value else if left.Some? then left.value else [];
      CallsAddNoName(s.fs, tmp, bytes);
      StaysStorable(s.fs, s'.fs, tmp);
    }
  }

  lemma PublishStays(h: Hash, s: Sys, s': Sys, p: Pid, ok: bool, removed: bool)
    requires SysInv(h, s) && DoPublishOne(s, s', p, ok, removed) && OnlyStorable(s.fs)
    ensures OnlyStorable(s'.fs)
  {
    var (c, n) := (s.procs[p].c, s.procs[p].n);
    var key := c.staged[n].p.key;
    assert HoldsCommit(s.procs[p]) && s.committer == Some(p);
    StagedKey(h, s, c, n);
    UnlinkStays(s.fs, key);
    UnlinkStays(s.fs, TempName(p, key));
    if c.staged[n].tmp && ok {
      CallsAddNoName(s.fs, key, []);
      StaysStorable(s.fs, s'.fs, key);
    }
  }

  lemma NextStays(h: Hash, s: Sys, s': Sys, step: Step)
    requires SysInv(h, s) && Next(h, s, s', step) && OnlyStorable(s.fs)
    ensures OnlyStorable(s'.fs)
  {
    if step.StageOne? {
      StageStays(s, s', step.p, step.ok, step.left);
    } else if step.PublishOne? {
      PublishStays(h, s, s', step.p, step.ok, step.removed);
    } else if step.DiscardOne? {
      UnlinkStays(s.fs, TempName(step.p, s.procs[step.p].c.staged[s.procs[step.p].n].p.key));
    } else if step.RemoveOne? {
      UnlinkStays(s.fs, step.name);
    }
  }

  /** Over every run from a directory with only such names, no other ever appears in it. */
  lemma {:induction false} RunStays(h: Hash, states: seq<Sys>, steps: seq<Step>, t: nat)
    requires IsRun(h, states, steps) && t < |states| && OnlyStorable(states[0].fs)
    ensures OnlyStorable(states[t].fs)
  {
    if t > 0 {
      RunStays(h, states, steps, t - 1);
      StaysAt(h, states, steps, t - 1);
    }
  }

  lemma StaysAt(h: Hash, states: seq<Sys>, steps: seq<Step>, t: nat)
    requires IsRun(h, states, steps) && t < |steps| && OnlyStorable(states[t].fs)
    ensures OnlyStorable(states[t + 1].fs)
  {
    RunKeeps(h, states, steps, t);
    assert StepsAt(h, states, steps, t);
    NextStays(h, states[t], states[t + 1], steps[t]);
  }

  /** Every name the walk of the directory hands on is a key that can be stored. */
  ghost predicate AllStorable(files: map<Name, Bytes>) {
    forall n | n in files && Visible(n) :: ValidKey(n)
  }

  /** Nor is any left by a crash. */
  lemma CrashLeavesStorable(h: Hash, states: seq<Sys>, steps: seq<Step>, t: nat, after: map<Name, Bytes>)
    requires IsRun(h, states, steps) && t < |states| && OnlyStorable(states[0].fs)
    requires Survives(states[t].fs, after)
    ensures AllStorable(after)
  {
    RunStays(h, states, steps, t);
    forall n | n in after && Visible(n)
      ensures ValidKey(n)
    {
      assert NameSurvives(states[t].fs, after, n);
      assert exists i | 0 <= i < |states[t].fs.dirs| :: n in states[t].fs.dirs[i];
      assert NameOk(n);
    }
  }
}
