/**
 * Private copies against the segment: every process's cache, under every interleaving of gets, sets, unsets and clears.
 *
 * The segment appears as what its keys hold and its slot counters. Between opening and closing a write window its
 * holder may change the keys of that slot in any way, more than once, and may die; a lock-free read returns what its
 * key holds, or is torn, as `LockFreeRead` proves. A compaction that loses nothing changes no key and does not appear.
 */
module Coherence {
  import opened Layout

  type Pid = nat

  /** What the lock holder is doing. */
  datatype Work =
    | Free
    | Quiet(p: Pid)
    | Window(p: Pid, x: nat)
    | Clearing(p: Pid, n: nat)

  /** A value copied out of the segment, and the counter value recorded with it. */
  datatype Copied = Copied(key: Key, val: Option<Bytes>, seen: nat)

  /** A get, or the tail of a set or unset, that has yet to reach the cache. */
  datatype Getting =
    | Before(key: Key, before: nat)
    | Reading(key: Key, before: nat, s1: nat)
    | Ready(c: Copied)

  datatype Sys = Sys(
    holds: map<Key, Bytes>,
    slots: seq<nat>,
    work: Work,
    gets: map<Pid, Getting>,
    caches: map<(Pid, Key), Copied>)

  datatype Step =
    | Lock(p: Pid)
    | Unlock(p: Pid)
    | Open(p: Pid, x: nat)
    | Change(p: Pid, key: Key, val: Option<Bytes>)
    | Close(p: Pid)
    | Repair(p: Pid, x: nat)
    | ClearStart(p: Pid)
    | ClearBump(p: Pid)
    | Die(p: Pid)
    | LoadVersion(p: Pid, key: Key)
    | FirstLoad(p: Pid)
    | LastLoad(p: Pid, torn: bool)
    | LockedLoad(p: Pid, key: Key)
    | Install(p: Pid)
    | Invalidate(p: Pid)

  function Held(s: Sys, key: Key): Option<Bytes> {
    if key in s.holds then Some(s.holds[key]) else None
  }

  function WithSlot(s: Sys, x: nat, v: nat): Sys
    requires x < |s.slots|
  {
    s.(slots := s.slots[x := v])
  }

  /** The slot a key's counter is in. */
  function Slot(h: Hash, key: Key): (x: nat)
    ensures x < SLOTS
  {
    SlotOf(h(key))
  }

  ghost predicate Next(h: Hash, s: Sys, s': Sys, step: Step) {
    && |s.slots| == SLOTS
    && match step
       case Lock(p) => s.work == Free && s' == s.(work := Quiet(p))
       case Unlock(p) => s.work == Quiet(p) && s' == s.(work := Free)
       case Open(p, x) =>
         s.work == Quiet(p) && x < SLOTS && s' == WithSlot(s, x, NextOdd(s.slots[x])).(work := Window(p, x))
       case Change(p, key, val) =>
         && s.work == Window(p, Slot(h, key))
         && s' == s.(holds := if val.Some? then s.holds[key := val.value] else s.holds - {key})
       case Close(p) =>
         s.work.Window? && s.work.p == p && s.work.x < SLOTS
         && s' == WithSlot(s, s.work.x, NextEven(s.slots[s.work.x])).(work := Quiet(p))
       case Repair(p, x) =>
         s.work == Quiet(p) && x < SLOTS && s.slots[x] % 2 == 1 && s' == WithSlot(s, x, NextEven(s.slots[x]))
       case ClearStart(p) => s.work == Quiet(p) && s' == s.(holds := map[], work := Clearing(p, 0))
       case ClearBump(p) =>
         s.work.Clearing? && s.work.p == p
         && if s.work.n < SLOTS then s' == WithSlot(s, s.work.n, NextEven(s.slots[s.work.n])).(work := Clearing(p, s.work.n + 1))
            else s' == s.(work := Quiet(p))
       case Die(p) =>
         && !(s.work.Clearing? && s.work.p == p)
         && s' == s.(work := if !s.work.Free? && s.work.p == p then Free else s.work,
                     gets := s.gets - {p},
                     caches := map c | c in s.caches && c.0 != p :: s.caches[c])
       case LoadVersion(p, key) =>
         && (p in s.gets ==> !s.gets[p].Ready?)
         && s' == s.(gets := s.gets[p := Before(key, s.slots[Slot(h, key)])])
       case FirstLoad(p) =>
         && p in s.gets && s.gets[p].Before?
         && var g := s.gets[p];
            var s1 := s.slots[Slot(h, g.key)];
            s' == if s1 % 2 == 0 then s.(gets := s.gets[p := Reading(g.key, g.before, s1)]) else s.(gets := s.gets - {p})
       case LastLoad(p, torn) =>
         && p in s.gets && s.gets[p].Reading?
         && var g := s.gets[p];
            s' == if torn || s.slots[Slot(h, g.key)] != g.s1 then s.(gets := s.gets - {p})
                  else s.(gets := s.gets[p := Ready(Copied(g.key, Held(s, g.key), g.before))])
       case LockedLoad(p, key) =>
         && s.work == Quiet(p) && (p in s.gets ==> !s.gets[p].Ready?)
         && s' == s.(gets := s.gets[p := Ready(Copied(key, Held(s, key), s.slots[Slot(h, key)]))])
       case Install(p) =>
         && p in s.gets && s.gets[p].Ready?
         && var c := s.gets[p].c;
            s' == s.(caches := s.caches[(p, c.key) := c], gets := s.gets - {p})
       case Invalidate(p) => s' == s.(caches := map c | c in s.caches && c.0 != p :: s.caches[c])
  }

  /** No write window is open on slot `x`, and no clear has yet to move its counter. */
  predicate Settled(s: Sys, x: nat) {
    && !(s.work.Window? && s.work.x == x)
    && !(s.work.Clearing? && s.work.n <= x)
  }

  /**
   * The recorded counter is never newer than the copied bytes: if it is the current one then no window is open, and the
   * copy is what the key holds, unless a clear has yet to move this counter.
   */
  predicate CopyOk(h: Hash, s: Sys, c: Copied)
    requires |s.slots| == SLOTS
  {
    var x := Slot(h, c.key);
    && c.seen <= s.slots[x]
    && (c.seen == s.slots[x] ==> !(s.work.Window? && s.work.x == x))
    && (c.seen == s.slots[x] && Settled(s, x) ==> c.val == Held(s, c.key))
  }

  predicate GettingOk(h: Hash, s: Sys, g: Getting)
    requires |s.slots| == SLOTS
  {
    match g
    case Before(key, before) => before <= s.slots[Slot(h, key)]
    case Reading(key, before, s1) => before <= s1 <= s.slots[Slot(h, key)] && s1 % 2 == 0
    case Ready(c) => CopyOk(h, s, c)
  }

  ghost predicate SysInv(h: Hash, s: Sys) {
    && |s.slots| == SLOTS
    && (s.work.Window? ==> s.work.x < SLOTS && s.slots[s.work.x] % 2 == 1)
    && (forall p | p in s.gets :: GettingOk(h, s, s.gets[p]))
    && (forall c | c in s.caches :: s.caches[c].key == c.1 && CopyOk(h, s, s.caches[c]))
  }

  ghost predicate Init(s: Sys) {
    |s.slots| == SLOTS && s.work == Free && s.gets == map[] && s.caches == map[]
  }

  /** The steps of the lock holder that move a counter or change what a key holds. */
  predicate Writes(step: Step) {
    step.Open? || step.Change? || step.Close? || step.Repair? || step.ClearStart? || step.ClearBump?
  }

  lemma WriteKeepsCopy(h: Hash, s: Sys, s': Sys, step: Step, c: Copied)
    requires |s.slots| == SLOTS && (s.work.Window? ==> s.work.x < SLOTS && s.slots[s.work.x] % 2 == 1)
    requires Writes(step) && Next(h, s, s', step)
    requires CopyOk(h, s, c)
    ensures |s'.slots| == SLOTS && CopyOk(h, s', c)
  {
  }

  /** Good copies stay good whatever any process does. */
  lemma CopyKept(h: Hash, s: Sys, s': Sys, step: Step, c: Copied)
    requires SysInv(h, s) && Next(h, s, s', step)
    requires CopyOk(h, s, c)
    ensures |s'.slots| == SLOTS && CopyOk(h, s', c)
  {
    if Writes(step) {
      WriteKeepsCopy(h, s, s', step, c);
    }
  }

  lemma CountersGrow(h: Hash, s: Sys, s': Sys, step: Step)
    requires SysInv(h, s) && Next(h, s, s', step)
    ensures |s'.slots| == SLOTS
    ensures forall x | 0 <= x < SLOTS :: s.slots[x] <= s'.slots[x]
    ensures s'.work.Window? ==> s'.work.x < SLOTS && s'.slots[s'.work.x] % 2 == 1
  {
  }

  lemma GettingKept(h: Hash, s: Sys, s': Sys, step: Step, g: Getting)
    requires SysInv(h, s) && Next(h, s, s', step)
    requires GettingOk(h, s, g)
    ensures |s'.slots| == SLOTS && GettingOk(h, s', g)
  {
    CountersGrow(h, s, s', step);
    if g.Ready? {
      CopyKept(h, s, s', step, g.c);
    }
  }

  /** Where a get has got to is either where it was, or where this step took it. */
  lemma GetsFrom(h: Hash, s: Sys, s': Sys, step: Step, p: Pid)
    requires SysInv(h, s) && Next(h, s, s', step) && p in s'.gets
    ensures (p in s.gets && s'.gets[p] == s.gets[p]) || (s'.slots == s.slots && s'.work == s.work && s'.holds == s.holds && GettingOk(h, s, s'.gets[p]))
  {
  }

  lemma CachesFrom(h: Hash, s: Sys, s': Sys, step: Step, c: (Pid, Key))
    requires SysInv(h, s) && Next(h, s, s', step) && c in s'.caches
    ensures s'.caches[c].key == c.1 && CopyOk(h, s, s'.caches[c])
  {
  }

  lemma NextKeeps(h: Hash, s: Sys, s': Sys, step: Step)
    requires SysInv(h, s) && Next(h, s, s', step)
    ensures SysInv(h, s')
  {
    CountersGrow(h, s, s', step);
    forall p | p in s'.gets
      ensures GettingOk(h, s', s'.gets[p])
    {
      GetsFrom(h, s, s', step, p);
      if p in s.gets && s'.gets[p] == s.gets[p] {
        GettingKept(h, s, s', step, s.gets[p]);
      }
    }
    forall c | c in s'.caches
      ensures s'.caches[c].key == c.1 && CopyOk(h, s', s'.caches[c])
    {
      CachesFrom(h, s, s', step, c);
      CopyKept(h, s, s', step, s'.caches[c]);
    }
  }

  ghost predicate IsRun(h: Hash, states: seq<Sys>, steps: seq<Step>) {
    && |states| == |steps| + 1 && Init(states[0])
    && forall t | 0 <= t < |steps| :: Next(h, states[t], states[t + 1], steps[t])
  }

  lemma {:induction false} RunKeeps(h: Hash, states: seq<Sys>, steps: seq<Step>, t: nat)
    requires IsRun(h, states, steps) && t < |states|
    ensures SysInv(h, states[t])
  {
    if t > 0 {
      RunKeeps(h, states, steps, t - 1);
      NextKeeps(h, states[t - 1], states[t], steps[t - 1]);
    }
  }

  /**
   * In every reachable state with no clear in progress, a cached entry whose recorded counter is the current one holds
   * exactly what the segment holds, absence included. So a cache hit reads what a lock-free read would.
   */
  lemma HitIsCurrent(h: Hash, states: seq<Sys>, steps: seq<Step>, t: nat, p: Pid, key: Key)
    requires IsRun(h, states, steps) && t < |states|
    requires !states[t].work.Clearing?
    requires (p, key) in states[t].caches
    ensures |states[t].slots| == SLOTS
    ensures states[t].caches[(p, key)].seen == states[t].slots[Slot(h, key)] ==>
              states[t].caches[(p, key)].val == Held(states[t], key)
  {
    RunKeeps(h, states, steps, t);
  }
}
