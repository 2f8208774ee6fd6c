/**
  Which locks a CPU holds: p->lock and wait_lock are held only at the program points that
  say so, in every interleaving.  So sched() finds its caller holding exactly one lock.
 */
module LockOwners {
  import opened ProcTable
  import opened Scheduler
  import opened ExitWait

  /** CPU c is at a point of the scheduler, or runs a thread, that holds the lock of p. */
  ghost predicate HeldBy(cs: seq<Cpu>, ps: seq<Proc>, p: nat, c: nat)
    requires TableWf(cs, ps)
  {
    && c < |cs| && p < |ps|
    && match cs[c].pc {
         case Scan => false
         case Exec => HeldIn(ps, p, cs[c].proc.value)
         case _ => cs[c].pc.p == p
       }
  }

  /** The thread of process r holds the lock of p: its own, or that of the child in fork(). */
  ghost predicate HeldIn(ps: seq<Proc>, p: nat, r: nat)
    requires r < |ps|
  {
    (r == p && SelfLocked(ps[r].pc)) || ps[r].pc == ForkHold(p)
  }

  ghost predicate LockOk(cs: seq<Cpu>, ps: seq<Proc>, p: nat)
    requires TableWf(cs, ps)
  {
    p < |ps| && ps[p].lock.Some? ==> HeldBy(cs, ps, p, ps[p].lock.value)
  }

  ghost predicate WaitLockOk(s: State) {
    s.waitLock.Some? ==> s.waitLock.value < |s.procs| && HoldsWait(s.procs[s.waitLock.value].pc)
  }

  ghost predicate LockInv(s: State) {
    && TableWf(s.cpus, s.procs) && WaitLockOk(s)
    && forall p: nat :: LockOk(s.cpus, s.procs, p)
  }

  /** What a step of CPU c may do to a slot: it leaves alone the thread and the lock that
      belong to another CPU. */
  predicate SlotEffect(x: Proc, y: Proc, c: nat) {
    && (x.on.Some? && x.on != Some(c) ==> y.pc == x.pc)
    && (y.lock == x.lock || ((x.lock == None || x.lock == Some(c)) && (y.lock == None || y.lock == Some(c))))
  }

  ghost predicate StepEffect(s: State, t: State, c: nat) {
    && |t.procs| == |s.procs| && |t.cpus| == |s.cpus|
    && (forall d: nat :: d < |s.cpus| && d != c ==> t.cpus[d] == s.cpus[d])
    && forall p: nat :: p < |s.procs| ==> SlotEffect(s.procs[p], t.procs[p], c)
  }

  lemma SchedEffect(s: State, c: nat, a: Action, p: nat)
    requires SchedInv(s) && Enabled(s, c, a) && !s.cpus[c].pc.Exec? && p < |s.procs|
    ensures |After(s, c, a).procs| == |s.procs| && SlotEffect(s.procs[p], After(s, c, a).procs[p], c)
  {
    assert CpuOk(s.cpus, s.procs, c);
  }

  lemma CallEffect(s: State, c: nat, r: nat, a: Action, p: nat)
    requires SchedInv(s) && Executes(s, c, r) && !a.Pick? && !a.Go? && ThreadEnabled(s, r, a) && p < |s.procs|
    ensures |CallStep(s, c, r, a).procs| == |s.procs| && SlotEffect(s.procs[p], CallStep(s, c, r, a).procs[p], c)
  {
    InvExecuting(s, c, r);
    assert CpuOk(s.cpus, s.procs, c);
    if a.ForkFails? { FreshIsOff(s, s.procs[r].pc.np); }
  }

  lemma ThreadEffect(s: State, c: nat, r: nat, p: nat)
    requires SchedInv(s) && Executes(s, c, r) && GoEnabled(s, r) && p < |s.procs|
    ensures |ThreadStep(s, c, r).procs| == |s.procs| && SlotEffect(s.procs[p], ThreadStep(s, c, r).procs[p], c)
  {
    InvExecuting(s, c, r);
    assert CpuOk(s.cpus, s.procs, c);
    if Forks(s.procs[r].pc) { FreshIsOff(s, Cont(s.procs[r].pc).np); }
    if Reaps(s, r) { OnCpuWhileFree(s, s.procs[r].pc.i); }
  }

  lemma Effect(s: State, c: nat, a: Action)
    requires SchedInv(s) && Enabled(s, c, a)
    ensures StepEffect(s, After(s, c, a), c)
  {
    var t := After(s, c, a);
    forall p: nat | p < |s.procs| ensures |t.procs| == |s.procs| && SlotEffect(s.procs[p], t.procs[p], c) {
      if !s.cpus[c].pc.Exec? {
        SchedEffect(s, c, a, p);
      } else if a.Go? {
        ThreadEffect(s, c, s.cpus[c].proc.value, p);
      } else {
        CallEffect(s, c, s.cpus[c].proc.value, a, p);
      }
    }
  }

  /** A lock that another CPU holds stays held by it. */
  lemma OthersKeep(s: State, t: State, c: nat, p: nat, d: nat)
    requires SchedInv(s) && StepEffect(s, t, c) && TableWf(t.cpus, t.procs)
    requires HeldBy(s.cpus, s.procs, p, d) && d != c
    ensures HeldBy(t.cpus, t.procs, p, d)
  {
    assert CpuOk(s.cpus, s.procs, d);
  }

  /** After a step of the scheduler, the locks of CPU c are those of its program point. */
  lemma SchedMine(s: State, c: nat, a: Action, p: nat)
    requires SchedInv(s) && Enabled(s, c, a) && !s.cpus[c].pc.Exec? && p < |s.procs| && LockOk(s.cpus, s.procs, p)
    requires var t := After(s, c, a); TableWf(t.cpus, t.procs) && |t.procs| == |s.procs| && t.procs[p].lock == Some(c)
    ensures HeldBy(After(s, c, a).cpus, After(s, c, a).procs, p, c)
  {
    assert CpuOk(s.cpus, s.procs, c);
    if s.cpus[c].pc.Set? { assert ProcOk(s.cpus, s.procs, s.cpus[c].pc.p); }
  }

  lemma CallMine(s: State, c: nat, r: nat, a: Action, p: nat)
    requires SchedInv(s) && Executes(s, c, r) && !a.Pick? && !a.Go? && ThreadEnabled(s, r, a)
    requires p < |s.procs| && LockOk(s.cpus, s.procs, p)
    requires var t := CallStep(s, c, r, a);
      TableWf(t.cpus, t.procs) && |t.procs| == |s.procs| && t.procs[p].lock == Some(c)
    ensures HeldBy(CallStep(s, c, r, a).cpus, CallStep(s, c, r, a).procs, p, c)
  {
  }

  /** A step unlocks the only other lock that its thread can hold. */
  lemma OtherUnlocked(s: State, c: nat, r: nat, p: nat)
    requires Wf(s) && Executes(s, c, r) && GoEnabled(s, r) && p < |s.procs| && p != r
    requires s.procs[p].lock == Some(c) ==> s.procs[r].pc == ForkHold(p)
    ensures |ThreadStep(s, c, r).procs| == |s.procs| && ThreadStep(s, c, r).procs[p].lock != Some(c)
  {
  }

  /** A thread that holds its own lock after a step is at a point that holds it, or has
      just switched to the scheduler, which holds it. */
  lemma OwnHeld(s: State, c: nat, r: nat)
    requires Wf(s) && Executes(s, c, r) && GoEnabled(s, r)
    requires s.procs[r].lock == Some(c) ==> SelfLocked(s.procs[r].pc) || s.procs[r].pc == ForkHold(r)
    ensures var t := ThreadStep(s, c, r);
      && |t.procs| == |s.procs| && |t.cpus| == |s.cpus|
      && (t.procs[r].lock == Some(c) ==>
          t.cpus[c] == Cpu(Some(r), Returned(r)) || (t.cpus == s.cpus && SelfLocked(t.procs[r].pc)))
  {
    if SelfLocked(s.procs[r].pc) {
      OwnStillHeld(s, c, r);
    } else if s.procs[r].lock != Some(c) {
      OwnTaken(s, c, r);
    }
  }

  lemma OwnTaken(s: State, c: nat, r: nat)
    requires Wf(s) && Executes(s, c, r) && GoEnabled(s, r) && !SelfLocked(s.procs[r].pc) && s.procs[r].lock != Some(c)
    ensures var t := ThreadStep(s, c, r);
      && |t.procs| == |s.procs| && |t.cpus| == |s.cpus|
      && (t.procs[r].lock == Some(c) ==>
          t.cpus[c] == Cpu(Some(r), Returned(r)) || (t.cpus == s.cpus && SelfLocked(t.procs[r].pc)))
  {
  }

  lemma OwnStillHeld(s: State, c: nat, r: nat)
    requires Wf(s) && Executes(s, c, r) && GoEnabled(s, r) && SelfLocked(s.procs[r].pc)
    ensures var t := ThreadStep(s, c, r);
      && |t.procs| == |s.procs| && |t.cpus| == |s.cpus|
      && (t.procs[r].lock == Some(c) ==>
          t.cpus[c] == Cpu(Some(r), Returned(r)) || (t.cpus == s.cpus && SelfLocked(t.procs[r].pc)))
  {
  }

  lemma ThreadMine(s: State, c: nat, r: nat, p: nat)
    requires SchedInv(s) && Executes(s, c, r) && GoEnabled(s, r) && p < |s.procs| && LockOk(s.cpus, s.procs, p)
    requires var t := ThreadStep(s, c, r);
      TableWf(t.cpus, t.procs) && |t.procs| == |s.procs| && t.procs[p].lock == Some(c)
    ensures HeldBy(ThreadStep(s, c, r).cpus, ThreadStep(s, c, r).procs, p, c)
  {
    if p == r {
      OwnHeld(s, c, r);
    } else {
      OtherUnlocked(s, c, r, p);
    }
  }

  lemma LockKept(s: State, c: nat, a: Action, p: nat)
    requires SchedInv(s) && Enabled(s, c, a) && LockOk(s.cpus, s.procs, p)
    requires SchedInv(After(s, c, a)) && StepEffect(s, After(s, c, a), c)
    ensures LockOk(After(s, c, a).cpus, After(s, c, a).procs, p)
  {
    var t := After(s, c, a);
    if p < |s.procs| && t.procs[p].lock.Some? {
      assert SlotEffect(s.procs[p], t.procs[p], c);
      if t.procs[p].lock != Some(c) {
        OthersKeep(s, t, c, p, t.procs[p].lock.value);
      } else if !s.cpus[c].pc.Exec? {
        SchedMine(s, c, a, p);
      } else if a.Go? {
        ThreadMine(s, c, s.cpus[c].proc.value, p);
      } else {
        CallMine(s, c, s.cpus[c].proc.value, a, p);
      }
    }
  }

  /** The holder of wait_lock gives it back when it leaves the points that hold it. */
  lemma ThreadWaitLock(s: State, c: nat, r: nat)
    requires Inv(s) && WaitLockOk(s) && Executes(s, c, r) && GoEnabled(s, r)
    ensures WaitLockOk(ThreadStep(s, c, r))
  {
    InvExecuting(s, c, r);
    assert SoloOk(s, r);
    if Reaps(s, r) {
      OnCpuWhileFree(s, s.procs[r].pc.i);
    }
  }

  lemma CallWaitLock(s: State, c: nat, r: nat, a: Action)
    requires Inv(s) && WaitLockOk(s) && Executes(s, c, r) && !a.Pick? && !a.Go? && ThreadEnabled(s, r, a)
    ensures WaitLockOk(CallStep(s, c, r, a))
  {
    InvExecuting(s, c, r);
    assert SoloOk(s, r);
  }

  lemma WaitLockKept(s: State, c: nat, a: Action)
    requires Inv(s) && WaitLockOk(s) && Enabled(s, c, a)
    ensures WaitLockOk(After(s, c, a))
  {
    if s.cpus[c].pc.Exec? {
      if a.Go? {
        ThreadWaitLock(s, c, s.cpus[c].proc.value);
      } else {
        CallWaitLock(s, c, s.cpus[c].proc.value, a);
      }
    }
  }

  /** Every step keeps the ownership of all locks. */
  lemma StepKeepsLocks(s: State, c: nat, a: Action)
    requires Inv(s) && LockInv(s) && Enabled(s, c, a)
    ensures LockInv(After(s, c, a))
  {
    StepKeeps(s, c, a);
    Effect(s, c, a);
    WaitLockKept(s, c, a);
    forall p: nat ensures LockOk(After(s, c, a).cpus, After(s, c, a).procs, p) { LockKept(s, c, a, p); }
  }

  lemma {:induction false} RunKeepsLocks(run: Run)
    requires Interleaving(run)
    ensures LockInv(run.s)
  {
    RunKeepsInv(run);
    if run.More? {
      RunKeepsInv(run.prev);
      RunKeepsLocks(run.prev);
      StepKeepsLocks(run.prev.s, run.c, run.a);
    }
  }

  /** sched() never panics: in every interleaving its caller has left RUNNING, and of
      wait_lock and the locks of all processes its CPU holds its own and no other. */
  lemma SchedChecks(run: Run, c: nat, r: nat)
    requires Interleaving(run) && Executes(run.s, c, r) && run.s.procs[r].pc.Switch?
    ensures run.s.procs[r].state != RUNNING && run.s.waitLock != Some(r)
    ensures forall q: nat :: q < |run.s.procs| ==> (run.s.procs[q].lock == Some(c) <==> q == r)
  {
    RunKeepsInv(run);
    RunKeepsLocks(run);
    SwitchHolds(run.s, c, r);
    forall q: nat | q < |run.s.procs| && run.s.procs[q].lock == Some(c) ensures q == r {
      assert LockOk(run.s.cpus, run.s.procs, q);
    }
  }

  /** Where a timer interrupt may preempt a process, its CPU holds none of these locks. */
  lemma PreemptHoldsNothing(run: Run, c: nat, r: nat)
    requires Interleaving(run) && Executes(run.s, c, r) && Preemptible(run.s.procs[r].pc)
    ensures run.s.waitLock != Some(r)
    ensures forall q: nat :: q < |run.s.procs| ==> run.s.procs[q].lock != Some(c)
  {
    RunKeepsInv(run);
    RunKeepsLocks(run);
    forall q: nat | q < |run.s.procs| ensures run.s.procs[q].lock != Some(c) {
      assert LockOk(run.s.cpus, run.s.procs, q);
    }
  }
}
