/**
  What fork(), sleep(), wakeup() and kill() do for their callers, in every interleaving.
  What was called is read off the history of a run, not off the process table.
 */
module ProcCalls {
  import opened ProcTable
  import opened Scheduler
  import opened ExitWait

  /** The process that takes the step of CPU c, if one runs there. */
  ghost function By(s: State, c: nat): Option<nat> {
    if c < |s.cpus| && s.cpus[c].pc.Exec? then s.cpus[c].proc else None
  }

  lemma SameSlots(s: State, c: nat, a: Action)
    requires Enabled(s, c, a)
    ensures |After(s, c, a).procs| == |s.procs| && |After(s, c, a).cpus| == |s.cpus| && After(s, c, a).init == s.init
  {
    if s.cpus[c].pc.Exec? && a.Go? { SameSlotsGo(s, c, s.cpus[c].proc.value); }
  }

  lemma SameSlotsGo(s: State, c: nat, r: nat)
    requires Wf(s) && Executes(s, c, r) && GoEnabled(s, r)
    ensures var t := ThreadStep(s, c, r); |t.procs| == |s.procs| && |t.cpus| == |s.cpus| && t.init == s.init
  {
  }

  // ----- a thread goes on where it stopped

  ghost predicate Moves(x: Pc, y: Pc) {
    y == x || (x.Fresh? && y == Back(Run)) || (x.Dead? && y.Fresh?)
  }

  /** A step moves no thread but that of its own process; a slot without a thread may get
      one, and a dead thread may go. */
  lemma OthersStay(s: State, c: nat, a: Action, p: nat)
    requires SchedInv(s) && Enabled(s, c, a) && p < |s.procs| && By(s, c) != Some(p)
    ensures |After(s, c, a).procs| == |s.procs| && Moves(s.procs[p].pc, After(s, c, a).procs[p].pc)
  {
    if s.cpus[c].pc.Exec? {
      if a.Go? {
        OthersStayGo(s, c, s.cpus[c].proc.value, p);
      } else {
        OthersStayCall(s, c, s.cpus[c].proc.value, a, p);
      }
    }
  }

  lemma OthersStayCall(s: State, c: nat, r: nat, a: Action, p: nat)
    requires SchedInv(s) && Executes(s, c, r) && !a.Pick? && !a.Go? && ThreadEnabled(s, r, a)
    requires p < |s.procs| && p != r
    ensures |CallStep(s, c, r, a).procs| == |s.procs| && Moves(s.procs[p].pc, CallStep(s, c, r, a).procs[p].pc)
  {
    InvExecuting(s, c, r);
    if a.ForkFails? { FreshIsOff(s, s.procs[r].pc.np); }
  }

  lemma OthersStayGo(s: State, c: nat, r: nat, p: nat)
    requires SchedInv(s) && Executes(s, c, r) && GoEnabled(s, r) && p < |s.procs| && p != r
    ensures |ThreadStep(s, c, r).procs| == |s.procs| && Moves(s.procs[p].pc, ThreadStep(s, c, r).procs[p].pc)
  {
    InvExecuting(s, c, r);
    if Reaps(s, r) {
      assert ProcOk(s.cpus, s.procs, s.procs[r].pc.i);
      OnCpuWhileFree(s, s.procs[r].pc.i);
    }
  }

  /** Neither a timer interrupt nor a switch away and back changes where a thread goes on. */
  lemma PlaceKept(s: State, c: nat, a: Action, p: nat)
    requires SchedInv(s) && Enabled(s, c, a) && p < |s.procs| && By(s, c) == Some(p)
    requires a.Preempt? || (a.Go? && (s.procs[p].pc.Yield? || s.procs[p].pc.Switch? || s.procs[p].pc.Back?))
    ensures |After(s, c, a).procs| == |s.procs|
    ensures Cont(After(s, c, a).procs[p].pc) == Cont(s.procs[p].pc)
      || (s.procs[p].state.ZOMBIE? && After(s, c, a).procs[p].pc.Dead?)
  {
  }

  // ----- sleep()

  /** The channel that a step asks to sleep on for process p: that of a call of sleep(), or the
      caller itself in wait(). */
  ghost function Request(s: State, c: nat, a: Action, p: nat): Option<Chan>
    requires p < |s.procs|
  {
    if By(s, c) != Some(p) then None
    else if a.CallSleep? then Some(a.chan)
    else if a.Go? && s.procs[p].pc.WaitDecided? then Some(OfProc(p))
    else None
  }

  /** The process has asked to sleep and was not woken since. */
  predicate Pending(x: Proc) {
    x.pc.Sleep? || x.pc.WaitSleep? || x.pc.WaitUnlocked? || x.state.SLEEPING?
  }

  /** The record of a process whose latest request was for channel h. */
  ghost predicate AskedOk(x: Proc, p: nat, h: Option<Chan>) {
    && (x.pc.Sleep? ==> h == Some(x.pc.chan))
    && (x.pc.WaitSleep? || x.pc.WaitUnlocked? ==> h == Some(OfProc(p)))
    && (x.state.SLEEPING? ==> x.chan.Some? && x.chan == h)
    && (x.chan.Some? ==> (x.pc.Switch? || x.pc.Back?) && !x.state.ZOMBIE?)
  }

  ghost function Newer<T>(x: Option<T>, y: Option<T>): Option<T> { if x.Some? then x else y }

  lemma AskedStep(s: State, c: nat, a: Action, p: nat, h: Option<Chan>)
    requires SchedInv(s) && Enabled(s, c, a) && p < |s.procs| && AskedOk(s.procs[p], p, h)
    ensures |After(s, c, a).procs| == |s.procs|
    ensures AskedOk(After(s, c, a).procs[p], p, Newer(Request(s, c, a, p), h))
  {
    SameSlots(s, c, a);
    if s.cpus[c].pc.Exec? {
      var r := s.cpus[c].proc.value;
      InvExecuting(s, c, r);
      if a.Go? {
        AskedGo(s, c, r, p, h);
      } else {
        AskedCall(s, c, r, a, p, h);
      }
    }
  }

  lemma AskedCall(s: State, c: nat, r: nat, a: Action, p: nat, h: Option<Chan>)
    requires Executing(s, c, r) && !a.Pick? && !a.Go? && ThreadEnabled(s, r, a)
    requires p < |s.procs| && AskedOk(s.procs[p], p, h)
    ensures AskedOk(CallStep(s, c, r, a).procs[p], p, Newer(Request(s, c, a, p), h))
  {
  }

  lemma AskedGo(s: State, c: nat, r: nat, p: nat, h: Option<Chan>)
    requires Executing(s, c, r) && GoEnabled(s, r) && p < |s.procs| && AskedOk(s.procs[p], p, h)
    ensures AskedOk(ThreadStep(s, c, r).procs[p], p, Newer(Request(s, c, Go, p), h))
  {
    if p == r {
      AskedOwn(s, c, r, h);
    } else {
      OtherSlot(s, c, r, p);
    }
  }

  lemma AskedOwn(s: State, c: nat, r: nat, h: Option<Chan>)
    requires Executing(s, c, r) && GoEnabled(s, r) && AskedOk(s.procs[r], r, h)
    ensures AskedOk(ThreadStep(s, c, r).procs[r], r, Newer(Request(s, c, Go, r), h))
  {
    if SelfLocked(s.procs[r].pc) {
      AskedOwnLocked(s, c, r, h);
    } else {
      AskedOwnFree(s, c, r, h);
    }
  }

  lemma AskedOwnLocked(s: State, c: nat, r: nat, h: Option<Chan>)
    requires Executing(s, c, r) && GoEnabled(s, r) && AskedOk(s.procs[r], r, h) && SelfLocked(s.procs[r].pc)
    ensures AskedOk(ThreadStep(s, c, r).procs[r], r, Newer(Request(s, c, Go, r), h))
  {
  }

  /** Without its own lock, a step leaves the channel of its process alone. */
  lemma AskedOwnFree(s: State, c: nat, r: nat, h: Option<Chan>)
    requires Executing(s, c, r) && GoEnabled(s, r) && AskedOk(s.procs[r], r, h) && !SelfLocked(s.procs[r].pc)
    ensures AskedOk(ThreadStep(s, c, r).procs[r], r, Newer(Request(s, c, Go, r), h))
  {
    OwnFree(s, c, r);
  }

  lemma OwnFree(s: State, c: nat, r: nat)
    requires Executing(s, c, r) && GoEnabled(s, r) && !SelfLocked(s.procs[r].pc)
    ensures var x, y := s.procs[r], ThreadStep(s, c, r).procs[r];
      && y == x.(pc := y.pc, lock := y.lock, parent := y.parent) && !y.pc.Sleep? && !y.pc.WaitUnlocked?
      && (y.pc.WaitSleep? ==> x.pc.WaitDecided?)
  {
    if HoldsWait(s.procs[r].pc) { OwnFreeWait(s, c, r); }
  }

  lemma OwnFreeWait(s: State, c: nat, r: nat)
    requires Executing(s, c, r) && GoEnabled(s, r) && !SelfLocked(s.procs[r].pc) && HoldsWait(s.procs[r].pc)
    ensures var x, y := s.procs[r], ThreadStep(s, c, r).procs[r];
      && y == x.(pc := y.pc, lock := y.lock, parent := y.parent) && !y.pc.Sleep? && !y.pc.WaitUnlocked?
      && (y.pc.WaitSleep? ==> x.pc.WaitDecided?)
  {
  }

  /** What a step of process r can do to another slot. */
  ghost predicate Touched(s: State, r: nat, x: Proc, y: Proc, p: nat)
    requires r < |s.procs|
  {
    if x.state.SLEEPING? && WakeChan(s, r, p).Some? && WakeChan(s, r, p) == x.chan then y == x.(state := RUNNABLE)
    else
      || y == x.(lock := y.lock, parent := y.parent)
      || (s.procs[r].pc == ForkReady(p) && y == x.(state := RUNNABLE, pc := Back(Run)))
      || (x.state.ZOMBIE? && y == Freed(x))
  }

  /** The channel of which process r is waking slot p. */
  ghost function WakeChan(s: State, r: nat, p: nat): Option<Chan>
    requires r < |s.procs|
  {
    match s.procs[r].pc
    case Wake(ch, i) => if i == p then Some(ch) else None
    case ExitInitWake(_, j) => if j == p then Some(OfProc(s.init)) else None
    case ExitParentWake(j) => if j == p then ParentChan(s, r) else None
    case _ => None
  }

  lemma OtherSlot(s: State, c: nat, r: nat, p: nat)
    requires Executing(s, c, r) && GoEnabled(s, r) && p < |s.procs| && p != r
    ensures |ThreadStep(s, c, r).procs| == |s.procs|
    ensures Touched(s, r, s.procs[p], ThreadStep(s, c, r).procs[p], p)
  {
    var pc := s.procs[r].pc;
    if pc.Wake? || pc.ExitInitWake? || pc.ExitParentWake? {
      OtherWoken(s, c, r, p);
    } else if Forks(pc) {
      OtherForked(s, c, r, p);
    }
  }

  lemma OtherWoken(s: State, c: nat, r: nat, p: nat)
    requires Executing(s, c, r) && GoEnabled(s, r) && p < |s.procs| && p != r
    requires s.procs[r].pc.Wake? || s.procs[r].pc.ExitInitWake? || s.procs[r].pc.ExitParentWake?
    ensures |ThreadStep(s, c, r).procs| == |s.procs|
    ensures Touched(s, r, s.procs[p], ThreadStep(s, c, r).procs[p], p)
  {
  }

  lemma OtherForked(s: State, c: nat, r: nat, p: nat)
    requires Executing(s, c, r) && GoEnabled(s, r) && p < |s.procs| && p != r && Forks(s.procs[r].pc)
    ensures |ThreadStep(s, c, r).procs| == |s.procs|
    ensures Touched(s, r, s.procs[p], ThreadStep(s, c, r).procs[p], p)
  {
  }

  // ----- what ends a sleep

  /** The step wakes process p: a wakeup() of the channel it sleeps on, or a kill(). */
  ghost predicate Wakes(s: State, c: nat, a: Action, p: nat)
    requires Wf(s) && p < |s.procs|
  {
    && By(s, c).Some? && By(s, c) != Some(p) && s.procs[p].state.SLEEPING? && By(s, c).value < |s.procs|
    && (a == CallKill(p) || (a.Go? && WakeChan(s, By(s, c).value, p).Some?
                             && WakeChan(s, By(s, c).value, p) == s.procs[p].chan))
  }

  lemma SleeperPc(s: State, p: nat)
    requires SchedInv(s) && p < |s.procs| && s.procs[p].state.SLEEPING?
    ensures s.procs[p].pc.Switch? || s.procs[p].pc.Back?
  {
    assert ProcOk(s.cpus, s.procs, p);
  }

  /** A process that has asked to sleep stays so until it is woken, and no longer. */
  lemma SleepsUntilWoken(s: State, c: nat, a: Action, p: nat)
    requires SchedInv(s) && Enabled(s, c, a) && p < |s.procs|
    ensures |After(s, c, a).procs| == |s.procs|
    ensures Pending(After(s, c, a).procs[p]) <==>
      (Pending(s.procs[p]) && !Wakes(s, c, a, p)) || Request(s, c, a, p).Some?
  {
    SameSlots(s, c, a);
    if s.procs[p].state.SLEEPING? { SleeperPc(s, p); }
    if s.cpus[c].pc.Exec? {
      var r := s.cpus[c].proc.value;
      InvExecuting(s, c, r);
      if !a.Go? {
        PendingCall(s, c, r, a, p);
      } else if r == p {
        PendingOwn(s, c, r);
      } else {
        OtherSlot(s, c, r, p);
        assert ProcOk(s.cpus, s.procs, p);
      }
    } else {
      PendingSched(s, c, a, p);
    }
  }

  lemma PendingSched(s: State, c: nat, a: Action, p: nat)
    requires SchedInv(s) && Enabled(s, c, a) && !s.cpus[c].pc.Exec? && p < |s.procs|
    ensures |After(s, c, a).procs| == |s.procs|
    ensures Pending(After(s, c, a).procs[p]) <==> Pending(s.procs[p])
  {
    assert ProcOk(s.cpus, s.procs, p);
  }

  lemma PendingCall(s: State, c: nat, r: nat, a: Action, p: nat)
    requires Executing(s, c, r) && !a.Pick? && !a.Go? && ThreadEnabled(s, r, a) && p < |s.procs|
    requires s.procs[p].state.SLEEPING? ==> s.procs[p].pc.Switch? || s.procs[p].pc.Back?
    ensures |CallStep(s, c, r, a).procs| == |s.procs|
    ensures Pending(CallStep(s, c, r, a).procs[p]) <==>
      (Pending(s.procs[p]) && !Wakes(s, c, a, p)) || Request(s, c, a, p).Some?
  {
  }

  lemma PendingOwn(s: State, c: nat, r: nat)
    requires Executing(s, c, r) && GoEnabled(s, r)
    ensures Pending(ThreadStep(s, c, r).procs[r]) <==> Pending(s.procs[r]) || Request(s, c, Go, r).Some?
  {
    if !SelfLocked(s.procs[r].pc) { OwnFree(s, c, r); }
  }

  // ----- sleep() and wakeup() over whole runs

  /** The channel of the latest sleep of process p. */
  ghost function Asked(run: Run, p: nat): Option<Chan> {
    match run
    case Boot(_) => None
    case More(prev, c, a, s) =>
      if p < |prev.s.procs| && Request(prev.s, c, a, p).Some? then Request(prev.s, c, a, p) else Asked(prev, p)
  }

  /** How often process p has asked to sleep. */
  ghost function Sleeps(run: Run, p: nat): nat {
    match run
    case Boot(_) => 0
    case More(prev, c, a, s) =>
      Sleeps(prev, p) + if p < |prev.s.procs| && Request(prev.s, c, a, p).Some? then 1 else 0
  }

  /** In every interleaving a process sleeps on the channel that it asked for last, and has no
      channel once it is out of sleep(). */
  lemma {:induction false} AsleepOnAsked(run: Run, p: nat)
    requires Interleaving(run) && p < |run.s.procs|
    ensures AskedOk(run.s.procs[p], p, Asked(run, p))
  {
    if run.More? {
      RunKeepsInv(run.prev);
      SameSlots(run.prev.s, run.c, run.a);
      AsleepOnAsked(run.prev, p);
      AskedStep(run.prev.s, run.c, run.a, p, Asked(run.prev, p));
    }
  }

  /** The last step of the run is a call of wakeup() by process r. */
  ghost predicate CallsWakeup(run: Run, r: nat) {
    run.More? && By(run.prev.s, run.c) == Some(r) && run.a.CallWakeup?
  }

  /** The channel of the latest wakeup() of process r. */
  ghost function LastWakeup(run: Run, r: nat): Option<Chan> {
    match run
    case Boot(_) => None
    case More(prev, c, a, s) => if CallsWakeup(run, r) then Some(a.chan) else LastWakeup(prev, r)
  }

  /** How often process p had asked to sleep when process r last called wakeup(). */
  ghost function SleepsThen(run: Run, r: nat, p: nat): nat {
    match run
    case Boot(_) => 0
    case More(prev, c, a, s) => if CallsWakeup(run, r) then Sleeps(run, p) else SleepsThen(prev, r, p)
  }

  lemma {:induction false} SleepsCount(run: Run, r: nat, p: nat)
    ensures SleepsThen(run, r, p) <= Sleeps(run, p)
  {
    if run.More? { SleepsCount(run.prev, r, p); }
  }

  /** Process r has still to come to slot p in its wakeup(ch). */
  ghost predicate WillReach(x: Proc, ch: Chan, p: nat) {
    Cont(x.pc).Wake? && Cont(x.pc).chan == ch && Cont(x.pc).i <= p
  }

  /** Process p still sleeps, or is about to, though it asked for the channel of r's latest
      wakeup() before that was called. */
  ghost predicate Missed(run: Run, r: nat, p: nat)
    requires p < |run.s.procs|
  {
    && Pending(run.s.procs[p]) && Asked(run, p).Some? && LastWakeup(run, r) == Asked(run, p)
    && Sleeps(run, p) == SleepsThen(run, r, p)
  }

  /** No wakeup is lost: a wakeup(ch) that has returned leaves no process asleep that had asked
      for ch before it was called, even if that process was not asleep yet. */
  lemma {:induction false} WakeupReaches(run: Run, r: nat, p: nat)
    requires Interleaving(run) && r < |run.s.procs| && p < |run.s.procs| && p != r && Missed(run, r, p)
    ensures WillReach(run.s.procs[r], Asked(run, p).value, p)
  {
    if run.More? && !CallsWakeup(run, r) {
      var s, c, a := run.prev.s, run.c, run.a;
      RunKeepsInv(run.prev);
      SameSlots(s, c, a);
      SleepsCount(run.prev, r, p);
      SleepsUntilWoken(s, c, a, p);
      AsleepOnAsked(run.prev, p);
      WakeupReaches(run.prev, r, p);
      ReachStep(s, c, a, r, p, Asked(run, p).value);
    }
  }

  lemma ReachStep(s: State, c: nat, a: Action, r: nat, p: nat, ch: Chan)
    requires SchedInv(s) && Enabled(s, c, a) && r < |s.procs| && p < |s.procs| && p != r
    requires WillReach(s.procs[r], ch, p) && Pending(s.procs[p]) && !Wakes(s, c, a, p)
      && AskedOk(s.procs[p], p, Some(ch))
    ensures |After(s, c, a).procs| == |s.procs| && WillReach(After(s, c, a).procs[r], ch, p)
  {
    if By(s, c) != Some(r) {
      OthersStay(s, c, a, r);
    } else if a.Preempt? || s.procs[r].pc.Yield? || s.procs[r].pc.Switch? || s.procs[r].pc.Back? {
      assert ProcOk(s.cpus, s.procs, r);
      PlaceKept(s, c, a, r);
    } else if s.procs[r].pc.i == p {
      PendingAsleep(s, p);
    }
  }

  /** A process that has asked to sleep and whose lock is free is asleep. */
  lemma PendingAsleep(s: State, p: nat)
    requires SchedInv(s) && p < |s.procs| && Pending(s.procs[p]) && s.procs[p].lock == None
    ensures s.procs[p].state.SLEEPING?
  {
    assert ProcOk(s.cpus, s.procs, p);
    FreeIsUnlocked(s, p);
  }

  /** When process r is out of its wakeup(ch), no process sleeps that asked for ch before. */
  lemma WakeupComplete(run: Run, r: nat, p: nat)
    requires Interleaving(run) && r < |run.s.procs| && p < |run.s.procs| && p != r
    requires LastWakeup(run, r).Some? && Asked(run, p) == LastWakeup(run, r) && Sleeps(run, p) == SleepsThen(run, r, p)
    requires !Cont(run.s.procs[r].pc).Wake?
    ensures run.s.procs[p].state != SLEEPING && !run.s.procs[p].pc.Sleep?
  {
    if Missed(run, r, p) { WakeupReaches(run, r, p); }
  }

  /** A sleep ends only by a kill() or by a wakeup() of the channel that was asked for. */
  lemma WokenForAsked(run: Run, p: nat)
    requires Interleaving(run) && run.More? && p < |run.prev.s.procs| && p < |run.s.procs|
    requires Pending(run.prev.s.procs[p]) && !Pending(run.s.procs[p])
    ensures By(run.prev.s, run.c).Some? && By(run.prev.s, run.c).value < |run.prev.s.procs|
    ensures run.a == CallKill(p)
      || (run.a.Go? && Asked(run.prev, p).Some?
          && WakeChan(run.prev.s, By(run.prev.s, run.c).value, p) == Asked(run.prev, p))
  {
    RunKeepsInv(run.prev);
    SleepsUntilWoken(run.prev.s, run.c, run.a, p);
    AsleepOnAsked(run.prev, p);
  }

  // ----- kill()

  ghost predicate Frees(s: State, t: State, p: nat) {
    p < |s.procs| && p < |t.procs| && !s.procs[p].state.UNUSED? && t.procs[p].state.UNUSED?
  }

  /** Whether kill() was called on slot p since it was last freed. */
  ghost function KillCalled(run: Run, p: nat): bool {
    match run
    case Boot(_) => false
    case More(prev, c, a, s) =>
      if By(prev.s, c).Some? && a == CallKill(p) then true
      else if Frees(prev.s, s, p) then false
      else KillCalled(prev, p)
  }

  /** In every interleaving exactly the slots that kill() was called on are marked. */
  lemma {:induction false} KilledIff(run: Run, p: nat)
    requires Interleaving(run) && p < |run.s.procs|
    ensures run.s.procs[p].killed <==> KillCalled(run, p)
  {
    if run.More? {
      RunKeepsInv(run.prev);
      SameSlots(run.prev.s, run.c, run.a);
      KilledIff(run.prev, p);
      KilledStep(run.prev.s, run.c, run.a, p);
    }
  }

  lemma KilledStep(s: State, c: nat, a: Action, p: nat)
    requires SchedInv(s) && Enabled(s, c, a) && p < |s.procs|
    ensures |After(s, c, a).procs| == |s.procs|
    ensures var x, y := s.procs[p], After(s, c, a).procs[p];
      y.killed <==> (By(s, c).Some? && a == CallKill(p)) || (x.killed && !Frees(s, After(s, c, a), p))
  {
    SameSlots(s, c, a);
    if s.cpus[c].pc.Exec? {
      var r := s.cpus[c].proc.value;
      InvExecuting(s, c, r);
      if a.Go? && r != p {
        OtherSlot(s, c, r, p);
      } else if a.Go? {
        KilledOwn(s, c, r);
      } else {
        KilledCall(s, c, r, a, p);
      }
    }
  }

  lemma KilledOwn(s: State, c: nat, r: nat)
    requires Executing(s, c, r) && GoEnabled(s, r)
    ensures var x, y := s.procs[r], ThreadStep(s, c, r).procs[r]; y.killed == x.killed && !y.state.UNUSED?
  {
    if !SelfLocked(s.procs[r].pc) { OwnFree(s, c, r); }
  }

  lemma KilledCall(s: State, c: nat, r: nat, a: Action, p: nat)
    requires Executing(s, c, r) && !a.Pick? && !a.Go? && ThreadEnabled(s, r, a) && p < |s.procs|
    ensures |CallStep(s, c, r, a).procs| == |s.procs|
    ensures var x, y := s.procs[p], CallStep(s, c, r, a).procs[p];
      y.killed <==> a == CallKill(p) || (x.killed && !Frees(s, CallStep(s, c, r, a), p))
  {
  }

  // ----- fork()

  /** The process that last called fork() for slot q, and its generation. */
  ghost function Maker(run: Run, q: nat): Option<(nat, nat)> {
    match run
    case Boot(_) => None
    case More(prev, c, a, s) => Newer(Makes(prev.s, c, a, q), Maker(prev, q))
  }

  ghost function Makes(s: State, c: nat, a: Action, q: nat): Option<(nat, nat)> {
    if By(s, c).Some? && By(s, c).value < |s.procs| && a == CallFork(q)
    then Some((By(s, c).value, s.procs[By(s, c).value].gen)) else None
  }

  predicate Live(x: Proc) {
    !x.state.UNUSED? && !x.state.USED?
  }

  /** The maker m, still in its generation, has not given slot q to init. */
  ghost predicate StillHas(s: State, m: (nat, nat), q: nat) {
    m.0 < |s.procs| && s.procs[m.0].gen == m.1 && !Abandoned(s.procs[m.0], q)
  }

  /** A slot being set up is in the fork() of its maker; from then on the maker is its parent,
      until it gives the slot to init in its exit(). */
  ghost predicate KinOk(s: State, q: nat, m: Option<(nat, nat)>)
    requires q < |s.procs|
  {
    var y := s.procs[q];
    && (m.Some? ==> m.value.0 < |s.procs| && m.value.1 <= s.procs[m.value.0].gen)
    && (m.Some? && s.procs[m.value.0].state.USED? ==> m.value.1 < s.procs[m.value.0].gen)
    && (y.state.UNUSED? ==> y.parent == None)
    && (y.state.USED? ==>
        && m.Some? && StillHas(s, m.value, q) && Forks(s.procs[m.value.0].pc) && Cont(s.procs[m.value.0].pc).np == q
        && y.parent == if Cont(s.procs[m.value.0].pc).ForkReady? then Some(m.value.0) else None)
    && (Live(y) && q != s.init ==>
        m.Some? && y.parent == if StillHas(s, m.value, q) then Some(m.value.0) else Some(s.init))
  }

  /** Slot x becomes y, which makes no difference to it as the maker of slot q. */
  ghost predicate SameMaker(x: Proc, y: Proc, q: nat) {
    && y.gen == x.gen && (Abandoned(y, q) <==> Abandoned(x, q)) && (y.state.USED? ==> x.state.USED?)
    && (Forks(y.pc) <==> Forks(x.pc)) && (Forks(x.pc) ==> Cont(y.pc) == Cont(x.pc))
  }

  /** Nor to it as a child. */
  ghost predicate SameChild(x: Proc, y: Proc) {
    y.parent == x.parent && (y.state.UNUSED? <==> x.state.UNUSED?) && (y.state.USED? <==> x.state.USED?)
  }

  lemma KinFrame(s: State, t: State, q: nat, m: Option<(nat, nat)>)
    requires q < |s.procs| == |t.procs| && t.init == s.init && KinOk(s, q, m) && SameChild(s.procs[q], t.procs[q])
    requires m.Some? ==> SameMaker(s.procs[m.value.0], t.procs[m.value.0], q)
    ensures KinOk(t, q, m)
  {
  }

  lemma KinSched(s: State, c: nat, a: Action, q: nat, p: nat)
    requires SchedInv(s) && Enabled(s, c, a) && !s.cpus[c].pc.Exec? && p < |s.procs|
    ensures |After(s, c, a).procs| == |s.procs|
    ensures SameMaker(s.procs[p], After(s, c, a).procs[p], q) && SameChild(s.procs[p], After(s, c, a).procs[p])
  {
  }

  lemma KinCall(s: State, c: nat, r: nat, a: Action, q: nat, p: nat)
    requires Executing(s, c, r) && !a.Pick? && !a.Go? && !a.CallFork? && !a.ForkFails? && ThreadEnabled(s, r, a)
    requires p < |s.procs|
    ensures |CallStep(s, c, r, a).procs| == |s.procs|
    ensures SameMaker(s.procs[p], CallStep(s, c, r, a).procs[p], q)
      && SameChild(s.procs[p], CallStep(s, c, r, a).procs[p])
  {
  }

  lemma KinCallFork(s: State, c: nat, r: nat, np: nat, q: nat, m: Option<(nat, nat)>)
    requires Executing(s, c, r) && ThreadEnabled(s, r, CallFork(np)) && q < |s.procs| && KinOk(s, q, m)
    ensures KinOk(CallStep(s, c, r, CallFork(np)), q, Newer(Makes(s, c, CallFork(np), q), m))
  {
  }

  lemma KinForkFails(s: State, c: nat, r: nat, q: nat, m: Option<(nat, nat)>)
    requires Executing(s, c, r) && ThreadEnabled(s, r, ForkFails) && q < |s.procs| && KinOk(s, q, m)
    ensures KinOk(CallStep(s, c, r, ForkFails), q, m)
  {
  }

  /** The steps that concern neither fork() nor reparent(), up to the reaping of a child. */
  predicate FarFromKin(pc: Pc) {
    !pc.ForkHold? && !pc.ForkParent? && !pc.ForkReady? && !pc.ExitReparent?
  }

  /** A step of the executing process itself, as a maker and as a child. */
  lemma KinOwn(s: State, c: nat, r: nat, q: nat)
    requires Executing(s, c, r) && GoEnabled(s, r) && FarFromKin(s.procs[r].pc) && q < |s.procs|
    ensures SameMaker(s.procs[r], ThreadStep(s, c, r).procs[r], q)
      && SameChild(s.procs[r], ThreadStep(s, c, r).procs[r])
  {
    if SelfLocked(s.procs[r].pc) {
      KinOwnLocked(s, c, r, q);
    } else if s.procs[r].pc.WaitScan? || s.procs[r].pc.WaitDecided? {
      KinOwnWait(s, c, r, q);
    } else if HoldsWait(s.procs[r].pc) {
      KinOwnExit(s, c, r, q);
    }
  }

  lemma KinOwnLocked(s: State, c: nat, r: nat, q: nat)
    requires Executing(s, c, r) && GoEnabled(s, r) && SelfLocked(s.procs[r].pc) && q < |s.procs|
    ensures SameMaker(s.procs[r], ThreadStep(s, c, r).procs[r], q)
      && SameChild(s.procs[r], ThreadStep(s, c, r).procs[r])
  {
  }

  lemma KinOwnWait(s: State, c: nat, r: nat, q: nat)
    requires Executing(s, c, r) && GoEnabled(s, r) && q < |s.procs|
    requires s.procs[r].pc.WaitScan? || s.procs[r].pc.WaitDecided?
    ensures SameMaker(s.procs[r], ThreadStep(s, c, r).procs[r], q)
      && SameChild(s.procs[r], ThreadStep(s, c, r).procs[r])
  {
  }

  lemma KinOwnExit(s: State, c: nat, r: nat, q: nat)
    requires Executing(s, c, r) && GoEnabled(s, r) && q < |s.procs|
    requires s.procs[r].pc.ExitInitWake? || s.procs[r].pc.ExitParentWake?
    ensures SameMaker(s.procs[r], ThreadStep(s, c, r).procs[r], q)
      && SameChild(s.procs[r], ThreadStep(s, c, r).procs[r])
  {
  }

  /** The same for another slot; a reaped child is free afterwards. */
  lemma KinOther(s: State, c: nat, r: nat, q: nat, p: nat)
    requires Executing(s, c, r) && GoEnabled(s, r) && FarFromKin(s.procs[r].pc) && p < |s.procs| && p != r
    requires s.procs[p].state.ZOMBIE? ==> !Forks(s.procs[p].pc)
    ensures |ThreadStep(s, c, r).procs| == |s.procs|
    ensures var x, y := s.procs[p], ThreadStep(s, c, r).procs[p];
      SameMaker(x, y, q) && (SameChild(x, y) || (y.state.UNUSED? && y.parent == None))
  {
    OtherSlot(s, c, r, p);
    OtherParent(s, c, r, p);
    KinTouched(s, r, s.procs[p], ThreadStep(s, c, r).procs[p], p, q);
  }

  lemma KinTouched(s: State, r: nat, x: Proc, y: Proc, p: nat, q: nat)
    requires r < |s.procs| && Touched(s, r, x, y, p) && FarFromKin(s.procs[r].pc)
    requires (y.parent == x.parent || y.state.UNUSED?) && (x.state.UNUSED? ==> y.parent == x.parent)
    requires x.state.ZOMBIE? ==> !Forks(x.pc)
    ensures SameMaker(x, y, q) && (SameChild(x, y) || (y.state.UNUSED? && y.parent == None))
  {
  }

  lemma OtherParent(s: State, c: nat, r: nat, p: nat)
    requires Executing(s, c, r) && GoEnabled(s, r) && FarFromKin(s.procs[r].pc) && p < |s.procs| && p != r
    ensures var x, y := s.procs[p], ThreadStep(s, c, r).procs[p];
      (y.parent == x.parent || y.state.UNUSED?) && (x.state.UNUSED? ==> y.parent == x.parent)
  {
  }

  lemma ZombiePc(s: State, p: nat)
    requires SchedInv(s) && p < |s.procs| && s.procs[p].state.ZOMBIE?
    ensures !Forks(s.procs[p].pc)
  {
    assert ProcOk(s.cpus, s.procs, p);
  }

  lemma KinFar(s: State, c: nat, r: nat, q: nat, m: Option<(nat, nat)>)
    requires SchedInv(s) && Executes(s, c, r) && GoEnabled(s, r) && FarFromKin(s.procs[r].pc)
    requires q < |s.procs| && KinOk(s, q, m)
    ensures |ThreadStep(s, c, r).procs| == |s.procs| && KinOk(ThreadStep(s, c, r), q, m)
  {
    var t := ThreadStep(s, c, r);
    InvExecuting(s, c, r);
    SameSlotsGo(s, c, r);
    forall p: nat | p < |s.procs|
      ensures SameMaker(s.procs[p], t.procs[p], q)
        && (SameChild(s.procs[p], t.procs[p]) || (t.procs[p].state.UNUSED? && t.procs[p].parent == None))
    {
      if p == r {
        KinOwn(s, c, r, q);
      } else {
        if s.procs[p].state.ZOMBIE? { ZombiePc(s, p); }
        KinOther(s, c, r, q, p);
      }
    }
    if SameChild(s.procs[q], t.procs[q]) {
      KinFrame(s, t, q, m);
    }
  }

  /** The slot that a fork() works on was made by its caller. */
  lemma ForkedIsOwn(s: State, c: nat, r: nat, q: nat, m: Option<(nat, nat)>)
    requires SchedInv(s) && Executes(s, c, r) && q < |s.procs| && KinOk(s, q, m)
    requires Forks(s.procs[r].pc) && Cont(s.procs[r].pc).np == q
    ensures s.procs[q].state.USED? && m.Some? && m.value.0 == r
  {
    assert ForkOk(s.procs, r);
    assert ForkOk(s.procs, m.value.0);
  }

  /** The steps of fork(), seen from the new slot. */
  lemma KinForkChild(s: State, c: nat, r: nat, q: nat, m: Option<(nat, nat)>)
    requires SchedInv(s) && Executes(s, c, r) && GoEnabled(s, r) && q < |s.procs| && KinOk(s, q, m)
    requires Forks(s.procs[r].pc) && !FarFromKin(s.procs[r].pc) && s.procs[r].pc.np == q
    ensures |ThreadStep(s, c, r).procs| == |s.procs| && KinOk(ThreadStep(s, c, r), q, m)
  {
    InvExecuting(s, c, r);
    ForkedIsOwn(s, c, r, q, m);
  }

  /** And from any other slot. */
  lemma KinForkOther(s: State, c: nat, r: nat, q: nat, m: Option<(nat, nat)>)
    requires SchedInv(s) && Executes(s, c, r) && GoEnabled(s, r) && q < |s.procs| && KinOk(s, q, m)
    requires Forks(s.procs[r].pc) && !FarFromKin(s.procs[r].pc) && s.procs[r].pc.np != q
    ensures |ThreadStep(s, c, r).procs| == |s.procs| && KinOk(ThreadStep(s, c, r), q, m)
  {
    InvExecuting(s, c, r);
  }

  /** A step of reparent(). */
  lemma KinReparent(s: State, c: nat, r: nat, q: nat, m: Option<(nat, nat)>)
    requires Inv(s) && Executes(s, c, r) && GoEnabled(s, r) && q < |s.procs| && KinOk(s, q, m)
    requires s.procs[r].pc.ExitReparent?
    ensures |ThreadStep(s, c, r).procs| == |s.procs| && KinOk(ThreadStep(s, c, r), q, m)
  {
    InvExecuting(s, c, r);
    assert PairOk(s, r, r);
  }

  lemma KinStep(s: State, c: nat, a: Action, q: nat, m: Option<(nat, nat)>)
    requires Inv(s) && Enabled(s, c, a) && q < |s.procs| && KinOk(s, q, m)
    ensures |After(s, c, a).procs| == |s.procs| && KinOk(After(s, c, a), q, Newer(Makes(s, c, a, q), m))
  {
    SameSlots(s, c, a);
    if !s.cpus[c].pc.Exec? {
      forall p: nat | p < |s.procs|
        ensures SameMaker(s.procs[p], After(s, c, a).procs[p], q) && SameChild(s.procs[p], After(s, c, a).procs[p])
      {
        KinSched(s, c, a, q, p);
      }
      KinFrame(s, After(s, c, a), q, m);
    } else if a.Go? {
      KinGo(s, c, s.cpus[c].proc.value, q, m);
    } else {
      KinAnyCall(s, c, s.cpus[c].proc.value, a, q, m);
    }
  }

  lemma KinGo(s: State, c: nat, r: nat, q: nat, m: Option<(nat, nat)>)
    requires Inv(s) && Executes(s, c, r) && GoEnabled(s, r) && q < |s.procs| && KinOk(s, q, m)
    ensures |ThreadStep(s, c, r).procs| == |s.procs| && KinOk(ThreadStep(s, c, r), q, m)
  {
    if FarFromKin(s.procs[r].pc) {
      KinFar(s, c, r, q, m);
    } else if s.procs[r].pc.ExitReparent? {
      KinReparent(s, c, r, q, m);
    } else if s.procs[r].pc.np == q {
      KinForkChild(s, c, r, q, m);
    } else {
      KinForkOther(s, c, r, q, m);
    }
  }

  lemma KinAnyCall(s: State, c: nat, r: nat, a: Action, q: nat, m: Option<(nat, nat)>)
    requires SchedInv(s) && Executes(s, c, r) && !a.Pick? && !a.Go? && ThreadEnabled(s, r, a)
    requires q < |s.procs| && KinOk(s, q, m)
    ensures |CallStep(s, c, r, a).procs| == |s.procs|
    ensures KinOk(CallStep(s, c, r, a), q, Newer(Makes(s, c, a, q), m))
  {
    InvExecuting(s, c, r);
    if a.CallFork? {
      KinCallFork(s, c, r, a.np, q, m);
    } else if a.ForkFails? {
      KinForkFails(s, c, r, q, m);
    } else {
      var t := CallStep(s, c, r, a);
      forall p: nat | p < |s.procs|
        ensures |t.procs| == |s.procs| && SameMaker(s.procs[p], t.procs[p], q) && SameChild(s.procs[p], t.procs[p])
      {
        KinCall(s, c, r, a, q, p);
      }
      KinFrame(s, t, q, m);
    }
  }

  /** In every interleaving, the parent of a process is the one whose fork() made it, until that
      one gives it to init in exit(); and then it is init. */
  lemma {:induction false} ParentIsMaker(run: Run, q: nat)
    requires Interleaving(run) && q < |run.s.procs|
    ensures KinOk(run.s, q, Maker(run, q))
  {
    if run.More? {
      RunKeepsInv(run.prev);
      SameSlots(run.prev.s, run.c, run.a);
      ParentIsMaker(run.prev, q);
      KinStep(run.prev.s, run.c, run.a, q, Maker(run.prev, q));
    }
  }

  /** The step by which process r leaves its fork() of slot q: the slot is free again, or it
      is a process that can run, starts at the return to user space, and has r as its parent. */
  lemma ForkEnds(run: Run, r: nat, q: nat)
    requires Interleaving(run) && run.More? && r < |run.prev.s.procs| && r < |run.s.procs| && q < |run.s.procs|
    requires Forks(run.prev.s.procs[r].pc) && Cont(run.prev.s.procs[r].pc).np == q && !Forks(run.s.procs[r].pc)
    ensures By(run.prev.s, run.c) == Some(r) && run.s.procs[r].pc == Run
    ensures Maker(run, q) == Some((r, run.s.procs[r].gen))
    ensures if run.a.ForkFails? then run.s.procs[q].state.UNUSED?
      else run.s.procs[q].state.RUNNABLE? && run.s.procs[q].pc == Back(Run) && run.s.procs[q].parent == Some(r)
  {
    RunKeepsInv(run.prev);
    SameSlots(run.prev.s, run.c, run.a);
    ParentIsMaker(run.prev, q);
    ForkLeaves(run.prev.s, run.c, run.a, r, q, Maker(run.prev, q));
  }

  lemma ForkLeaves(s: State, c: nat, a: Action, r: nat, q: nat, m: Option<(nat, nat)>)
    requires Inv(s) && Enabled(s, c, a) && r < |s.procs| && q < |s.procs| && KinOk(s, q, m)
    requires Forks(s.procs[r].pc) && Cont(s.procs[r].pc).np == q
    requires |After(s, c, a).procs| == |s.procs| && !Forks(After(s, c, a).procs[r].pc)
    ensures By(s, c) == Some(r) && After(s, c, a).procs[r].pc == Run && Makes(s, c, a, q).None?
    ensures m == Some((r, s.procs[r].gen)) && After(s, c, a).procs[r].gen == s.procs[r].gen
    ensures var y := After(s, c, a).procs[q];
      if a.ForkFails? then y.state.UNUSED? else y.state.RUNNABLE? && y.pc == Back(Run) && y.parent == Some(r)
  {
    assert ForkOk(s.procs, r) && ProcOk(s.cpus, s.procs, r);
    assert ForkOk(s.procs, m.value.0);
    if By(s, c) != Some(r) {
      OthersStay(s, c, a, r);
    } else if a.Preempt? || s.procs[r].pc.Yield? || s.procs[r].pc.Switch? || s.procs[r].pc.Back? {
      PlaceKept(s, c, a, r);
    } else {
      ForkLast(s, c, r, a, q);
    }
  }

  lemma ForkLast(s: State, c: nat, r: nat, a: Action, q: nat)
    requires Inv(s) && Executes(s, c, r) && Enabled(s, c, a) && q < |s.procs| && a != Preempt
    requires s.procs[r].pc == ForkHold(q) || s.procs[r].pc == ForkParent(q) || s.procs[r].pc == ForkReady(q)
    requires s.procs[q].state.USED? && s.procs[q].parent == (if s.procs[r].pc.ForkReady? then Some(r) else None)
    requires |After(s, c, a).procs| == |s.procs| && !Forks(After(s, c, a).procs[r].pc)
    ensures After(s, c, a).procs[r].pc == Run && Makes(s, c, a, q).None?
      && After(s, c, a).procs[r].gen == s.procs[r].gen
    ensures var y := After(s, c, a).procs[q];
      if a.ForkFails? then y.state.UNUSED? else y.state.RUNNABLE? && y.pc == Back(Run) && y.parent == Some(r)
  {
    InvExecuting(s, c, r);
  }

  // ----- yield() and the scheduler

  /** One more step. */
  lemma Then(run: Run, c: nat, a: Action) returns (r: Run)
    requires Interleaving(run) && Enabled(run.s, c, a)
    ensures Interleaving(r) && r.s == After(run.s, c, a) && Wf(r.s)
  {
    r := More(run, c, a, After(run.s, c, a));
    RunKeepsInv(r);
  }

  /** The record of CPU c and that of process p change. */
  ghost function Put2(s: State, c: nat, u: Cpu, p: nat, x: Proc): State
    requires c < |s.cpus| && p < |s.procs|
  {
    s.(cpus := s.cpus[c := u], procs := s.procs[p := x])
  }

  /** The scheduler takes the lock of a RUNNABLE process and chooses it. */
  lemma Choose(run: Run, c: nat, p: nat) returns (r: Run)
    requires Interleaving(run) && c < |run.s.cpus| && run.s.cpus[c].pc.Scan? && p < |run.s.procs|
    requires run.s.procs[p].state.RUNNABLE? && run.s.procs[p].lock == None
    ensures Interleaving(r)
    ensures r.s == Put2(run.s, c, run.s.cpus[c].(pc := Chosen(p)), p,
      run.s.procs[p].(state := RUNNING, on := Some(c), lock := Some(c)))
  {
    RunKeepsInv(run);
    r := Then(run, c, Pick(p));
    r := Then(r, c, Go);
  }

  /** It switches to the chosen process. */
  lemma SwitchTo(run: Run, c: nat, p: nat) returns (r: Run)
    requires Interleaving(run) && c < |run.s.cpus| && p < |run.s.procs| && run.s.cpus[c].pc == Chosen(p)
    ensures Interleaving(r) && r.s == Put2(run.s, c, Cpu(Some(p), Exec), p, run.s.procs[p])
  {
    RunKeepsInv(run);
    r := Then(run, c, Go);
    r := Then(r, c, Go);
  }

  /** A resumed thread tidies up and releases its lock. */
  lemma Resume(run: Run, c: nat, p: nat) returns (r: Run)
    requires Interleaving(run) && Executes(run.s, c, p) && run.s.procs[p].pc.Back?
    ensures Interleaving(r)
    ensures r.s == Put2(run.s, c, run.s.cpus[c], p,
      run.s.procs[p].(chan := None, lock := None, pc := run.s.procs[p].pc.next))
  {
    RunKeepsInv(run);
    r := Then(run, c, Go);
  }

  /** Process p runs on CPU c, and goes on where it stopped. */
  ghost function Dispatched(s: State, c: nat, p: nat): State
    requires c < |s.cpus| && p < |s.procs|
  {
    Put2(s, c, Cpu(Some(p), Exec), p,
      s.procs[p].(state := RUNNING, on := Some(c), chan := None, pc := Cont(s.procs[p].pc)))
  }

  /** A RUNNABLE process is on no CPU, and stopped in sched(). */
  lemma ReadyToRun(run: Run, p: nat)
    requires Interleaving(run) && p < |run.s.procs|
    requires run.s.procs[p].state.RUNNABLE? && run.s.procs[p].lock == None
    ensures run.s.procs[p].pc.Back?
  {
    RunKeepsInv(run);
    assert ProcOk(run.s.cpus, run.s.procs, p);
    OnCpuWhileFree(run.s, p);
  }

  /** A RUNNABLE process that a CPU's scheduler comes to runs there, from where it stopped. */
  lemma Dispatch(run: Run, c: nat, p: nat) returns (r: Run)
    requires Interleaving(run) && c < |run.s.cpus| && run.s.cpus[c].pc.Scan? && p < |run.s.procs|
    requires run.s.procs[p].state.RUNNABLE? && run.s.procs[p].lock == None
    ensures Interleaving(r) && r.s == Dispatched(run.s, c, p)
  {
    ReadyToRun(run, p);
    r := Choose(run, c, p);
    r := SwitchTo(r, c, p);
    r := Resume(r, c, p);
  }

  /** A timer interrupt makes its process yield, and sched() switches away. */
  lemma SwitchAway(run: Run, c: nat, p: nat) returns (r: Run)
    requires Interleaving(run) && Executes(run.s, c, p) && Preemptible(run.s.procs[p].pc) && run.s.procs[p].lock == None
    ensures Interleaving(r)
    ensures r.s == Put2(run.s, c, Cpu(Some(p), Returned(p)), p,
      run.s.procs[p].(state := RUNNABLE, lock := Some(c), pc := Back(run.s.procs[p].pc)))
  {
    RunKeepsInv(run);
    r := Then(run, c, Preempt);
    r := Then(r, c, Go);
    r := Then(r, c, Go);
  }

  /** Back from a thread, the scheduler releases its lock and goes on. */
  lemma Release(run: Run, c: nat, p: nat) returns (r: Run)
    requires Interleaving(run) && c < |run.s.cpus| && p < |run.s.procs| && run.s.cpus[c].pc == Returned(p)
    ensures Interleaving(r) && r.s == Put2(run.s, c, Cpu(None, Scan), p, run.s.procs[p].(on := None, lock := None))
  {
    RunKeepsInv(run);
    r := Then(run, c, Go);
    r := Then(r, c, Go);
  }

  /** Process p is ready to run again, and CPU c is back in its scheduler. */
  ghost function Yielded(s: State, c: nat, p: nat): State
    requires c < |s.cpus| && p < |s.procs|
  {
    Put2(s, c, Cpu(None, Scan), p, s.procs[p].(state := RUNNABLE, on := None, pc := Back(s.procs[p].pc)))
  }

  /** A timer interrupt takes the CPU from a process and leaves it ready to run. */
  lemma YieldCpu(run: Run, c: nat, p: nat) returns (r: Run)
    requires Interleaving(run) && Executes(run.s, c, p) && Preemptible(run.s.procs[p].pc) && run.s.procs[p].lock == None
    ensures Interleaving(r) && r.s == Yielded(run.s, c, p)
  {
    r := SwitchAway(run, c, p);
    r := Release(r, c, p);
  }

  /** Interrupted and chosen again, a process finds everything as it left it. */
  lemma YieldRoundTrip(run: Run, c: nat, p: nat) returns (r: Run)
    requires Interleaving(run) && Executes(run.s, c, p) && Preemptible(run.s.procs[p].pc) && run.s.procs[p].lock == None
    ensures Interleaving(r) && r.s == run.s
  {
    RunKeepsInv(run);
    AsleepOnAsked(run, p);
    assert ProcOk(run.s.cpus, run.s.procs, p) && CpuOk(run.s.cpus, run.s.procs, c);
    r := YieldCpu(run, c, p);
    r := Dispatch(r, c, p);
    assert r.s.procs == run.s.procs && r.s.cpus == run.s.cpus;
  }
}
