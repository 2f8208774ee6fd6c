/**
  exit(), wait() and reparent(): no wakeup is lost, no orphan keeps a dead parent, and
  every exited process is reaped once, before its slot is used again.
 */
module ExitWait {
  import opened ProcTable
  import opened Scheduler

  /** Asleep in wait(), or past the scan and bound to sleep. */
  predicate Dozing(r: Proc) {
    || r.pc.WaitDecided? || r.pc.WaitSleep? || r.pc.WaitUnlocked?
    || ((r.pc.Switch? || r.pc.Back?) && r.pc.next.WaitAgain? && r.state.SLEEPING?)
  }

  /** An exiting process is still going to wake init. */
  ghost predicate InitWillWake(s: State, p: int) {
    && p == s.init && s.waitLock.Some? && s.waitLock.value < |s.procs|
    && s.procs[s.waitLock.value].pc.ExitInitWake? && s.procs[s.waitLock.value].pc.j <= p
  }

  /** Process e has already passed slot p in wakeup(p->parent). */
  predicate HasWoken(e: Proc, p: int) {
    e.pc.ExitLock? || e.pc.ExitUnlock? || (e.pc.ExitParentWake? && p < e.pc.j)
  }

  /** Process p has given child slot q away in reparent(), or has no child at all. */
  predicate Abandoned(p: Proc, q: int) {
    || p.state.UNUSED? || p.state.USED? || p.state.ZOMBIE?
    || (p.pc.ExitReparent? && q < p.pc.i) || (p.pc.ExitInitWake? && q <= p.pc.i)
    || p.pc.ExitParentWake? || p.pc.ExitLock? || p.pc.ExitUnlock?
  }

  /** What holds between a process p and a child q of it. */
  ghost predicate PairOk(s: State, p: int, q: int)
    requires 0 <= p < |s.procs| && 0 <= q < |s.procs|
  {
    s.procs[q].parent == Some(p) ==>
      && p != q && q != s.init
      && !Abandoned(s.procs[p], q)
      && (s.procs[q].state.ZOMBIE? ==> !(s.procs[p].pc.WaitScan? && q < s.procs[p].pc.i))
      && (s.procs[q].state.ZOMBIE? && Dozing(s.procs[p]) ==> InitWillWake(s, p))
      && (HasWoken(s.procs[q], p) ==> !Dozing(s.procs[p]))
  }

  /** wait_lock is held where the program point says so, and a sleeper in wait() sleeps
      on its own channel. */
  ghost predicate SoloOk(s: State, p: int)
    requires 0 <= p < |s.procs|
  {
    && (HoldsWait(s.procs[p].pc) ==> s.waitLock == Some(p))
    && ((s.procs[p].pc.Switch? || s.procs[p].pc.Back?) && s.procs[p].pc.next.WaitAgain? && s.procs[p].state.SLEEPING?
        ==> s.procs[p].chan == Some(OfProc(p)))
    && (s.procs[p].parent.Some? ==> s.procs[p].parent.value < |s.procs|)
  }

  /** init never exits. */
  ghost predicate InitOk(s: State) {
    && s.init < |s.procs|
    && s.procs[s.init].parent == None
    && !Abandoned(s.procs[s.init], -1)
    && !s.procs[s.init].pc.ExitReparent? && !s.procs[s.init].pc.ExitInitWake?
  }

  ghost predicate Unique<T>(xs: seq<T>) {
    forall i, j :: 0 <= i < j < |xs| ==> xs[i] != xs[j]
  }

  /** Bookkeeping of exits: a generation of a slot exits at most once, a ZOMBIE is an
      exited generation not yet reaped, and only an exited generation is reaped. */
  ghost predicate GenOk(s: State, p: int)
    requires 0 <= p < |s.procs|
  {
    var r := s.procs[p];
    && (r.state.ZOMBIE? ==> (p, r.gen) in s.exited && (p, r.gen) !in s.reaped)
    && (!r.state.ZOMBIE? && !r.state.UNUSED? ==> (p, r.gen) !in s.exited && (p, r.gen) !in s.reaped)
    && (r.state.UNUSED? && (p, r.gen) in s.exited ==> (p, r.gen) in s.reaped)
    && (forall g: nat :: (p, g) in s.exited || (p, g) in s.reaped ==> g <= r.gen)
    && (forall g: nat :: g < r.gen && (p, g) in s.exited ==> (p, g) in s.reaped)
  }

  ghost predicate ReapOk(s: State) {
    && Unique(s.reaped)
    && (forall p :: 0 <= p < |s.procs| ==> GenOk(s, p))
    && (forall x :: x in s.reaped ==> x in s.exited)
  }

  ghost predicate FamilyOk(s: State) {
    && InitOk(s)
    && (forall p :: 0 <= p < |s.procs| ==> SoloOk(s, p))
    && (forall p, q :: 0 <= p < |s.procs| && 0 <= q < |s.procs| ==> PairOk(s, p, q))
  }

  ghost predicate Inv(s: State) {
    SchedInv(s) && FamilyOk(s) && ReapOk(s)
  }

  // ----- steps that do not touch the family

  /** Slot p changes in no way that exit() and wait() care about. */
  ghost predicate Same(s: State, t: State, p: int)
    requires 0 <= p < |s.procs| == |t.procs|
  {
    var x, y := s.procs[p], t.procs[p];
    && (y.parent == x.parent || y.parent == None)
    && (y.state.ZOMBIE? <==> x.state.ZOMBIE?)
    && (y.state.UNUSED? || y.state.USED? ==> x.state.UNUSED? || x.state.USED?)
    && (HoldsWait(y.pc) || HoldsWait(x.pc) ==> y.pc == x.pc)
    && (Dozing(y) ==> Dozing(x))
    && ((y.pc.Switch? || y.pc.Back?) && y.pc.next.WaitAgain? && y.state.SLEEPING? ==> y.chan == Some(OfProc(p)))
  }

  lemma SameKeepsFamily(s: State, t: State)
    requires FamilyOk(s) && |t.procs| == |s.procs| && t.init == s.init && t.waitLock == s.waitLock
    requires forall p :: 0 <= p < |s.procs| ==> Same(s, t, p)
    ensures FamilyOk(t)
  {
    assert Same(s, t, s.init);
    forall p, q | 0 <= p < |t.procs| && 0 <= q < |t.procs| ensures PairOk(t, p, q) {
      assert PairOk(s, p, q) && Same(s, t, p) && Same(s, t, q);
      if s.waitLock.Some? && s.waitLock.value < |s.procs| { assert Same(s, t, s.waitLock.value); }
    }
    forall p | 0 <= p < |t.procs| ensures SoloOk(t, p) {
      assert SoloOk(s, p) && Same(s, t, p);
    }
  }

  /** Slot p keeps its generation and stays on the same side of exit. */
  ghost predicate SameGen(s: State, t: State, p: int)
    requires 0 <= p < |s.procs| == |t.procs|
  {
    var x, y := s.procs[p], t.procs[p];
    && y.gen == x.gen
    && (y.state.ZOMBIE? <==> x.state.ZOMBIE?)
    && (x.state.UNUSED? ==> y.state.UNUSED?)
  }

  lemma SameKeepsReap(s: State, t: State)
    requires ReapOk(s) && |t.procs| == |s.procs| && t.exited == s.exited && t.reaped == s.reaped
    requires forall p :: 0 <= p < |s.procs| ==> SameGen(s, t, p)
    ensures ReapOk(t)
  {
    forall p | 0 <= p < |t.procs| ensures GenOk(t, p) { assert GenOk(s, p) && SameGen(s, t, p); }
  }

  lemma SchedFamily(s: State, c: nat, a: Action)
    requires Inv(s) && Enabled(s, c, a) && !s.cpus[c].pc.Exec?
    ensures FamilyOk(After(s, c, a)) && ReapOk(After(s, c, a))
  {
    var t := After(s, c, a);
    forall p | 0 <= p < |s.procs| ensures Same(s, t, p) && SameGen(s, t, p) { assert SoloOk(s, p); }
    SameKeepsFamily(s, t);
    SameKeepsReap(s, t);
  }

  /** Program points whose next step concerns neither the family nor wait_lock. */
  predicate Plain(pc: Pc) {
    pc.Yield? || pc.Sleep? || pc.Switch? || pc.Back? || pc.Wake? || pc.ForkHold? || pc.ForkReady? || pc.WaitUnlocked?
  }

  /** The executing process r is RUNNING unless about to switch, and a slot it is forking
      into is USED. */
  ghost predicate Executing(s: State, c: nat, r: nat) {
    && Wf(s) && Executes(s, c, r) && OnCpuState(s.procs[r])
    && ForkOk(s.procs, r)
    && (Forks(s.procs[r].pc) ==> s.procs[Cont(s.procs[r].pc).np].pc.Fresh?)
  }

  lemma InvExecuting(s: State, c: nat, r: nat)
    requires SchedInv(s) && Executes(s, c, r)
    ensures Executing(s, c, r)
  {
    assert CpuOk(s.cpus, s.procs, c) && ProcOk(s.cpus, s.procs, r) && ForkOk(s.procs, r);
    if Forks(s.procs[r].pc) { FreshIsOff(s, Cont(s.procs[r].pc).np); }
  }

  /** A slot being set up has no thread yet. */
  lemma FreshIsOff(s: State, p: nat)
    requires SchedInv(s) && p < |s.procs| && (s.procs[p].state.USED? || s.procs[p].state.UNUSED?)
    ensures s.procs[p].pc.Fresh? && s.procs[p].on == None
  {
    assert ProcOk(s.cpus, s.procs, p);
  }

  lemma PlainSame(s: State, c: nat, r: nat, p: nat)
    requires Executing(s, c, r) && GoEnabled(s, r) && Plain(s.procs[r].pc)
    requires p < |s.procs| && SoloOk(s, p)
    ensures Same(s, ThreadStep(s, c, r), p) && SameGen(s, ThreadStep(s, c, r), p)
  {
    if SelfLocked(s.procs[r].pc) {
      LockedSame(s, c, r, p);
    } else if s.procs[r].pc.Wake? {
      WakeSame(s, c, r, p);
    } else {
      ForkSame(s, c, r, p);
    }
  }

  lemma WakeSame(s: State, c: nat, r: nat, p: nat)
    requires Executing(s, c, r) && GoEnabled(s, r) && s.procs[r].pc.Wake?
    requires p < |s.procs| && SoloOk(s, p)
    ensures Same(s, ThreadStep(s, c, r), p) && SameGen(s, ThreadStep(s, c, r), p)
  {
  }

  lemma ForkSame(s: State, c: nat, r: nat, p: nat)
    requires Executing(s, c, r) && GoEnabled(s, r) && (s.procs[r].pc.ForkHold? || s.procs[r].pc.ForkReady?)
    requires p < |s.procs| && SoloOk(s, p)
    ensures Same(s, ThreadStep(s, c, r), p) && SameGen(s, ThreadStep(s, c, r), p)
  {
  }

  lemma LockedSame(s: State, c: nat, r: nat, p: nat)
    requires Executing(s, c, r) && GoEnabled(s, r) && Plain(s.procs[r].pc) && SelfLocked(s.procs[r].pc)
    requires p < |s.procs| && SoloOk(s, p)
    ensures Same(s, ThreadStep(s, c, r), p) && SameGen(s, ThreadStep(s, c, r), p)
  {
    if s.procs[r].pc.Switch? || s.procs[r].pc.Back? { SwitchSame(s, c, r, p); }
  }

  lemma SwitchSame(s: State, c: nat, r: nat, p: nat)
    requires Executing(s, c, r) && GoEnabled(s, r) && (s.procs[r].pc.Switch? || s.procs[r].pc.Back?)
    requires p < |s.procs| && SoloOk(s, p)
    ensures Same(s, ThreadStep(s, c, r), p) && SameGen(s, ThreadStep(s, c, r), p)
  {
  }

  lemma PlainFamily(s: State, c: nat, r: nat)
    requires Inv(s) && Executes(s, c, r) && GoEnabled(s, r) && Plain(s.procs[r].pc)
    ensures FamilyOk(ThreadStep(s, c, r)) && ReapOk(ThreadStep(s, c, r))
  {
    var t := ThreadStep(s, c, r);
    InvExecuting(s, c, r);
    forall p | 0 <= p < |s.procs| ensures Same(s, t, p) && SameGen(s, t, p) { PlainSame(s, c, r, p); }
    SameKeepsFamily(s, t);
    SameKeepsReap(s, t);
  }

  lemma CallSame(s: State, c: nat, r: nat, a: Action, p: nat)
    requires Executing(s, c, r) && !a.Pick? && ThreadEnabled(s, r, a)
    requires a.Preempt? || a.CallSleep? || a.CallWakeup? || a.CallKill? || a.CallFork? || a.ForkFails?
    requires p < |s.procs| && SoloOk(s, p)
    ensures Same(s, CallStep(s, c, r, a), p)
    ensures !a.CallFork? ==> SameGen(s, CallStep(s, c, r, a), p)
  {
    if a.CallFork? || a.ForkFails? { ForkCallSame(s, c, r, a, p); }
  }

  lemma ForkCallSame(s: State, c: nat, r: nat, a: Action, p: nat)
    requires Executing(s, c, r) && (a.CallFork? || a.ForkFails?) && ThreadEnabled(s, r, a)
    requires p < |s.procs| && SoloOk(s, p)
    ensures Same(s, CallStep(s, c, r, a), p)
    ensures !a.CallFork? ==> SameGen(s, CallStep(s, c, r, a), p)
  {
  }

  lemma CallFamily(s: State, c: nat, r: nat, a: Action)
    requires Inv(s) && Executes(s, c, r) && !a.Pick? && ThreadEnabled(s, r, a)
    requires a.Preempt? || a.CallSleep? || a.CallWakeup? || a.CallKill? || a.ForkFails?
    ensures FamilyOk(CallStep(s, c, r, a)) && ReapOk(CallStep(s, c, r, a))
  {
    var t := CallStep(s, c, r, a);
    InvExecuting(s, c, r);
    forall p | 0 <= p < |s.procs| ensures Same(s, t, p) && SameGen(s, t, p) { CallSame(s, c, r, a, p); }
    SameKeepsFamily(s, t);
    SameKeepsReap(s, t);
  }

  lemma CallForkFamily(s: State, c: nat, r: nat, np: nat)
    requires Inv(s) && Executes(s, c, r) && ThreadEnabled(s, r, CallFork(np))
    ensures FamilyOk(CallStep(s, c, r, CallFork(np))) && ReapOk(CallStep(s, c, r, CallFork(np)))
  {
    var t := CallStep(s, c, r, CallFork(np));
    InvExecuting(s, c, r);
    forall p | 0 <= p < |s.procs| ensures Same(s, t, p) { CallSame(s, c, r, CallFork(np), p); }
    SameKeepsFamily(s, t);
    forall p | 0 <= p < |t.procs| ensures GenOk(t, p) { assert GenOk(s, p); }
  }

  // ----- steps that take, hold or release wait_lock

  /** Process r moves to program point pc, and wait_lock becomes w. */
  function Moved(s: State, r: nat, pc: Pc, w: Option<nat>): State
    requires r < |s.procs|
  {
    At(s, r, pc).(waitLock := w)
  }

  /** The moves of exit() and wait() that change nothing else. */
  ghost predicate LegalMove(s: State, r: nat, pc: Pc, w: Option<nat>)
    requires r < |s.procs|
  {
    var n := |s.procs|;
    var mine := Some(r);
    match s.procs[r].pc
    case Run => s.waitLock == None && w == mine && (pc == WaitScan(0, false) || (pc == ExitReparent(0) && r != s.init))
    case WaitAgain => s.waitLock == None && w == mine && pc == WaitScan(0, false)
    case WaitScan(i, _) =>
      || (pc == Run && w == None)
      || (i == n && pc == WaitDecided && w == mine)
      || (i < n && pc.WaitScan? && pc.i == i + 1 && w == mine
          && !(s.procs[i].parent == mine && s.procs[i].state.ZOMBIE?))
    case WaitDecided => pc == WaitSleep && w == mine
    case WaitSleep => pc == WaitUnlocked && w == None
    case ExitReparent(i) =>
      || (i == n && pc == ExitParentWake(0) && w == mine)
      || (i < n && pc == ExitReparent(i + 1) && w == mine && s.procs[i].parent != mine)
    case ExitInitWake(i, j) =>
      || (j == n && pc == ExitReparent(i + 1) && w == mine)
      || (j < n && pc == ExitInitWake(i, j + 1) && w == mine && (j == s.init ==> !Dozing(s.procs[j])))
    case ExitParentWake(j) =>
      || (j == n && pc == ExitLock && w == mine)
      || (j < n && pc == ExitParentWake(j + 1) && w == mine && (s.procs[r].parent == Some(j) ==> !Dozing(s.procs[j])))
    case ExitUnlock => pc == Switch(Run) && w == None
    case _ => false
  }

  ghost predicate MoveKnown(s: State, r: nat, p: nat, q: nat) {
    && r < |s.procs| && p < |s.procs| && q < |s.procs|
    && InitOk(s) && OnCpuState(s.procs[r])
    && PairOk(s, p, q) && SoloOk(s, p) && SoloOk(s, q) && SoloOk(s, r) && SoloOk(s, s.init)
  }

  predicate WaitPc(pc: Pc) {
    pc.WaitScan? || pc.WaitDecided? || pc.WaitSleep? || pc.WaitAgain? || pc.Run?
  }

  lemma MovedPairWait(s: State, r: nat, pc: Pc, w: Option<nat>, p: nat, q: nat)
    requires MoveKnown(s, r, p, q) && LegalMove(s, r, pc, w) && WaitPc(s.procs[r].pc)
    ensures PairOk(Moved(s, r, pc, w), p, q)
  {
  }

  lemma MovedPairExit(s: State, r: nat, pc: Pc, w: Option<nat>, p: nat, q: nat)
    requires MoveKnown(s, r, p, q) && LegalMove(s, r, pc, w) && !WaitPc(s.procs[r].pc)
    ensures PairOk(Moved(s, r, pc, w), p, q)
  {
  }

  lemma MovedSolo(s: State, r: nat, pc: Pc, w: Option<nat>, p: nat)
    requires r < |s.procs| && LegalMove(s, r, pc, w) && p < |s.procs| && SoloOk(s, p) && SoloOk(s, r)
    requires OnCpuState(s.procs[r])
    ensures SoloOk(Moved(s, r, pc, w), p)
  {
  }

  lemma MovedFamily(s: State, r: nat, pc: Pc, w: Option<nat>)
    requires FamilyOk(s) && r < |s.procs| && LegalMove(s, r, pc, w) && OnCpuState(s.procs[r])
    ensures FamilyOk(Moved(s, r, pc, w))
  {
    var t := Moved(s, r, pc, w);
    assert SoloOk(s, r) && SoloOk(s, s.init);
    forall p, q | 0 <= p < |t.procs| && 0 <= q < |t.procs| ensures PairOk(t, p, q) { 
      assert PairOk(s, p, q) && SoloOk(s, p) && SoloOk(s, q);
      if WaitPc(s.procs[r].pc) { MovedPairWait(s, r, pc, w, p, q); } else { MovedPairExit(s, r, pc, w, p, q); }
    }
    forall p | 0 <= p < |t.procs| ensures SoloOk(t, p) { assert SoloOk(s, p); MovedSolo(s, r, pc, w, p); }
  }

  /** Steps that only move the executing process, up to its own lock. */
  lemma MoveStep(s: State, c: nat, r: nat, t: State, pc: Pc, w: Option<nat>)
    requires Inv(s) && Executes(s, c, r) && LegalMove(s, r, pc, w)
    requires t.init == s.init && t.waitLock == w && t.exited == s.exited && t.reaped == s.reaped
    requires |t.procs| == |s.procs| && t.procs == s.procs[r := s.procs[r].(pc := pc, lock := t.procs[r].lock)]
    ensures FamilyOk(t) && ReapOk(t)
  {
    InvExecuting(s, c, r);
    MovedFamily(s, r, pc, w);
    var m := Moved(s, r, pc, w);
    forall p | 0 <= p < |s.procs| ensures Same(m, t, p) { assert SoloOk(m, p); }
    SameKeepsFamily(m, t);
    forall p | 0 <= p < |s.procs| ensures SameGen(s, t, p) { }
    SameKeepsReap(s, t);
  }

  /** A process dozing in wait() whose lock is free is asleep on its own channel, so the
      next wakeup() on that channel reaches it. */
  lemma DozingIsAsleep(s: State, e: nat, p: nat)
    requires Inv(s) && e < |s.procs| && p < |s.procs| && e != p
    requires HoldsWait(s.procs[e].pc) && Free(s, p) && Dozing(s.procs[p])
    ensures s.procs[p].pc.Back? && s.procs[p].state.SLEEPING? && s.procs[p].chan == Some(OfProc(p))
  {
    assert SoloOk(s, e) && SoloOk(s, p) && ProcOk(s.cpus, s.procs, p);
    OnCpuWhileFree(s, p);
    FreeIsUnlocked(s, p);
  }

  lemma FreeIsUnlocked(s: State, p: nat)
    requires SchedInv(s) && p < |s.procs| && s.procs[p].lock == None
    ensures s.procs[p].on.Some? ==> !SelfLocked(s.procs[p].pc)
  {
    assert ProcOk(s.cpus, s.procs, p);
    if s.procs[p].on.Some? { assert CpuOk(s.cpus, s.procs, s.procs[p].on.value); }
  }

  /** wakeup() of slot j leaves the family as it was. */
  lemma WokenFamily(s: State, j: nat, ch: Option<Chan>)
    requires FamilyOk(s) && ReapOk(s) && j < |s.procs|
    ensures FamilyOk(Woken(s, j, ch)) && ReapOk(Woken(s, j, ch))
  {
    var t := Woken(s, j, ch);
    forall p | 0 <= p < |s.procs| ensures Same(s, t, p) && SameGen(s, t, p) { assert SoloOk(s, p); }
    SameKeepsFamily(s, t);
    SameKeepsReap(s, t);
  }

  /** One iteration of wakeup(initproc) or wakeup(p->parent) in exit(). */
  lemma WakeFamily(s: State, c: nat, r: nat, j: nat, ch: Option<Chan>, pc: Pc)
    requires Inv(s) && Executes(s, c, r) && j < |s.procs| && (j != r ==> Free(s, j))
    requires (s.procs[r].pc.ExitInitWake? && s.procs[r].pc.j == j && pc == ExitInitWake(s.procs[r].pc.i, j + 1)
      && ch == Some(OfProc(s.init)))
          || (s.procs[r].pc.ExitParentWake? && s.procs[r].pc.j == j && pc == ExitParentWake(j + 1)
              && ch == ParentChan(s, r))
    ensures var m := if j == r then s else Woken(s, j, ch); FamilyOk(At(m, r, pc)) && ReapOk(At(m, r, pc))
  {
    InvExecuting(s, c, r);
    assert SoloOk(s, r) && PairOk(s, r, r);
    if j == r {
      WokenMove(s, r, j, pc);
    } else {
      WokenFamily(s, j, ch);
      if Dozing(s.procs[j]) { DozingIsAsleep(s, r, j); }
      WokenMove(Woken(s, j, ch), r, j, pc);
    }
  }

  /** Past a slot that is not dozing, the wakeup loop of exit() may go on. */
  lemma WokenMove(m: State, r: nat, j: nat, pc: Pc)
    requires FamilyOk(m) && ReapOk(m) && r < |m.procs| && OnCpuState(m.procs[r]) && j < |m.procs|
    requires (m.procs[r].pc.ExitInitWake? && m.procs[r].pc.j == j && pc == ExitInitWake(m.procs[r].pc.i, j + 1)
              && (j == m.init ==> !Dozing(m.procs[j])))
          || (m.procs[r].pc.ExitParentWake? && m.procs[r].pc.j == j && pc == ExitParentWake(j + 1)
              && (m.procs[r].parent == Some(j) ==> !Dozing(m.procs[j])))
    ensures FamilyOk(At(m, r, pc)) && ReapOk(At(m, r, pc))
  {
    assert SoloOk(m, r);
    MovedFamily(m, r, pc, m.waitLock);
    var t := At(m, r, pc);
    assert t == Moved(m, r, pc, m.waitLock);
    forall p | 0 <= p < |m.procs| ensures SameGen(m, t, p) { }
    SameKeepsReap(m, t);
  }

  // ----- steps that change the family itself

  /** reparent() gives child i to init, which will be woken. */
  lemma ReparentPair(s: State, r: nat, i: nat, p: nat, q: nat)
    requires MoveKnown(s, r, p, q) && s.procs[r].pc == ExitReparent(i) && i < |s.procs| && s.procs[i].parent == Some(r)
    requires PairOk(s, r, i) && PairOk(s, r, q)
    ensures PairOk(At(PutProc(s, i, s.procs[i].(parent := Some(s.init))), r, ExitInitWake(i, 0)), p, q)
  {
  }

  lemma ReparentFamily(s: State, r: nat, i: nat)
    requires FamilyOk(s) && r < |s.procs| && OnCpuState(s.procs[r])
    requires s.procs[r].pc == ExitReparent(i) && i < |s.procs| && s.procs[i].parent == Some(r)
    ensures FamilyOk(At(PutProc(s, i, s.procs[i].(parent := Some(s.init))), r, ExitInitWake(i, 0)))
  {
    var t := At(PutProc(s, i, s.procs[i].(parent := Some(s.init))), r, ExitInitWake(i, 0));
    assert SoloOk(s, r) && SoloOk(s, s.init) && PairOk(s, r, i) && SoloOk(s, i);
    forall p, q | 0 <= p < |t.procs| && 0 <= q < |t.procs| ensures PairOk(t, p, q) {
      assert PairOk(s, p, q) && SoloOk(s, p) && SoloOk(s, q) && PairOk(s, r, q);
      ReparentPair(s, r, i, p, q);
    }
    forall p | 0 <= p < |t.procs| ensures SoloOk(t, p) { assert SoloOk(s, p); }
  }

  lemma ZombieFamily(s: State, c: nat, r: nat)
    requires Inv(s) && Executes(s, c, r) && s.procs[r].pc.ExitLock?
    ensures FamilyOk(ThreadStep(s, c, r)) && ReapOk(ThreadStep(s, c, r))
  {
    var t := ThreadStep(s, c, r);
    InvExecuting(s, c, r);
    assert SoloOk(s, r) && GenOk(s, r);
    forall p, q | 0 <= p < |t.procs| && 0 <= q < |t.procs| ensures PairOk(t, p, q) {
      assert PairOk(s, p, q) && SoloOk(s, p) && SoloOk(s, q);
    }
    forall p | 0 <= p < |t.procs| ensures SoloOk(t, p) { assert SoloOk(s, p); }
    forall p | 0 <= p < |s.procs| ensures GenOk(t, p) { assert GenOk(s, p); }
  }

  lemma ForkParentFamily(s: State, c: nat, r: nat)
    requires Inv(s) && Executes(s, c, r) && GoEnabled(s, r) && s.procs[r].pc.ForkParent?
    ensures FamilyOk(ThreadStep(s, c, r)) && ReapOk(ThreadStep(s, c, r))
  {
    var t := ThreadStep(s, c, r);
    InvExecuting(s, c, r);
    forall p, q | 0 <= p < |t.procs| && 0 <= q < |t.procs| ensures PairOk(t, p, q) { assert PairOk(s, p, q); }
    forall p | 0 <= p < |t.procs| ensures SoloOk(t, p) { assert SoloOk(s, p); }
    forall p | 0 <= p < |s.procs| ensures SameGen(s, t, p) { }
    SameKeepsReap(s, t);
  }

  /** wait() frees zombie child i. */
  function AfterReap(s: State, r: nat, i: nat): State
    requires r < |s.procs| && i < |s.procs|
  {
    At(PutProc(s, i, Freed(s.procs[i])), r, Run).(waitLock := None, reaped := s.reaped + [(i, s.procs[i].gen)])
  }

  lemma ReapPair(s: State, r: nat, i: nat, p: nat, q: nat)
    requires MoveKnown(s, r, p, q) && s.procs[r].pc.WaitScan? && i < |s.procs|
    requires s.procs[i].parent == Some(r) && s.procs[i].state.ZOMBIE?
    requires PairOk(s, r, i) && PairOk(s, i, q)
    ensures PairOk(AfterReap(s, r, i), p, q)
  {
  }

  lemma ReapFamily(s: State, r: nat, i: nat)
    requires FamilyOk(s) && r < |s.procs| && OnCpuState(s.procs[r]) && s.procs[r].pc.WaitScan? && i < |s.procs|
    requires s.procs[i].parent == Some(r) && s.procs[i].state.ZOMBIE?
    ensures FamilyOk(AfterReap(s, r, i))
  {
    var t := AfterReap(s, r, i);
    assert SoloOk(s, r) && PairOk(s, r, i) && SoloOk(s, s.init);
    forall p, q | 0 <= p < |t.procs| && 0 <= q < |t.procs| ensures PairOk(t, p, q) {
      assert PairOk(s, p, q) && SoloOk(s, p) && SoloOk(s, q) && PairOk(s, i, q);
      ReapPair(s, r, i, p, q);
    }
    forall p | 0 <= p < |t.procs| ensures SoloOk(t, p) { assert SoloOk(s, p); }
  }

  lemma ReapCounts(s: State, r: nat, i: nat)
    requires ReapOk(s) && r < |s.procs| && i < |s.procs| && i != r && s.procs[i].state.ZOMBIE?
    ensures ReapOk(AfterReap(s, r, i))
  {
    var t := AfterReap(s, r, i);
    assert GenOk(s, i);
    forall p | 0 <= p < |s.procs| ensures GenOk(t, p) { assert GenOk(s, p); }
  }

  // ----- every step

  lemma WaitStep(s: State, c: nat, r: nat)
    requires Inv(s) && Executes(s, c, r) && GoEnabled(s, r) && !Reaps(s, r)
    requires WaitPc(s.procs[r].pc)
    ensures FamilyOk(ThreadStep(s, c, r)) && ReapOk(ThreadStep(s, c, r))
  {
    var t := ThreadStep(s, c, r);
    assert SoloOk(s, r);
    MoveStep(s, c, r, t, t.procs[r].pc, t.waitLock);
  }

  lemma ReparentStep(s: State, c: nat, r: nat)
    requires Inv(s) && Executes(s, c, r) && GoEnabled(s, r) && s.procs[r].pc.ExitReparent?
    ensures FamilyOk(ThreadStep(s, c, r)) && ReapOk(ThreadStep(s, c, r))
  {
    var t := ThreadStep(s, c, r);
    var i := s.procs[r].pc.i;
    assert SoloOk(s, r);
    if i < |s.procs| && s.procs[i].parent == Some(r) {
      InvExecuting(s, c, r);
      ReparentFamily(s, r, i);
      forall p | 0 <= p < |s.procs| ensures SameGen(s, t, p) { }
      SameKeepsReap(s, t);
    } else {
      MoveStep(s, c, r, t, t.procs[r].pc, t.waitLock);
    }
  }

  lemma ExitWakeStep(s: State, c: nat, r: nat)
    requires Inv(s) && Executes(s, c, r) && GoEnabled(s, r)
    requires s.procs[r].pc.ExitInitWake? || s.procs[r].pc.ExitParentWake?
    ensures FamilyOk(ThreadStep(s, c, r)) && ReapOk(ThreadStep(s, c, r))
  {
    var t := ThreadStep(s, c, r);
    var pc := s.procs[r].pc;
    assert SoloOk(s, r);
    if pc.j == |s.procs| {
      MoveStep(s, c, r, t, t.procs[r].pc, t.waitLock);
    } else if pc.ExitInitWake? {
      InitWakeStep(s, c, r);
    } else {
      ParentWakeStep(s, c, r);
    }
  }

  lemma InitWakeStep(s: State, c: nat, r: nat)
    requires Inv(s) && Executes(s, c, r) && GoEnabled(s, r) && s.procs[r].pc.ExitInitWake?
      && s.procs[r].pc.j < |s.procs|
    ensures FamilyOk(ThreadStep(s, c, r)) && ReapOk(ThreadStep(s, c, r))
  {
    var pc := s.procs[r].pc;
    WakeFamily(s, c, r, pc.j, Some(OfProc(s.init)), ExitInitWake(pc.i, pc.j + 1));
  }

  lemma ParentWakeStep(s: State, c: nat, r: nat)
    requires Inv(s) && Executes(s, c, r) && GoEnabled(s, r) && s.procs[r].pc.ExitParentWake?
      && s.procs[r].pc.j < |s.procs|
    ensures FamilyOk(ThreadStep(s, c, r)) && ReapOk(ThreadStep(s, c, r))
  {
    WakeFamily(s, c, r, s.procs[r].pc.j, ParentChan(s, r), ExitParentWake(s.procs[r].pc.j + 1));
  }

  lemma ExitStep(s: State, c: nat, r: nat)
    requires Inv(s) && Executes(s, c, r) && GoEnabled(s, r)
    requires HoldsWait(s.procs[r].pc) && !WaitPc(s.procs[r].pc)
    ensures FamilyOk(ThreadStep(s, c, r)) && ReapOk(ThreadStep(s, c, r))
  {
    var pc := s.procs[r].pc;
    if pc.ExitLock? {
      ZombieFamily(s, c, r);
    } else if pc.ExitReparent? {
      ReparentStep(s, c, r);
    } else if pc.ExitUnlock? {
      MoveStep(s, c, r, ThreadStep(s, c, r), Switch(Run), None);
    } else {
      ExitWakeStep(s, c, r);
    }
  }

  lemma ReapStep(s: State, c: nat, r: nat)
    requires Inv(s) && Executes(s, c, r) && GoEnabled(s, r) && Reaps(s, r)
    ensures FamilyOk(ThreadStep(s, c, r)) && ReapOk(ThreadStep(s, c, r))
  {
    InvExecuting(s, c, r);
    ReapFamily(s, r, s.procs[r].pc.i);
    ReapCounts(s, r, s.procs[r].pc.i);
  }

  lemma ThreadFamily(s: State, c: nat, r: nat)
    requires Inv(s) && Executes(s, c, r) && GoEnabled(s, r)
    ensures FamilyOk(ThreadStep(s, c, r)) && ReapOk(ThreadStep(s, c, r))
  {
    var pc := s.procs[r].pc;
    if Plain(pc) {
      PlainFamily(s, c, r);
    } else if pc.ForkParent? {
      ForkParentFamily(s, c, r);
    } else if Reaps(s, r) {
      ReapStep(s, c, r);
    } else if WaitPc(pc) {
      WaitStep(s, c, r);
    } else {
      ExitStep(s, c, r);
    }
  }

  lemma CallStepFamily(s: State, c: nat, r: nat, a: Action)
    requires Inv(s) && Executes(s, c, r) && !a.Pick? && !a.Go? && ThreadEnabled(s, r, a)
    ensures FamilyOk(CallStep(s, c, r, a)) && ReapOk(CallStep(s, c, r, a))
  {
    if a.CallFork? {
      CallForkFamily(s, c, r, a.np);
    } else if a.CallExit? {
      MoveStep(s, c, r, CallStep(s, c, r, a), ExitReparent(0), Some(r));
    } else if a.CallWait? {
      MoveStep(s, c, r, CallStep(s, c, r, a), WaitScan(0, false), Some(r));
    } else if a.CopyoutFails? {
      MoveStep(s, c, r, CallStep(s, c, r, a), Run, None);
    } else {
      CallFamily(s, c, r, a);
    }
  }

  /** Every step of every CPU keeps the whole invariant. */
  lemma StepKeepsInv(s: State, c: nat, a: Action)
    requires Inv(s) && Enabled(s, c, a)
    ensures Inv(After(s, c, a))
  {
    StepKeeps(s, c, a);
    if !s.cpus[c].pc.Exec? {
      SchedFamily(s, c, a);
    } else if a.Go? {
      ThreadFamily(s, c, s.cpus[c].proc.value);
    } else {
      CallStepFamily(s, c, s.cpus[c].proc.value, a);
    }
  }

  // ----- whole runs

  /** After procinit() and userinit(): one RUNNABLE process, init; every CPU is in its
      scheduler. */
  ghost predicate Booted(s: State) {
    && s.init < |s.procs|
    && (forall c :: 0 <= c < |s.cpus| ==> s.cpus[c] == Cpu(None, Scan))
    && (forall p :: 0 <= p < |s.procs| ==>
          s.procs[p] == if p == s.init then Proc(RUNNABLE, None, None, false, None, Back(Run), None, None, 1)
                        else Proc(UNUSED, None, None, false, None, Fresh, None, None, 0))
    && s.waitLock == None && s.exited == {} && s.reaped == []
  }

  datatype Run = Boot(s: State) | More(prev: Run, c: nat, a: Action, s: State)

  /** Any interleaving of steps of any CPUs. */
  ghost predicate Interleaving(run: Run) {
    match run
    case Boot(s) => Booted(s)
    case More(prev, c, a, s) => Interleaving(prev) && Enabled(prev.s, c, a) && s == After(prev.s, c, a)
  }

  lemma BootedInv(s: State)
    requires Booted(s)
    ensures Inv(s)
  {
    forall p | 0 <= p < |s.procs| ensures ProcOk(s.cpus, s.procs, p) && ForkOk(s.procs, p) && SoloOk(s, p)
      && GenOk(s, p) { }
  }

  lemma {:induction false} RunKeepsInv(run: Run)
    requires Interleaving(run)
    ensures Inv(run.s)
  {
    if run.Boot? {
      BootedInv(run.s);
    } else {
      RunKeepsInv(run.prev);
      StepKeepsInv(run.prev.s, run.c, run.a);
    }
  }

  /** Whenever wait_lock is free, no process sleeps in wait() while a child is a zombie. */
  lemma NoLostWakeup(run: Run, p: nat, q: nat)
    requires Interleaving(run) && p < |run.s.procs| && q < |run.s.procs|
    requires run.s.waitLock == None
    requires run.s.procs[p].state == SLEEPING && Cont(run.s.procs[p].pc) == WaitAgain
    requires run.s.procs[q].parent == Some(p)
    ensures run.s.procs[q].state != ZOMBIE
  {
    RunKeepsInv(run);
    assert PairOk(run.s, p, q) && ProcOk(run.s.cpus, run.s.procs, p);
  }

  /** An exited process is reaped at most once and by exiting first; until then its slot
      stays a zombie of the same generation, so it is not used again. */
  lemma ReapedOnce(run: Run, p: nat, g: nat)
    requires Interleaving(run) && p < |run.s.procs| && (p, g) in run.s.exited
    ensures (p, g) !in run.s.reaped ==> run.s.procs[p].gen == g && run.s.procs[p].state == ZOMBIE
    ensures Unique(run.s.reaped) && forall x :: x in run.s.reaped ==> x in run.s.exited
  {
    RunKeepsInv(run);
    assert GenOk(run.s, p);
  }

  /** No process, alive or being set up, has a parent that has exited or was freed. */
  lemma NoDeadParent(run: Run, p: nat, q: nat)
    requires Interleaving(run) && p < |run.s.procs| && q < |run.s.procs| && run.s.procs[q].parent == Some(p)
    ensures run.s.procs[p].state.RUNNING? || run.s.procs[p].state.RUNNABLE? || run.s.procs[p].state.SLEEPING?
    ensures p != q
  {
    RunKeepsInv(run);
    assert PairOk(run.s, p, q);
  }

  /** In every interleaving, while p->lock is free, p is current on exactly one CPU if it
      is RUNNING and on none otherwise. */
  lemma CurrentInEveryRun(run: Run, p: nat)
    requires Interleaving(run) && p < |run.s.procs| && run.s.procs[p].lock == None
    ensures run.s.procs[p].state == RUNNING ==>
      exists c :: 0 <= c < |run.s.cpus| && run.s.cpus[c] == Cpu(Some(p), Exec)
                  && forall d :: 0 <= d < |run.s.cpus| && run.s.cpus[d].proc == Some(p) ==> d == c
    ensures run.s.procs[p].state != RUNNING ==> forall d :: 0 <= d < |run.s.cpus| ==> run.s.cpus[d].proc != Some(p)
  {
    RunKeepsInv(run);
    CurrentOnOneCpu(run.s, p);
  }
}
