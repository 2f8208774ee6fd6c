/**
  The scheduler's hand-off of p->lock across swtch: which states a process can be in,
  and on which CPUs it is current, while its lock is free.
 */
module Scheduler {
  import opened ProcTable

  /** CPU c holds the locks its program point says it holds. */
  ghost predicate CpuOk(cs: seq<Cpu>, ps: seq<Proc>, c: int)
    requires TableWf(cs, ps) && 0 <= c < |cs|
  {
    var u := cs[c];
    && (u.proc.Some? ==> ps[u.proc.value].on == Some(c))
    && (u.pc.Chosen? ==> ps[u.pc.p].on == Some(c))
    && (u.pc.Scan? || u.pc.Got? || u.pc.Chosen? || u.pc.Release? ==> u.proc.None?)
    && (u.pc.Set? || u.pc.Returned? ==> u.proc == Some(u.pc.p))
    && (!u.pc.Scan? && !u.pc.Exec? ==> ps[u.pc.p].lock == Some(c))
    && (u.pc.Exec? && SelfLocked(ps[u.proc.value].pc) ==> ps[u.proc.value].lock == Some(c))
    && (u.pc.Exec? && ps[u.proc.value].pc.ForkHold? ==> ps[ps[u.proc.value].pc.np].lock == Some(c))
  }

  /** The state of process p agrees with its program point and its CPU. */
  ghost predicate ProcOk(cs: seq<Cpu>, ps: seq<Proc>, p: int)
    requires TableWf(cs, ps) && 0 <= p < |ps|
  {
    var r := ps[p];
    match r.on
    case None => OffCpuState(r)
    case Some(c) =>
      && c < |cs|
      && (cs[c].pc == Chosen(p) || cs[c].proc == Some(p))
      && match cs[c].pc {
           case Exec => OnCpuState(r)
           case Chosen(_) => r.state.RUNNING? && r.pc.Back?
           case Set(_) => r.state.RUNNING? && r.pc.Back?
           case _ => OffCpuState(r) && !r.pc.Fresh?
         }
  }

  predicate OffCpuState(r: Proc) {
    || (r.pc.Fresh? && (r.state.UNUSED? || r.state.USED?))
    || (r.pc.Back? && (r.state.RUNNABLE? || r.state.SLEEPING?))
    || (r.pc.Dead? && r.state.ZOMBIE?)
  }

  /** A process whose thread is executing is RUNNING, except between giving up that
      state and switching away. */
  predicate OnCpuState(r: Proc) {
    && !r.pc.Fresh? && !r.pc.Dead?
    && if r.pc.Switch? then r.state.RUNNABLE? || r.state.SLEEPING? || (r.state.ZOMBIE? && r.pc.next.Run?)
       else if r.pc.ExitUnlock? then r.state.ZOMBIE?
       else r.state.RUNNING?
  }

  predicate Forks(pc: Pc) {
    Cont(pc).ForkHold? || Cont(pc).ForkParent? || Cont(pc).ForkReady?
  }

  /** A slot being set up by fork() belongs to the process whose fork() it is. */
  ghost predicate ForkOk(ps: seq<Proc>, r: int)
    requires 0 <= r < |ps| && PcWf(|ps|, ps[r].pc)
  {
    Forks(ps[r].pc) ==> ps[Cont(ps[r].pc).np].state == USED && ps[Cont(ps[r].pc).np].forker == Some(r)
  }

  ghost predicate TableInv(cs: seq<Cpu>, ps: seq<Proc>) {
    && TableWf(cs, ps)
    && (forall c :: 0 <= c < |cs| ==> CpuOk(cs, ps, c))
    && (forall p :: 0 <= p < |ps| ==> ProcOk(cs, ps, p))
    && (forall r :: 0 <= r < |ps| ==> ForkOk(ps, r))
  }

  ghost predicate SchedInv(s: State) {
    s.init < |s.procs| && TableInv(s.cpus, s.procs)
  }

  /** CPU c may change its own record to u and that of process p to x: p's lock and p
      itself do not belong to another CPU, and no other process is current on c. */
  ghost predicate Owned(cs: seq<Cpu>, ps: seq<Proc>, c: nat, u: Cpu, p: nat, x: Proc)
    requires TableWf(cs, ps) && c < |cs| && p < |ps|
  {
    && CpuWf(|ps|, u) && PcWf(|ps|, x.pc)
    && (ps[p].lock.Some? && ps[p].lock != Some(c) ==> x.lock == ps[p].lock)
    && (ps[p].on.Some? && ps[p].on != Some(c) ==> x.on == ps[p].on && x.pc == ps[p].pc)
    && (u != cs[c] ==> (cs[c].proc.Some? ==> cs[c].proc == Some(p)) && (cs[c].pc.Chosen? ==> cs[c].pc.p == p))
    && (ps[p].state == USED && x.state == USED ==> x.forker == ps[p].forker)
  }

  lemma FrameWf(cs: seq<Cpu>, ps: seq<Proc>, c: nat, u: Cpu, p: nat, x: Proc)
    requires TableWf(cs, ps) && c < |cs| && p < |ps| && Owned(cs, ps, c, u, p, x)
    ensures TableWf(cs[c := u], ps[p := x])
  {
  }

  lemma FrameCpu(cs: seq<Cpu>, ps: seq<Proc>, c: nat, u: Cpu, p: nat, x: Proc, d: nat)
    requires TableWf(cs, ps) && c < |cs| && p < |ps| && Owned(cs, ps, c, u, p, x)
    requires TableWf(cs[c := u], ps[p := x])
    requires d < |cs| && d != c && CpuOk(cs, ps, d)
    ensures CpuOk(cs[c := u], ps[p := x], d)
  {
  }

  lemma FrameProc(cs: seq<Cpu>, ps: seq<Proc>, c: nat, u: Cpu, p: nat, x: Proc, q: nat)
    requires TableWf(cs, ps) && c < |cs| && p < |ps| && Owned(cs, ps, c, u, p, x)
    requires TableWf(cs[c := u], ps[p := x])
    requires q < |ps| && q != p && ProcOk(cs, ps, q)
    ensures ProcOk(cs[c := u], ps[p := x], q)
  {
  }

  /** If c owns what it changes, then only c and p need a fresh argument. */
  lemma FrameKeeps(cs: seq<Cpu>, ps: seq<Proc>, c: nat, u: Cpu, p: nat, x: Proc)
    requires TableInv(cs, ps) && c < |cs| && p < |ps| && Owned(cs, ps, c, u, p, x)
    requires ForkOk(ps[p := x], p)
    requires x.state == USED || ps[p].state != USED
      || (ps[p].forker.Some? && ps[p].forker.value < |ps| && !Forks(ps[ps[p].forker.value].pc))
    requires TableWf(cs[c := u], ps[p := x]) ==> CpuOk(cs[c := u], ps[p := x], c) && ProcOk(cs[c := u], ps[p := x], p)
    ensures TableInv(cs[c := u], ps[p := x])
  {
    var ds, qs := cs[c := u], ps[p := x];
    FrameWf(cs, ps, c, u, p, x);
    forall d | 0 <= d < |ds| ensures CpuOk(ds, qs, d) {
      if d != c { FrameCpu(cs, ps, c, u, p, x, d); }
    }
    forall q | 0 <= q < |qs| ensures ProcOk(ds, qs, q) {
      if q != p { FrameProc(cs, ps, c, u, p, x, q); }
    }
    forall r | 0 <= r < |qs| ensures ForkOk(qs, r) {
      assert ForkOk(ps, r);
    }
  }

  /** Process r executes on CPU c. */
  ghost predicate Executes(s: State, c: nat, r: nat) {
    c < |s.cpus| && r < |s.procs| && s.cpus[c] == Cpu(Some(r), Exec)
  }

  /** A change to the executing process's own record. */
  lemma OwnKeeps(s: State, c: nat, r: nat, x: Proc)
    requires SchedInv(s) && Executes(s, c, r)
    requires x.on == s.procs[r].on && OnCpuState(x) && PcWf(|s.procs|, x.pc)
    requires SelfLocked(x.pc) ==> x.lock == Some(c)
    requires x.pc.ForkHold? ==> x.pc.np != r && s.procs[x.pc.np].lock == Some(c)
    requires x.lock == s.procs[r].lock || s.procs[r].lock == None || s.procs[r].lock == Some(c)
    requires Forks(x.pc) ==> ForkOk(s.procs[r := x], r)
    ensures SchedInv(PutProc(s, r, x)) && Executes(PutProc(s, r, x), c, r)
  {
    assert CpuOk(s.cpus, s.procs, c) && ProcOk(s.cpus, s.procs, r);
    assert s.cpus[c := s.cpus[c]] == s.cpus;
    FrameKeeps(s.cpus, s.procs, c, s.cpus[c], r, x);
  }

  /** The executing process changes another slot without moving it. */
  lemma OtherKeeps(s: State, c: nat, r: nat, q: nat, x: Proc)
    requires SchedInv(s) && Executes(s, c, r) && q < |s.procs| && q != r
    requires x.pc == s.procs[q].pc && x.on == s.procs[q].on && x.lock == s.procs[q].lock
      && x.forker == s.procs[q].forker
    requires x.state == s.procs[q].state || (x.state == RUNNABLE && s.procs[q].state == SLEEPING)
    ensures SchedInv(PutProc(s, q, x)) && Executes(PutProc(s, q, x), c, r)
  {
    assert CpuOk(s.cpus, s.procs, c) && ProcOk(s.cpus, s.procs, q) && ProcOk(s.cpus, s.procs, r) && ForkOk(s.procs, q);
    assert s.cpus[c := s.cpus[c]] == s.cpus;
    FrameKeeps(s.cpus, s.procs, c, s.cpus[c], q, x);
  }

  lemma PickKeeps(s: State, c: nat, p: nat)
    requires SchedInv(s) && Enabled(s, c, Pick(p))
    ensures SchedInv(After(s, c, Pick(p)))
  {
    assert CpuOk(s.cpus, s.procs, c) && ProcOk(s.cpus, s.procs, p) && ForkOk(s.procs, p);
    FrameKeeps(s.cpus, s.procs, c, s.cpus[c].(pc := Got(p)), p, s.procs[p].(lock := Some(c)));
  }

  lemma SchedStepKeeps(s: State, c: nat)
    requires SchedInv(s) && c < |s.cpus| && !s.cpus[c].pc.Exec? && !s.cpus[c].pc.Scan?
    ensures SchedInv(SchedStep(s, c))
  {
    var t := SchedStep(s, c);
    var p := s.cpus[c].pc.p;
    assert CpuOk(s.cpus, s.procs, c) && ProcOk(s.cpus, s.procs, p) && ForkOk(s.procs, p);
    if s.procs[p].on.Some? { assert CpuOk(s.cpus, s.procs, s.procs[p].on.value); }
    assert t.procs == s.procs[p := t.procs[p]];
    FrameKeeps(s.cpus, s.procs, c, t.cpus[c], p, t.procs[p]);
  }

  lemma SwitchKeeps(s: State, c: nat, r: nat)
    requires SchedInv(s) && Executes(s, c, r) && s.procs[r].pc.Switch?
    ensures SchedInv(ThreadStep(s, c, r))
  {
    var t := ThreadStep(s, c, r);
    assert CpuOk(s.cpus, s.procs, c) && ProcOk(s.cpus, s.procs, r) && ForkOk(s.procs, r);
    FrameKeeps(s.cpus, s.procs, c, t.cpus[c], r, t.procs[r]);
  }

  lemma ForkKeeps(s: State, c: nat, r: nat, np: nat)
    requires SchedInv(s) && Executes(s, c, r) && ThreadEnabled(s, r, CallFork(np))
    ensures SchedInv(CallStep(s, c, r, CallFork(np)))
  {
    var t := CallStep(s, c, r, CallFork(np));
    assert CpuOk(s.cpus, s.procs, c) && ProcOk(s.cpus, s.procs, r) && ProcOk(s.cpus, s.procs, np);
    assert s.cpus[c := s.cpus[c]] == s.cpus;
    FrameKeeps(s.cpus, s.procs, c, s.cpus[c], np, t.procs[np]);
    OwnKeeps(PutProc(s, np, t.procs[np]), c, r, t.procs[r]);
  }

  /** fork() frees, unlocks or readies the child's slot. */
  lemma ForkChildKeeps(s: State, c: nat, r: nat, x: Proc, pc: Pc)
    requires SchedInv(s) && Executes(s, c, r)
    requires s.procs[r].pc.ForkHold? || s.procs[r].pc.ForkReady?
    requires var np := s.procs[r].pc.np; var y := s.procs[np];
      || (s.procs[r].pc.ForkHold? && x == Freed(y) && pc == Run)
      || (s.procs[r].pc.ForkHold? && x == y.(lock := None) && pc == ForkParent(np))
      || (s.procs[r].pc.ForkReady? && y.lock == None && x == y.(state := RUNNABLE, pc := Back(Run)) && pc == Run)
    ensures SchedInv(At(PutProc(s, s.procs[r].pc.np, x), r, pc))
  {
    var np := s.procs[r].pc.np;
    ForkerMoves(s, c, r, pc);
    var s1 := At(s, r, pc);
    ChildKeeps(s1, c, r, np, x);
    assert s.procs[np := x][r := s.procs[r].(pc := pc)] == s1.procs[np := x];
  }

  /** The forking process moves on; its child is still as it was. */
  lemma ForkerMoves(s: State, c: nat, r: nat, pc: Pc)
    requires SchedInv(s) && Executes(s, c, r) && (s.procs[r].pc.ForkHold? || s.procs[r].pc.ForkReady?)
    requires pc == Run || (s.procs[r].pc.ForkHold? && pc == ForkParent(s.procs[r].pc.np))
    ensures var np := s.procs[r].pc.np; var s1 := At(s, r, pc);
      && np != r && SchedInv(s1) && Executes(s1, c, r) && s1.procs[np] == s.procs[np]
      && s.procs[np].state == USED && s.procs[np].forker == Some(r) && s.procs[np].on == None && s.procs[np].pc.Fresh?
      && (s.procs[r].pc.ForkHold? ==> s.procs[np].lock == Some(c))
  {
    var np := s.procs[r].pc.np;
    assert CpuOk(s.cpus, s.procs, c) && ProcOk(s.cpus, s.procs, r) && ProcOk(s.cpus, s.procs, np) && ForkOk(s.procs, r);
    OwnKeeps(s, c, r, s.procs[r].(pc := pc));
  }

  /** The slot of a child that is set up changes on its way. */
  lemma ChildKeeps(s: State, c: nat, r: nat, np: nat, x: Proc)
    requires SchedInv(s) && Executes(s, c, r) && np < |s.procs| && np != r
    requires s.procs[np].state == USED && s.procs[np].on == None && s.procs[np].pc.Fresh?
      && s.procs[np].forker == Some(r)
    requires s.procs[np].lock == Some(c) || s.procs[np].lock == None
    requires !s.procs[r].pc.ForkHold?
    requires (x == Freed(s.procs[np]) && !Forks(s.procs[r].pc)) || x == s.procs[np].(lock := None)
          || (x == s.procs[np].(state := RUNNABLE, pc := Back(Run)) && !Forks(s.procs[r].pc))
    ensures SchedInv(PutProc(s, np, x))
  {
    assert s.cpus[c := s.cpus[c]] == s.cpus;
    assert CpuOk(s.cpus, s.procs, c) && ProcOk(s.cpus, s.procs, np) && ForkOk(s.procs, np);
    FrameKeeps(s.cpus, s.procs, c, s.cpus[c], np, x);
  }

  lemma CallKeeps(s: State, c: nat, r: nat, a: Action)
    requires SchedInv(s) && Executes(s, c, r)
    requires !a.Pick? && !a.Go? && ThreadEnabled(s, r, a)
    ensures SchedInv(CallStep(s, c, r, a))
  {
    assert CpuOk(s.cpus, s.procs, c) && ProcOk(s.cpus, s.procs, r) && ForkOk(s.procs, r);
    if a.CallFork? {
      ForkKeeps(s, c, r, a.np);
    } else if a.ForkFails? {
      ForkChildKeeps(s, c, r, Freed(s.procs[s.procs[r].pc.np]), Run);
    } else if a.CallKill? && a.q != r {
      OtherKeeps(s, c, r, a.q, CallStep(s, c, r, a).procs[a.q]);
    } else {
      OwnKeeps(s, c, r, CallStep(s, c, r, a).procs[r]);
    }
  }

  /** The slot a step of process r touches besides its own, if any. */
  function Target(s: State, r: nat): (q: nat)
    requires r < |s.procs|
  {
    match s.procs[r].pc
    case ForkParent(np) => np
    case Wake(_, i) => i
    case ExitInitWake(_, j) => j
    case ExitParentWake(j) => j
    case ExitReparent(i) => i
    case _ => r
  }

  /** A step may wake or reparent another slot, but moves only the executing process. */
  lemma TargetKept(s: State, c: nat, r: nat)
    requires SchedInv(s) && Executes(s, c, r) && GoEnabled(s, r)
    requires Target(s, r) != r && Target(s, r) < |s.procs|
    ensures var t, q := ThreadStep(s, c, r), Target(s, r); var x := t.procs[q];
      && x.pc == s.procs[q].pc && x.on == s.procs[q].on && x.lock == s.procs[q].lock && x.forker == s.procs[q].forker
      && (x.state == s.procs[q].state || (x.state == RUNNABLE && s.procs[q].state == SLEEPING))
      && t.procs == s.procs[q := x][r := t.procs[r]] && t.cpus == s.cpus && t.init == s.init
  {
    if s.procs[r].pc.ExitInitWake? || s.procs[r].pc.ExitParentWake? || s.procs[r].pc.Wake? { WakeTarget(s, c, r); }
  }

  lemma WakeTarget(s: State, c: nat, r: nat)
    requires Wf(s) && Executes(s, c, r) && GoEnabled(s, r) && Target(s, r) != r && Target(s, r) < |s.procs|
    requires s.procs[r].pc.ExitInitWake? || s.procs[r].pc.ExitParentWake? || s.procs[r].pc.Wake?
    ensures var t, q := ThreadStep(s, c, r), Target(s, r); var x := t.procs[q];
      && x == s.procs[q].(state := x.state)
      && (x.state == s.procs[q].state || (x.state == RUNNABLE && s.procs[q].state == SLEEPING))
      && t.procs == s.procs[q := x][r := t.procs[r]] && t.cpus == s.cpus && t.init == s.init
  {
  }

  /** The steps that change only the executing process's own record. */
  lemma OwnStep(s: State, c: nat, r: nat)
    requires SchedInv(s) && Executes(s, c, r) && GoEnabled(s, r)
    requires Target(s, r) == r || Target(s, r) == |s.procs|
    requires !s.procs[r].pc.Switch? && !s.procs[r].pc.ForkHold? && !s.procs[r].pc.ForkReady? && !Reaps(s, r)
    ensures var t := ThreadStep(s, c, r);
      t.procs == s.procs[r := t.procs[r]] && t.cpus == s.cpus && t.init == s.init
  {
  }

  /** A process on a CPU whose lock is free is RUNNING. */
  lemma OnCpuWhileFree(s: State, p: nat)
    requires SchedInv(s) && p < |s.procs| && s.procs[p].lock == None
    ensures s.procs[p].on.Some? <==> s.procs[p].state == RUNNING
  {
    assert ProcOk(s.cpus, s.procs, p);
    if s.procs[p].on.Some? { assert CpuOk(s.cpus, s.procs, s.procs[p].on.value); }
  }

  /** The executing process's own record after a step that does not switch away. */
  ghost predicate StaysOn(s: State, c: nat, r: nat, x: Proc)
    requires r < |s.procs|
  {
    && x.on == s.procs[r].on && OnCpuState(x) && PcWf(|s.procs|, x.pc)
    && (SelfLocked(x.pc) ==> x.lock == Some(c)) && !x.pc.ForkHold?
    && (x.lock == s.procs[r].lock || s.procs[r].lock == None || s.procs[r].lock == Some(c))
    && (Forks(x.pc) ==> Cont(x.pc) == Cont(s.procs[r].pc) || Cont(s.procs[r].pc) == ForkParent(Cont(x.pc).np))
  }

  ghost predicate ThreadOk(s: State, c: nat, r: nat) {
    && Wf(s) && Executes(s, c, r) && GoEnabled(s, r)
    && OnCpuState(s.procs[r]) && PcWf(|s.procs|, s.procs[r].pc)
    && (SelfLocked(s.procs[r].pc) ==> s.procs[r].lock == Some(c))
    && !s.procs[r].pc.Switch? && !s.procs[r].pc.ForkHold? && !s.procs[r].pc.ForkReady? && !Reaps(s, r)
  }

  lemma OwnShape(s: State, c: nat, r: nat)
    requires ThreadOk(s, c, r)
    ensures StaysOn(s, c, r, ThreadStep(s, c, r).procs[r])
  {
    var pc := s.procs[r].pc;
    if pc.WaitScan? || pc.WaitDecided? || pc.WaitSleep? {
      OwnShapeWait(s, c, r);
    } else if HoldsWait(pc) {
      OwnShapeExit(s, c, r);
    } else if SelfLocked(pc) {
      OwnShapeLocked(s, c, r);
    }
  }

  lemma OwnShapeWait(s: State, c: nat, r: nat)
    requires ThreadOk(s, c, r) && (s.procs[r].pc.WaitScan? || s.procs[r].pc.WaitDecided? || s.procs[r].pc.WaitSleep?)
    ensures StaysOn(s, c, r, ThreadStep(s, c, r).procs[r])
  {
  }

  lemma OwnShapeExit(s: State, c: nat, r: nat)
    requires ThreadOk(s, c, r) && HoldsWait(s.procs[r].pc)
    requires !(s.procs[r].pc.WaitScan? || s.procs[r].pc.WaitDecided? || s.procs[r].pc.WaitSleep?)
    ensures StaysOn(s, c, r, ThreadStep(s, c, r).procs[r])
  {
    if s.procs[r].pc.ExitInitWake? || s.procs[r].pc.ExitParentWake? { OwnShapeWake(s, c, r); }
  }

  lemma OwnShapeWake(s: State, c: nat, r: nat)
    requires ThreadOk(s, c, r) && (s.procs[r].pc.ExitInitWake? || s.procs[r].pc.ExitParentWake?)
    ensures StaysOn(s, c, r, ThreadStep(s, c, r).procs[r])
  {
  }

  lemma OwnShapeLocked(s: State, c: nat, r: nat)
    requires ThreadOk(s, c, r) && SelfLocked(s.procs[r].pc) && !HoldsWait(s.procs[r].pc)
    ensures StaysOn(s, c, r, ThreadStep(s, c, r).procs[r])
  {
  }

  ghost predicate Reaps(s: State, r: nat)
    requires r < |s.procs|
  {
    && s.procs[r].pc.WaitScan? && s.procs[r].pc.i < |s.procs|
    && s.procs[s.procs[r].pc.i].parent == Some(r) && s.procs[s.procs[r].pc.i].state == ZOMBIE
  }

  lemma ThreadKeeps(s: State, c: nat, r: nat)
    requires SchedInv(s) && Executes(s, c, r) && GoEnabled(s, r)
    ensures SchedInv(ThreadStep(s, c, r))
  {
    var pc := s.procs[r].pc;
    if pc.Switch? {
      SwitchKeeps(s, c, r);
    } else if pc.ForkHold? {
      ForkChildKeeps(s, c, r, s.procs[pc.np].(lock := None), ForkParent(pc.np));
    } else if pc.ForkReady? {
      ForkChildKeeps(s, c, r, s.procs[pc.np].(state := RUNNABLE, pc := Back(Run)), Run);
    } else if Reaps(s, r) {
      ReapKeeps(s, c, r);
    } else {
      MoveKeeps(s, c, r);
    }
  }

  lemma MoveKeeps(s: State, c: nat, r: nat)
    requires SchedInv(s) && Executes(s, c, r) && GoEnabled(s, r)
    requires !s.procs[r].pc.Switch? && !s.procs[r].pc.ForkHold? && !s.procs[r].pc.ForkReady? && !Reaps(s, r)
    ensures SchedInv(ThreadStep(s, c, r))
  {
    var q := Target(s, r);
    var x := ThreadStep(s, c, r).procs[r];
    assert CpuOk(s.cpus, s.procs, c) && ProcOk(s.cpus, s.procs, r) && ForkOk(s.procs, r);
    OwnShape(s, c, r);
    if q != r && q < |s.procs| {
      TargetKept(s, c, r);
      var y := ThreadStep(s, c, r).procs[q];
      OtherKeeps(s, c, r, q, y);
      OwnKeeps(PutProc(s, q, y), c, r, x);
    } else {
      OwnStep(s, c, r);
      OwnKeeps(s, c, r, x);
    }
  }

  /** wait() frees a zombie that has left its CPU. */
  lemma ReapKeeps(s: State, c: nat, r: nat)
    requires SchedInv(s) && Executes(s, c, r) && GoEnabled(s, r)
    requires Reaps(s, r)
    ensures SchedInv(ThreadStep(s, c, r))
  {
    var i := s.procs[r].pc.i;
    var x := Freed(s.procs[i]);
    assert CpuOk(s.cpus, s.procs, c) && ProcOk(s.cpus, s.procs, r) && ProcOk(s.cpus, s.procs, i);
    OnCpuWhileFree(s, i);
    assert s.cpus[c := s.cpus[c]] == s.cpus;
    FrameKeeps(s.cpus, s.procs, c, s.cpus[c], i, x);
    OwnKeeps(PutProc(s, i, x), c, r, s.procs[r].(pc := Run));
  }

  /** Every step of every CPU keeps the scheduler's invariant. */
  lemma StepKeeps(s: State, c: nat, a: Action)
    requires SchedInv(s) && Enabled(s, c, a)
    ensures SchedInv(After(s, c, a))
  {
    if a.Pick? {
      PickKeeps(s, c, a.p);
    } else if !s.cpus[c].pc.Exec? {
      SchedStepKeeps(s, c);
    } else if a.Go? {
      ThreadKeeps(s, c, s.cpus[c].proc.value);
    } else {
      CallKeeps(s, c, s.cpus[c].proc.value, a);
    }
  }

  /** While p->lock is free, a RUNNING process is current on exactly one CPU, and a
      process in any other state is current on none. */
  lemma CurrentOnOneCpu(s: State, p: nat)
    requires SchedInv(s) && p < |s.procs| && s.procs[p].lock == None
    ensures s.procs[p].state == RUNNING ==>
      exists c :: 0 <= c < |s.cpus| && s.cpus[c] == Cpu(Some(p), Exec)
                  && forall d :: 0 <= d < |s.cpus| && s.cpus[d].proc == Some(p) ==> d == c
    ensures s.procs[p].state != RUNNING ==> forall d :: 0 <= d < |s.cpus| ==> s.cpus[d].proc != Some(p)
  {
    assert ProcOk(s.cpus, s.procs, p);
    forall d | 0 <= d < |s.cpus| && s.cpus[d].proc == Some(p)
      ensures s.procs[p].on == Some(d) && s.cpus[d].pc == Exec && s.procs[p].state == RUNNING
    {
      assert CpuOk(s.cpus, s.procs, d);
    }
    if s.procs[p].state == RUNNING {
      var c := s.procs[p].on.value;
      assert CpuOk(s.cpus, s.procs, c);
      assert s.cpus[c] == Cpu(Some(p), Exec);
    }
  }

  /** A process about to switch away holds its own lock and has left RUNNING. */
  lemma SwitchHolds(s: State, c: nat, r: nat)
    requires SchedInv(s) && Executes(s, c, r) && s.procs[r].pc.Switch?
    ensures s.procs[r].lock == Some(c) && s.procs[r].state != RUNNING
  {
    assert CpuOk(s.cpus, s.procs, c) && ProcOk(s.cpus, s.procs, r);
  }
}
