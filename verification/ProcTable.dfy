/**
  The process table and scheduler of kernel/proc.c as a state machine over any number
  of CPUs and process slots.

  An action is one step of one CPU.  Locks that are held across a context switch, or
  while another lock is taken, are acquired and released in separate steps; a critical
  section on a single p->lock that neither switches nor takes another lock is one step,
  possible only while that lock is free.  A timer interrupt may preempt a process
  wherever it holds no spinlock.
 */
module ProcTable {

  datatype Option<T> = None | Some(value: T)

  datatype PState = UNUSED | USED | SLEEPING | RUNNABLE | RUNNING | ZOMBIE

  datatype Chan = OfProc(p: nat) | Other(k: int)

  /** Where a process's kernel thread is. */
  datatype Pc =
    | Fresh                         // no thread: an UNUSED or USED slot
    | Run                           // user or kernel code holding no spinlock
    | Yield(next: Pc)               // yield(): own lock held
    | Sleep(chan: Chan)             // sleep(): own lock held
    | Switch(next: Pc)              // sched(): own lock held, state changed
    | Back(next: Pc)                // switched out; or resumed and own lock still held
    | Wake(chan: Chan, i: nat)      // wakeup() loop
    | ForkHold(np: nat)             // fork(): child's lock held
    | ForkParent(np: nat)           // fork(): about to set the child's parent
    | ForkReady(np: nat)            // fork(): about to make the child RUNNABLE
    | ExitReparent(i: nat)          // exit(): reparent() loop
    | ExitInitWake(i: nat, j: nat)  // exit(): wakeup(initproc) inside reparent()
    | ExitParentWake(j: nat)        // exit(): wakeup(p->parent)
    | ExitLock                      // exit(): own lock taken
    | ExitUnlock                    // exit(): ZOMBIE, about to release wait_lock
    | Dead                          // exit(): switched out for ever
    | WaitScan(i: nat, kids: bool)  // wait(): scanning the table
    | WaitDecided                   // wait(): children, none exited, not killed
    | WaitSleep                     // wait(): own lock taken, about to release wait_lock
    | WaitUnlocked                  // wait(): wait_lock released, about to sleep
    | WaitAgain                     // wait(): woken, about to take wait_lock again

  datatype Proc = Proc(
    state: PState, chan: Option<Chan>, parent: Option<nat>, killed: bool,
    lock: Option<nat>,              // the CPU holding p->lock
    pc: Pc,
    on: Option<nat>,                // auxiliary: the CPU that picked this process
    forker: Option<nat>,            // auxiliary: the process setting up this slot
    gen: nat                        // auxiliary: how often the slot was allocated
  )

  datatype CpuPc =
    | Scan | Got(p: nat) | Chosen(p: nat) | Set(p: nat)  // scheduler(), before swtch
    | Exec                                               // running c->proc's thread
    | Returned(p: nat) | Release(p: nat)                 // scheduler(), after swtch

  datatype Cpu = Cpu(proc: Option<nat>, pc: CpuPc)

  datatype State = State(
    cpus: seq<Cpu>, procs: seq<Proc>,
    waitLock: Option<nat>,          // the process holding wait_lock
    init: nat,
    exited: set<(nat, nat)>,        // auxiliary: (slot, generation) pairs that exited
    reaped: seq<(nat, nat)>         // auxiliary: pairs freed by wait(), in order
  )

  datatype Action =
    | Pick(p: nat)            // scheduler: acquire p->lock
    | Go                      // the next step of whatever the CPU is executing
    | Preempt
    | CallSleep(chan: Chan) | CallWakeup(chan: Chan) | CallKill(q: nat)
    | CallFork(np: nat) | ForkFails
    | CallExit | CallWait | CopyoutFails

  // ----- classifying program points

  predicate HoldsWait(pc: Pc) {
    pc.ExitReparent? || pc.ExitInitWake? || pc.ExitParentWake? || pc.ExitLock? || pc.ExitUnlock?
    || pc.WaitScan? || pc.WaitDecided? || pc.WaitSleep?
  }

  /** Holds its own p->lock while on a CPU. */
  predicate SelfLocked(pc: Pc) {
    pc.Yield? || pc.Sleep? || pc.Switch? || pc.Back? || pc.ExitLock? || pc.ExitUnlock?
    || pc.WaitSleep? || pc.WaitUnlocked?
  }

  /** Holds no spinlock, so interrupts are on. */
  predicate Preemptible(pc: Pc) {
    pc.Run? || pc.Wake? || pc.ForkParent? || pc.ForkReady? || pc.WaitAgain?
  }

  /** Where the thread will be once it holds no lock of its own. */
  function Cont(pc: Pc): Pc {
    if pc.Yield? || pc.Switch? || pc.Back? then pc.next else pc
  }

  // ----- small updates

  function PutProc(s: State, p: nat, r: Proc): State
    requires p < |s.procs|
  {
    s.(procs := s.procs[p := r])
  }

  function PutCpu(s: State, c: nat, u: Cpu): State
    requires c < |s.cpus|
  {
    s.(cpus := s.cpus[c := u])
  }

  function At(s: State, p: nat, pc: Pc): State
    requires p < |s.procs|
  {
    PutProc(s, p, s.procs[p].(pc := pc))
  }

  /** One iteration of wakeup(ch): slot i becomes RUNNABLE if it sleeps on ch. */
  function Woken(s: State, i: nat, ch: Option<Chan>): State
    requires i < |s.procs|
  {
    if s.procs[i].state == SLEEPING && ch.Some? && s.procs[i].chan == ch
    then PutProc(s, i, s.procs[i].(state := RUNNABLE)) else s
  }

  function ParentChan(s: State, r: nat): Option<Chan>
    requires r < |s.procs|
  {
    if s.procs[r].parent.Some? then Some(OfProc(s.procs[r].parent.value)) else None
  }

  function Freed(r: Proc): Proc {
    Proc(UNUSED, None, None, false, None, Fresh, None, None, r.gen)
  }

  // ----- the machine

  ghost predicate Wf(s: State) {
    s.init < |s.procs| && TableWf(s.cpus, s.procs)
  }

  ghost predicate TableWf(cs: seq<Cpu>, ps: seq<Proc>) {
    && (forall c :: 0 <= c < |cs| ==> CpuWf(|ps|, cs[c]))
    && (forall p :: 0 <= p < |ps| ==> PcWf(|ps|, ps[p].pc))
  }

  predicate CpuWf(n: nat, u: Cpu) {
    && (u.proc.Some? ==> u.proc.value < n)
    && (u.pc.Exec? ==> u.proc.Some?)
    && (!u.pc.Scan? && !u.pc.Exec? ==> u.pc.p < n)
  }

  predicate PcWf(n: nat, pc: Pc) {
    && IndexWf(n, Cont(pc))
    && (pc.Yield? || pc.Switch? || pc.Back? ==> Preemptible(pc.next))
  }

  predicate IndexWf(n: nat, pc: Pc) {
    match pc
    case Wake(_, i) => i <= n
    case ForkHold(np) => np < n
    case ForkParent(np) => np < n
    case ForkReady(np) => np < n
    case ExitReparent(i) => i <= n
    case ExitInitWake(i, j) => i < n && j <= n
    case ExitParentWake(j) => j <= n
    case WaitScan(i, _) => i <= n
    case _ => true
  }

  predicate Free(s: State, p: nat) {
    p < |s.procs| && s.procs[p].lock.None?
  }

  ghost predicate Enabled(s: State, c: nat, a: Action) {
    && Wf(s) && c < |s.cpus|
    && var cpu := s.cpus[c];
    && (a.Pick? ==> cpu.pc.Scan? && Free(s, a.p))
    && (a.Go? && !cpu.pc.Exec? ==> !cpu.pc.Scan?)
    && (!a.Pick? && !(a.Go? && !cpu.pc.Exec?) ==> cpu.pc.Exec? && ThreadEnabled(s, cpu.proc.value, a))
  }

  ghost predicate ThreadEnabled(s: State, r: nat, a: Action)
    requires Wf(s) && r < |s.procs| && !a.Pick?
  {
    var me := s.procs[r];
    match a
    case Preempt => Preemptible(me.pc) && me.lock.None?
    case CallSleep(_) => me.pc.Run? && me.lock.None?
    case CallWakeup(_) => me.pc.Run?
    case CallKill(q) => me.pc.Run? && Free(s, q)
    case CallFork(np) => me.pc.Run? && Free(s, np) && s.procs[np].state == UNUSED
    case ForkFails => me.pc.ForkHold?
    case CallExit => me.pc.Run? && s.waitLock.None? && r != s.init
    case CallWait => me.pc.Run? && s.waitLock.None?
    case CopyoutFails =>
      me.pc.WaitScan? && me.pc.i < |s.procs| && s.procs[me.pc.i].parent == Some(r) && Free(s, me.pc.i)
      && s.procs[me.pc.i].state == ZOMBIE
    case Go => GoEnabled(s, r)
  }

  ghost predicate GoEnabled(s: State, r: nat)
    requires Wf(s) && r < |s.procs|
  {
    var n := |s.procs|;
    match s.procs[r].pc
    case Fresh => false
    case Run => false
    case Dead => false
    case Wake(_, i) => i == n || i == r || Free(s, i)
    case ForkParent(_) => s.waitLock.None?
    case ForkReady(np) => Free(s, np)
    case ExitInitWake(_, j) => j == n || j == r || Free(s, j)
    case ExitParentWake(j) => if j == n then Free(s, r) else j == r || Free(s, j)
    case WaitScan(i, _) =>
      if i == n then Free(s, r) else s.procs[i].parent == Some(r) ==> Free(s, i)
    case WaitDecided => Free(s, r)
    case WaitAgain => s.waitLock.None?
    case _ => true
  }

  ghost function After(s: State, c: nat, a: Action): State
    requires Enabled(s, c, a)
  {
    var cpu := s.cpus[c];
    if a.Pick? then
      PutCpu(PutProc(s, a.p, s.procs[a.p].(lock := Some(c))), c, cpu.(pc := Got(a.p)))
    else if !cpu.pc.Exec? then SchedStep(s, c)
    else if a.Go? then ThreadStep(s, c, cpu.proc.value)
    else CallStep(s, c, cpu.proc.value, a)
  }

  /** The scheduler's own steps. */
  ghost function SchedStep(s: State, c: nat): State
    requires Wf(s) && c < |s.cpus| && !s.cpus[c].pc.Exec? && !s.cpus[c].pc.Scan?
  {
    var cpu := s.cpus[c];
    var p := cpu.pc.p;
    match cpu.pc
    case Got(_) =>
      if s.procs[p].state == RUNNABLE
      then PutCpu(PutProc(s, p, s.procs[p].(state := RUNNING, on := Some(c))), c, cpu.(pc := Chosen(p)))
      else PutCpu(s, c, cpu.(pc := Release(p)))
    case Chosen(_) => PutCpu(s, c, Cpu(Some(p), Set(p)))
    case Set(_) => PutCpu(s, c, cpu.(pc := Exec))
    case Returned(_) => PutCpu(PutProc(s, p, s.procs[p].(on := None)), c, Cpu(None, Release(p)))
    case Release(_) => PutCpu(PutProc(s, p, s.procs[p].(lock := None)), c, cpu.(pc := Scan))
  }

  /** Entry points of the calls a running process can make. */
  ghost function CallStep(s: State, c: nat, r: nat, a: Action): State
    requires Wf(s) && r < |s.procs| && !a.Pick? && !a.Go? && ThreadEnabled(s, r, a)
  {
    var me := s.procs[r];
    match a
    case Preempt => PutProc(s, r, me.(lock := Some(c), pc := Yield(me.pc)))
    case CallSleep(ch) => PutProc(s, r, me.(lock := Some(c), pc := Sleep(ch)))
    case CallWakeup(ch) => At(s, r, Wake(ch, 0))
    case CallKill(q) =>
      var v := s.procs[q];
      PutProc(s, q, v.(killed := true, state := if v.state == SLEEPING then RUNNABLE else v.state))
    case CallFork(np) =>
      At(PutProc(s, np, s.procs[np].(state := USED, lock := Some(c), forker := Some(r), gen := s.procs[np].gen + 1)), r,
        ForkHold(np))
    case ForkFails => At(PutProc(s, me.pc.np, Freed(s.procs[me.pc.np])), r, Run)
    case CallExit => At(s, r, ExitReparent(0)).(waitLock := Some(r))
    case CallWait => At(s, r, WaitScan(0, false)).(waitLock := Some(r))
    case CopyoutFails => At(s, r, Run).(waitLock := None)
  }

  /** The deterministic steps of a process's kernel thread. */
  ghost function ThreadStep(s: State, c: nat, r: nat): State
    requires Wf(s) && c < |s.cpus| && r < |s.procs| && GoEnabled(s, r)
  {
    var me := s.procs[r];
    var n := |s.procs|;
    match me.pc
    case Yield(next) => PutProc(s, r, me.(state := RUNNABLE, pc := Switch(next)))
    case Sleep(ch) => PutProc(s, r, me.(state := SLEEPING, chan := Some(ch), pc := Switch(Run)))
    case Switch(next) =>
      PutCpu(At(s, r, if me.state == ZOMBIE then Dead else Back(next)), c, s.cpus[c].(pc := Returned(r)))
    case Back(next) => PutProc(s, r, me.(chan := None, lock := None, pc := next))
    case Wake(ch, i) =>
      if i == n then At(s, r, Run)
      else At(if i == r then s else Woken(s, i, Some(ch)), r, Wake(ch, i + 1))
    case ForkHold(np) => At(PutProc(s, np, s.procs[np].(lock := None)), r, ForkParent(np))
    case ForkParent(np) => At(PutProc(s, np, s.procs[np].(parent := Some(r))), r, ForkReady(np))
    case ForkReady(np) => At(PutProc(s, np, s.procs[np].(state := RUNNABLE, pc := Back(Run))), r, Run)
    case ExitReparent(i) =>
      if i == n then At(s, r, ExitParentWake(0))
      else if s.procs[i].parent == Some(r)
      then At(PutProc(s, i, s.procs[i].(parent := Some(s.init))), r, ExitInitWake(i, 0))
      else At(s, r, ExitReparent(i + 1))
    case ExitInitWake(i, j) =>
      if j == n then At(s, r, ExitReparent(i + 1))
      else At(if j == r then s else Woken(s, j, Some(OfProc(s.init))), r, ExitInitWake(i, j + 1))
    case ExitParentWake(j) =>
      if j == n then PutProc(s, r, me.(lock := Some(c), pc := ExitLock))
      else At(if j == r then s else Woken(s, j, ParentChan(s, r)), r, ExitParentWake(j + 1))
    case ExitLock => PutProc(s, r, me.(state := ZOMBIE, pc := ExitUnlock)).(exited := s.exited + {(r, me.gen)})
    case ExitUnlock => At(s, r, Switch(Run)).(waitLock := None)
    case WaitScan(i, kids) =>
      if i == n then
        if !kids || me.killed then At(s, r, Run).(waitLock := None) else At(s, r, WaitDecided)
      else if s.procs[i].parent != Some(r) then At(s, r, WaitScan(i + 1, kids))
      else if s.procs[i].state == ZOMBIE then
        At(PutProc(s, i, Freed(s.procs[i])), r, Run).(waitLock := None, reaped := s.reaped + [(i, s.procs[i].gen)])
      else At(s, r, WaitScan(i + 1, true))
    case WaitDecided => PutProc(s, r, me.(lock := Some(c), pc := WaitSleep))
    case WaitSleep => At(s, r, WaitUnlocked).(waitLock := None)
    case WaitUnlocked => PutProc(s, r, me.(state := SLEEPING, chan := Some(OfProc(r)), pc := Switch(WaitAgain)))
    case WaitAgain => At(s, r, WaitScan(0, false)).(waitLock := Some(r))
  }
}
