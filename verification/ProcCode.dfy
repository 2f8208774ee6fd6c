/**
  wakeup(), exit() and wait() of kernel/proc.c as code, run by one CPU while no other CPU
  holds a lock.  Every step is recorded in a ghost run, and every method keeps that run an
  interleaving of ProcTable, so the theorems about interleavings hold before and after.
 */
module ProcCode {
  import opened ProcTable
  import opened Scheduler
  import opened ExitWait

  /** What wakeup(ch) makes of one slot. */
  function Roused(x: Proc, ch: Option<Chan>): Proc {
    if x.state == SLEEPING && ch.Some? && x.chan == ch then x.(state := RUNNABLE) else x
  }

  /** The first i slots, except r's own, are roused. */
  function RousedUpTo(ps: seq<Proc>, r: nat, ch: Option<Chan>, i: nat): (qs: seq<Proc>)
    requires i <= |ps|
    ensures |qs| == |ps|
  {
    if i == 0 then ps
    else
      var qs := RousedUpTo(ps, r, ch, i - 1);
      if i - 1 == r then qs else qs[i - 1 := Roused(qs[i - 1], ch)]
  }

  lemma {:induction false} RousedAt(ps: seq<Proc>, r: nat, ch: Option<Chan>, i: nat, j: nat)
    requires i <= |ps| && j < |ps|
    ensures RousedUpTo(ps, r, ch, i)[j] == if j < i && j != r then Roused(ps[j], ch) else ps[j]
    decreases i
  {
    if i > 0 { RousedAt(ps, r, ch, i - 1, j); }
  }

  /** Interleaving, in layers, so that code need not see inside it. */
  ghost predicate Sound(run: Run)
    decreases run, 2
  {
    Checked(run)
  }

  ghost predicate Checked(run: Run)
    decreases run, 1
  {
    Known(run)
  }

  ghost predicate Known(run: Run)
    decreases run, 0
  {
    Interleaving(run) && (run.More? ==> Sound(run.prev))
  }

  lemma {:induction false} SoundIs(run: Run)
    ensures Sound(run) <==> Interleaving(run)
  {
    assert Sound(run) <==> Checked(run);
    assert Checked(run) <==> Known(run);
    if run.More? { SoundIs(run.prev); }
  }

  class Kernel {
    var cpus: seq<Cpu>
    var procs: seq<Proc>
    var waitLock: Option<nat>
    const init: nat
    ghost var exited: set<(nat, nat)>
    ghost var reaped: seq<(nat, nat)>
    ghost var run: Run

    ghost function Now(): State
      reads this
    {
      State(cpus, procs, waitLock, init, exited, reaped)
    }

    ghost predicate Valid()
      reads this
    {
      Sound(run) && run.s == Now()
    }

    /** CPU c is executing process r, which is at pc. */
    ghost predicate Running(c: nat, r: nat, pc: Pc)
      reads this
    {
      c < |cpus| && cpus[c] == Cpu(Some(r), Exec) && r < |procs| && procs[r].pc == pc
    }

    /** One more step of CPU c, which has led to the present state. */
    ghost method Record(c: nat, a: Action, before: State)
      requires Sound(run) && run.s == before && Enabled(before, c, a) && Now() == After(before, c, a)
      modifies this`run
      ensures Valid()
    {
      SoundIs(run);
      run := More(run, c, a, Now());
      SoundIs(run);
    }

    lemma Formed()
      requires Valid()
      ensures Wf(Now())
    {
      SoundIs(run);
      RunKeepsInv(run);
    }

    /** One iteration of a wakeup() loop. */
    method WakeSlot(c: nat, r: nat, loop: Loop, i: nat)
      requires Valid() && Running(c, r, PcOf(loop, i)) && i < |procs| && (i != r ==> procs[i].lock == None)
      modifies this`procs, this`run
      ensures Valid()
      ensures procs ==
        (if i == r then old(procs) else old(procs)[i := Roused(old(procs)[i], old(ChanOf(loop, Now(), r)))])
        [r := old(procs)[r].(pc := PcOf(loop, i + 1))]
    {
      ghost var before := Now();
      Formed();
      WakeStepIs(before, c, r, loop, i);
      var ch := match loop
        case Plain(k) => Some(k)
        case ForInit(_) => Some(OfProc(init))
        case ForParent => if procs[r].parent.Some? then Some(OfProc(procs[r].parent.value)) else None;
      if i != r {
        if ch.Some? && procs[i].state == SLEEPING && procs[i].chan == ch {
          procs := procs[i := procs[i].(state := RUNNABLE)];
        }
      }
      procs := procs[r := procs[r].(pc := PcOf(loop, i + 1))];
      Record(c, Go, before);
    }

    /** A whole wakeup() loop. */
    method WakeAll(c: nat, r: nat, loop: Loop)
      requires Valid() && Running(c, r, PcOf(loop, 0)) && QuietBut(procs, r)
      modifies this`procs, this`run
      ensures Valid() && |procs| == |old(procs)|
      ensures procs ==
        RousedUpTo(old(procs), r, old(ChanOf(loop, Now(), r)), |procs|)[r := old(procs)[r].(pc := PcOf(loop, |procs|))]
    {
      ghost var ps, ch := procs, ChanOf(loop, Now(), r);
      var i := 0;
      while i < |procs|
        invariant 0 <= i <= |procs| == |ps| && Valid() && cpus == old(cpus) && r < |procs|
        invariant procs == RousedUpTo(ps, r, ch, i)[r := ps[r].(pc := PcOf(loop, i))]
      {
        RousedAt(ps, r, ch, i, i);
        WakeSlot(c, r, loop, i);
        RousedNext(ps, r, ch, i, ps[r].(pc := PcOf(loop, i)), ps[r].(pc := PcOf(loop, i + 1)));
        i := i + 1;
      }
    }

    /** wakeup(ch), called by process r. */
    method Wakeup(c: nat, r: nat, ch: Chan)
      requires Valid() && Running(c, r, Pc.Run) && QuietBut(procs, r)
      modifies this`procs, this`run
      ensures Valid() && Running(c, r, Pc.Run) && |procs| == |old(procs)|
      ensures forall j :: 0 <= j < |procs| ==>
        procs[j] == if j == r then old(procs)[j] else Roused(old(procs)[j], Some(ch))
    {
      ghost var before := Now();
      Formed();
      procs := procs[r := procs[r].(pc := Wake(ch, 0))];
      Record(c, CallWakeup(ch), before);
      ghost var ps := procs;
      WakeAll(c, r, Plain(ch));
      MoveOn(c, r, Pc.Run);
      forall j | 0 <= j < |procs| && j != r ensures procs[j] == Roused(ps[j], Some(ch)) {
        RousedAt(ps, r, Some(ch), |ps|, j);
      }
    }

    /** One iteration of reparent(): a child of r goes to init, which is woken. */
    method ReparentSlot(c: nat, r: nat, i: nat)
      requires Valid() && Running(c, r, ExitReparent(i)) && i < |procs| && i != r && QuietBut(procs, r)
      modifies this`procs, this`run
      ensures Valid() && |procs| == |old(procs)| && procs[r] == old(procs)[r].(pc := ExitReparent(i + 1))
      ensures forall j :: 0 <= j < |procs| && j != r ==>
        procs[j] == HandedOn(old(procs)[j], r, init, j == i, old(procs)[i].parent == Some(r))
    {
      if procs[i].parent == Some(r) {
        Adopt(c, r, i);
        ghost var ps := procs;
        WakeAll(c, r, ForInit(i));
        MoveOn(c, r, ExitReparent(i + 1));
        Adopted(old(procs), ps, procs, r, init, i);
      } else {
        MoveOn(c, r, ExitReparent(i + 1));
      }
    }

    /** reparent() hands a child to init. */
    method Adopt(c: nat, r: nat, i: nat)
      requires Valid() && Running(c, r, ExitReparent(i)) && i < |procs| && i != r && procs[i].parent == Some(r)
      modifies this`procs, this`run
      ensures Valid()
      ensures procs
        == old(procs)[i := old(procs)[i].(parent := Some(init))][r := old(procs)[r].(pc := ExitInitWake(i, 0))]
    {
      ghost var before := Now();
      Formed();
      procs := procs[i := procs[i].(parent := Some(init))];
      procs := procs[r := procs[r].(pc := ExitInitWake(i, 0))];
      Record(c, Go, before);
    }

    /** A step that only moves r from one point of a loop to the next. */
    method MoveOn(c: nat, r: nat, next: Pc)
      requires Valid() && c < |cpus| && cpus[c] == Cpu(Some(r), Exec) && r < |procs| && Moves(Now(), r, next)
      modifies this`procs, this`run
      ensures Valid() && procs == old(procs)[r := old(procs)[r].(pc := next)]
    {
      ghost var before := Now();
      Formed();
      procs := procs[r := procs[r].(pc := next)];
      Record(c, Go, before);
    }

    /** reparent(r), with wait_lock held. */
    method Reparent(c: nat, r: nat)
      requires Valid() && Running(c, r, ExitReparent(0)) && QuietBut(procs, r)
      modifies this`procs, this`run
      ensures Valid() && |procs| == |old(procs)| && procs[r] == old(procs)[r].(pc := ExitReparent(|procs|))
      ensures forall j :: 0 <= j < |procs| && j != r ==>
        procs[j] == HandedOn(old(procs)[j], r, init, true, HasKid(old(procs), r, |procs|))
    {
      var i := 0;
      while i < |procs|
        invariant 0 <= i <= |procs| == |old(procs)| && Valid() && cpus == old(cpus) && QuietBut(procs, r)
        invariant procs[r] == old(procs)[r].(pc := ExitReparent(i))
        invariant forall j :: 0 <= j < |procs| && j != r ==>
          procs[j] == HandedOn(old(procs)[j], r, init, j < i, HasKid(old(procs), r, i))
      {
        if i == r {
          SkipSelf(c, r);
        } else {
          ReparentSlot(c, r, i);
        }
        i := i + 1;
      }
    }

    /** r is not its own parent. */
    method SkipSelf(c: nat, r: nat)
      requires Valid() && Running(c, r, ExitReparent(r))
      modifies this`procs, this`run
      ensures Valid() && procs == old(procs)[r := old(procs)[r].(pc := ExitReparent(r + 1))]
        && old(procs)[r].parent != Some(r)
    {
      NotOwnParent(run, r);
      MoveOn(c, r, ExitReparent(r + 1));
    }

    /** exit() of process r, up to the switch to the scheduler: its children have init as
        parent, a parent or init that slept in wait() is awake, and r is a zombie. */
    method Exit(c: nat, r: nat) returns (panicked: bool)
      requires Valid() && Running(c, r, Pc.Run) && QuietBut(procs, r) && procs[r].lock == None && waitLock == None
      modifies this
      ensures panicked <==> r == init
      ensures !panicked ==>
        Valid() && |procs| == |old(procs)| && waitLock == None && cpus == old(cpus)[c := Cpu(Some(r), Returned(r))]
      ensures !panicked ==>
        procs[r] == old(procs)[r].(state := ZOMBIE, lock := Some(c), pc := Dead)
        && exited == old(exited) + {(r, procs[r].gen)}
      ensures !panicked ==> reaped == old(reaped) && forall j :: 0 <= j < |procs| && j != r ==>
        procs[j] == Roused(HandedOn(old(procs)[j], r, init, true, HasKid(old(procs), r, |procs|)),
          old(ParentChan(Now(), r)))
    {
      if r == init {
        return true;
      }
      StartExit(c, r);
      KidsSame(old(procs), procs, r, |procs|);
      Reparent(c, r);
      LeaveFamily(c, r);
      return false;
    }

    /** The part of exit() after reparent(): its parent is woken, and r becomes a zombie. */
    method LeaveFamily(c: nat, r: nat)
      requires Valid() && Running(c, r, ExitReparent(|procs|)) && QuietBut(procs, r) && procs[r].lock == None
        && waitLock == Some(r)
      modifies this
      ensures Valid() && |procs| == |old(procs)| && waitLock == None
        && cpus == old(cpus)[c := Cpu(Some(r), Returned(r))] && reaped == old(reaped)
      ensures procs[r] == old(procs)[r].(state := ZOMBIE, lock := Some(c), pc := Dead)
        && exited == old(exited) + {(r, procs[r].gen)}
      ensures forall j :: 0 <= j < |procs| && j != r ==> procs[j] == Roused(old(procs)[j], old(ParentChan(Now(), r)))
    {
      MoveOn(c, r, ExitParentWake(0));
      ghost var ps, ch := procs, ParentChan(Now(), r);
      WakeAll(c, r, ForParent);
      FinishExit(c, r);
      forall j | 0 <= j < |procs| && j != r ensures procs[j] == Roused(ps[j], ch) {
        RousedAt(ps, r, ch, |ps|, j);
      }
    }

    /** exit() takes wait_lock. */
    method StartExit(c: nat, r: nat)
      requires Valid() && Running(c, r, Pc.Run) && waitLock == None && r != init
      modifies this`procs, this`waitLock, this`run
      ensures Valid() && waitLock == Some(r) && procs == old(procs)[r := old(procs)[r].(pc := ExitReparent(0))]
    {
      ghost var before := Now();
      Formed();
      waitLock := Some(r);
      procs := procs[r := procs[r].(pc := ExitReparent(0))];
      Record(c, CallExit, before);
    }

    /** exit() takes its own lock, becomes a zombie, releases wait_lock and switches away. */
    method FinishExit(c: nat, r: nat)
      requires Valid() && Running(c, r, ExitParentWake(|procs|)) && procs[r].lock == None && waitLock == Some(r)
      modifies this
      ensures Valid() && waitLock == None && cpus == old(cpus)[c := Cpu(Some(r), Returned(r))] && reaped == old(reaped)
      ensures procs == old(procs)[r := old(procs)[r].(state := ZOMBIE, lock := Some(c), pc := Dead)]
        && exited == old(exited) + {(r, old(procs)[r].gen)}
    {
      ghost var before := Now();
      Formed();
      procs := procs[r := procs[r].(lock := Some(c), pc := ExitLock)];
      Record(c, Go, before);
      BecomeZombie(c, r);
      SwitchAway(c, r);
    }

    /** The switch of a zombie to the scheduler, for ever. */
    method SwitchAway(c: nat, r: nat)
      requires Valid() && Running(c, r, Switch(Pc.Run)) && procs[r].state == ZOMBIE
      modifies this`procs, this`cpus, this`run
      ensures Valid() && cpus == old(cpus)[c := Cpu(Some(r), Returned(r))]
        && procs == old(procs)[r := old(procs)[r].(pc := Dead)]
    {
      ghost var before := Now();
      Formed();
      procs := procs[r := procs[r].(pc := Dead)];
      cpus := cpus[c := cpus[c].(pc := Returned(r))];
      Record(c, Go, before);
    }

    method BecomeZombie(c: nat, r: nat)
      requires Valid() && Running(c, r, ExitLock)
      modifies this`procs, this`waitLock, this`exited, this`run
      ensures Valid() && waitLock == None
        && procs == old(procs)[r := old(procs)[r].(state := ZOMBIE, pc := Switch(Pc.Run))]
      ensures exited == old(exited) + {(r, old(procs)[r].gen)}
    {
      ghost var before := Now();
      Formed();
      exited := exited + {(r, procs[r].gen)};
      procs := procs[r := procs[r].(state := ZOMBIE, pc := ExitUnlock)];
      Record(c, Go, before);
      before := Now();
      Formed();
      procs := procs[r := procs[r].(pc := Switch(Pc.Run))];
      waitLock := None;
      Record(c, Go, before);
    }

    /** wait() of process r, up to where it returns or goes to sleep: the first zombie child
        is reaped; without one, the call fails if there are no children or r was killed, and
        otherwise r sleeps on itself. */
    method Wait(c: nat, r: nat, copyOk: bool) returns (out: WaitResult)
      requires Valid() && Running(c, r, Pc.Run) && QuietBut(procs, r) && procs[r].lock == None && waitLock == None
      modifies this
      ensures Valid() && waitLock == None && exited == old(exited) && |procs| == |old(procs)|
      ensures var q := FirstZombie(old(procs), r, 0);
        out == if q < |procs| then (if copyOk then Reaped(q) else CopyFailed)
               else if !HasKid(old(procs), r, |procs|) || old(procs)[r].killed then NoneToWaitFor else Asleep
      ensures out.Reaped? ==>
        procs == old(procs)[out.q := Freed(old(procs)[out.q])]
        && reaped == old(reaped) + [(out.q, old(procs)[out.q].gen)]
      ensures !out.Reaped? ==> reaped == old(reaped)
      ensures out == CopyFailed || out == NoneToWaitFor ==> procs == old(procs)
      ensures out != Asleep ==> cpus == old(cpus)
      ensures out == Asleep ==> cpus == old(cpus)[c := Cpu(Some(r), Returned(r))]
      ensures out == Asleep ==>
        procs == old(procs)[r := old(procs)[r].(state := SLEEPING, chan := Some(OfProc(r)), lock := Some(c),
          pc := Back(WaitAgain))]
    {
      NotOwnParent(run, r);
      var q, kids := Scan(c, r);
      if q < |procs| {
        if !copyOk {
          StopWaiting(c, r, CopyoutFails);
          out := CopyFailed;
        } else {
          Reap(c, r, q, kids);
          out := Reaped(q);
        }
      } else if !kids || procs[r].killed {
        StopWaiting(c, r, Go);
        out := NoneToWaitFor;
      } else {
        FallAsleep(c, r);
        out := WaitResult.Asleep;
      }
    }

    /** wait() takes wait_lock and looks through the table. */
    method Scan(c: nat, r: nat) returns (i: nat, kids: bool)
      requires Valid() && Running(c, r, Pc.Run) && QuietBut(procs, r) && waitLock == None && procs[r].parent != Some(r)
      modifies this`procs, this`waitLock, this`run
      ensures Valid() && i == FirstZombie(old(procs), r, 0) && kids == HasKid(old(procs), r, i)
      ensures procs == old(procs)[r := old(procs)[r].(pc := WaitScan(i, kids))]
    {
      StartWait(c, r);
      i, kids := 0, false;
      while i < |procs| && !(procs[i].parent == Some(r) && procs[i].state == ZOMBIE)
        invariant 0 <= i <= |procs| == |old(procs)| && Valid() && r < |procs|
          && procs == old(procs)[r := old(procs)[r].(pc := WaitScan(i, kids))]
        invariant FirstZombie(old(procs), r, 0) == FirstZombie(old(procs), r, i) && kids == HasKid(old(procs), r, i)
      {
        ScanOn(c, r, i, kids);
        kids := kids || procs[i].parent == Some(r);
        i := i + 1;
      }
    }

    method StartWait(c: nat, r: nat)
      requires Valid() && Running(c, r, Pc.Run) && waitLock == None
      modifies this`procs, this`waitLock, this`run
      ensures Valid() && procs == old(procs)[r := old(procs)[r].(pc := WaitScan(0, false))]
    {
      ghost var before := Now();
      Formed();
      waitLock := Some(r);
      procs := procs[r := procs[r].(pc := WaitScan(0, false))];
      Record(c, CallWait, before);
    }

    /** wait() gives up and releases wait_lock. */
    method StopWaiting(c: nat, r: nat, ghost a: Action)
      requires Valid() && c < |cpus| && cpus[c] == Cpu(Some(r), Exec) && r < |procs| && procs[r].lock == None
        && Stops(Now(), r, a)
      modifies this`procs, this`waitLock, this`run
      ensures Valid() && waitLock == None && procs == old(procs)[r := old(procs)[r].(pc := Pc.Run)]
    {
      ghost var before := Now();
      Formed();
      procs := procs[r := procs[r].(pc := Pc.Run)];
      waitLock := None;
      Record(c, a, before);
    }

    /** freeproc() of the zombie child in slot i. */
    method Reap(c: nat, r: nat, i: nat, kids: bool)
      requires Valid() && Running(c, r, WaitScan(i, kids)) && i < |procs| && i != r && procs[i].lock == None
      requires procs[i].parent == Some(r) && procs[i].state == ZOMBIE
      modifies this`procs, this`waitLock, this`reaped, this`run
      ensures Valid() && waitLock == None && reaped == old(reaped) + [(i, old(procs)[i].gen)]
      ensures procs == old(procs)[i := Freed(old(procs)[i])][r := old(procs)[r].(pc := Pc.Run)]
    {
      ghost var before := Now();
      Formed();
      reaped := reaped + [(i, procs[i].gen)];
      procs := procs[i := Freed(procs[i])];
      procs := procs[r := procs[r].(pc := Pc.Run)];
      waitLock := None;
      Record(c, Go, before);
    }

    /** Slot i holds no zombie child. */
    method ScanOn(c: nat, r: nat, i: nat, kids: bool)
      requires Valid() && Running(c, r, WaitScan(i, kids)) && i < |procs|
        && (procs[i].parent == Some(r) ==> procs[i].lock == None && procs[i].state != ZOMBIE)
      modifies this`procs, this`run
      ensures Valid()
        && procs == old(procs)[r := old(procs)[r].(pc := WaitScan(i + 1, kids || old(procs)[i].parent == Some(r)))]
    {
      ghost var before := Now();
      Formed();
      procs := procs[r := procs[r].(pc := WaitScan(i + 1, kids || procs[i].parent == Some(r)))];
      Record(c, Go, before);
    }

    /** sleep(p, &wait_lock): own lock, release of wait_lock, and the switch. */
    method FallAsleep(c: nat, r: nat)
      requires Valid() && Running(c, r, WaitScan(|procs|, true)) && !procs[r].killed && procs[r].lock == None
      modifies this`procs, this`waitLock, this`cpus, this`run
      ensures Valid() && waitLock == None && cpus == old(cpus)[c := Cpu(Some(r), Returned(r))]
      ensures procs ==
        old(procs)[r := old(procs)[r].(state := SLEEPING, chan := Some(OfProc(r)), lock := Some(c),
          pc := Back(WaitAgain))]
    {
      LockAndRelease(c, r);
      ghost var before := Now();
      Formed();
      procs := procs[r := procs[r].(state := SLEEPING, chan := Some(OfProc(r)), pc := Switch(WaitAgain))];
      Record(c, Go, before);
      before := Now();
      Formed();
      procs := procs[r := procs[r].(pc := Back(WaitAgain))];
      cpus := cpus[c := cpus[c].(pc := Returned(r))];
      Record(c, Go, before);
    }

    /** wait() decides to sleep and takes its own lock. */
    method Decide(c: nat, r: nat)
      requires Valid() && Running(c, r, WaitScan(|procs|, true)) && !procs[r].killed && procs[r].lock == None
      modifies this`procs, this`run
      ensures Valid() && procs == old(procs)[r := old(procs)[r].(lock := Some(c), pc := WaitSleep)]
    {
      ghost var before := Now();
      Formed();
      procs := procs[r := procs[r].(pc := WaitDecided)];
      Record(c, Go, before);
      before := Now();
      Formed();
      procs := procs[r := procs[r].(lock := Some(c), pc := WaitSleep)];
      Record(c, Go, before);
    }

    method LockAndRelease(c: nat, r: nat)
      requires Valid() && Running(c, r, WaitScan(|procs|, true)) && !procs[r].killed && procs[r].lock == None
      modifies this`procs, this`waitLock, this`run
      ensures Valid() && waitLock == None
        && procs == old(procs)[r := old(procs)[r].(lock := Some(c), pc := WaitUnlocked)]
    {
      Decide(c, r);
      ghost var before := Now();
      Formed();
      procs := procs[r := procs[r].(pc := WaitUnlocked)];
      waitLock := None;
      Record(c, Go, before);
    }
  }

  datatype WaitResult = Reaped(q: nat) | CopyFailed | NoneToWaitFor | Asleep

  /** The first zombie child of r from slot i on; |ps| if there is none. */
  function FirstZombie(ps: seq<Proc>, r: nat, i: nat): (q: nat)
    requires i <= |ps|
    ensures i <= q <= |ps| && (q < |ps| ==> ps[q].parent == Some(r) && ps[q].state == ZOMBIE)
    ensures forall j :: i <= j < q ==> !(ps[j].parent == Some(r) && ps[j].state == ZOMBIE)
    decreases |ps| - i
  {
    if i == |ps| || (ps[i].parent == Some(r) && ps[i].state == ZOMBIE) then i else FirstZombie(ps, r, i + 1)
  }

  /** Where wait() returns without reaping. */
  ghost predicate Stops(s: State, r: nat, a: Action)
    requires r < |s.procs|
  {
    && s.procs[r].pc.WaitScan?
    && var i := s.procs[r].pc.i;
    && (a.Go? || a.CopyoutFails?)
    && (a.Go? ==> i == |s.procs| && (!s.procs[r].pc.kids || s.procs[r].killed))
    && (a.CopyoutFails? ==>
        i < |s.procs| && s.procs[i].parent == Some(r) && s.procs[i].lock == None && s.procs[i].state == ZOMBIE)
  }

  /** Where a loop goes on without changing anything. */
  ghost predicate Moves(s: State, r: nat, next: Pc)
    requires r < |s.procs|
  {
    match s.procs[r].pc
    case ExitReparent(i) => if i < |s.procs| then s.procs[i].parent != Some(r) && next == ExitReparent(i + 1)
      else next == ExitParentWake(0)
    case ExitInitWake(i, j) => j == |s.procs| && next == ExitReparent(i + 1)
    case Wake(_, j) => j == |s.procs| && next == Pc.Run
    case _ => false
  }

  lemma Adopted(ps: seq<Proc>, qs: seq<Proc>, rs: seq<Proc>, r: nat, init: nat, i: nat)
    requires |ps| == |qs| == |rs| && r < |ps| && i < |ps| && i != r && ps[i].parent == Some(r)
    requires qs == ps[i := ps[i].(parent := Some(init))][r := ps[r].(pc := ExitInitWake(i, 0))]
    requires rs == RousedUpTo(qs, r, Some(OfProc(init)), |qs|)[r := rs[r]]
    ensures forall j :: 0 <= j < |ps| && j != r ==> rs[j] == HandedOn(ps[j], r, init, j == i, true)
  {
    forall j | 0 <= j < |ps| && j != r ensures rs[j] == HandedOn(ps[j], r, init, j == i, true) {
      RousedAt(qs, r, Some(OfProc(init)), |qs|, j);
    }
  }

  lemma NotOwnParent(run: Run, r: nat)
    requires Sound(run) && r < |run.s.procs|
    ensures run.s.procs[r].parent != Some(r)
  {
    SoundIs(run);
    RunKeepsInv(run);
    assert PairOk(run.s, r, r);
  }

  /** Some slot below i is a child of r. */
  predicate HasKid(ps: seq<Proc>, r: nat, i: nat)
    requires i <= |ps|
  {
    i > 0 && (ps[i - 1].parent == Some(r) || HasKid(ps, r, i - 1))
  }

  lemma {:induction false} KidsSame(ps: seq<Proc>, qs: seq<Proc>, r: nat, i: nat)
    requires i <= |ps| == |qs| && forall j :: 0 <= j < |ps| ==> qs[j].parent == ps[j].parent
    ensures HasKid(qs, r, i) == HasKid(ps, r, i)
    decreases i
  {
    if i > 0 { KidsSame(ps, qs, r, i - 1); }
  }

  /** A slot after reparent(r): its parent is init if it was r (and its turn has come), and
      it is awake if it slept in wait() as init and a child has arrived. */
  function HandedOn(x: Proc, r: nat, init: nat, turn: bool, kids: bool): Proc {
    var y := if turn && x.parent == Some(r) then x.(parent := Some(init)) else x;
    if kids then Roused(y, Some(OfProc(init))) else y
  }

  /** The three places where wakeup() runs. */
  datatype Loop = Plain(ch: Chan) | ForInit(i: nat) | ForParent

  function PcOf(loop: Loop, j: nat): Pc {
    match loop
    case Plain(ch) => Wake(ch, j)
    case ForInit(i) => ExitInitWake(i, j)
    case ForParent => ExitParentWake(j)
  }

  function ChanOf(loop: Loop, s: State, r: nat): Option<Chan> {
    match loop
    case Plain(ch) => Some(ch)
    case ForInit(_) => Some(OfProc(s.init))
    case ForParent => if r < |s.procs| then ParentChan(s, r) else None
  }

  lemma WakeStepIs(s: State, c: nat, r: nat, loop: Loop, i: nat)
    requires Wf(s) && Executes(s, c, r) && s.procs[r].pc == PcOf(loop, i) && i < |s.procs|
      && (i != r ==> s.procs[i].lock == None)
    ensures Enabled(s, c, Go)
    ensures After(s, c, Go) == s.(procs :=
      (if i == r then s.procs else s.procs[i := Roused(s.procs[i], ChanOf(loop, s, r))])
      [r := s.procs[r].(pc := PcOf(loop, i + 1))])
  {
  }

  lemma RousedNext(ps: seq<Proc>, r: nat, ch: Option<Chan>, i: nat, y: Proc, z: Proc)
    requires i < |ps| && r < |ps|
    ensures var qs := RousedUpTo(ps, r, ch, i)[r := y];
      (if i == r then qs else qs[i := Roused(qs[i], ch)])[r := z] == RousedUpTo(ps, r, ch, i + 1)[r := z]
  {
  }

  /** No process lock is held, except maybe r's own. */
  ghost predicate QuietBut(ps: seq<Proc>, r: nat) {
    forall j :: 0 <= j < |ps| && j != r ==> ps[j].lock == None
  }
}
