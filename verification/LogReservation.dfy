/**
  Space reservation in kernel/log.c: begin_op admits an operation only when every
  outstanding operation could still add MAXOPBLOCKS blocks.
 */
module LogReservation {
  import opened RedoLog

  /** Sum over the outstanding operations of the blocks they may still add, when each
      may add k in all. */
  ghost function Unused(k: int, ops: map<nat, Op>): int
    decreases |ops|
  {
    if ops == map[] then 0
    else
      var p :| p in ops;
      k - ops[p].added + Unused(k, ops - {p})
  }

  lemma {:induction false} UnusedRemove(k: int, ops: map<nat, Op>, p: nat)
    requires p in ops
    ensures Unused(k, ops) == k - ops[p].added + Unused(k, ops - {p})
    decreases |ops|
  {
    var q :| q in ops && Unused(k, ops) == k - ops[q].added + Unused(k, ops - {q});
    if p != q {
      UnusedRemove(k, ops - {q}, p);
      UnusedRemove(k, ops - {p}, q);
      assert ops - {q} - {p} == ops - {p} - {q};
    }
  }

  lemma UnusedUpdate(k: int, ops: map<nat, Op>, p: nat, op: Op)
    ensures Unused(k, ops[p := op]) == k - op.added + Unused(k, ops - {p})
  {
    UnusedRemove(k, ops[p := op], p);
    assert ops[p := op] - {p} == ops - {p};
  }

  lemma {:induction false} UnusedLe(k: int, ops: map<nat, Op>)
    ensures Unused(k, ops) <= k * |ops|
    decreases |ops|
  {
    if ops != map[] {
      var p :| p in ops;
      UnusedRemove(k, ops, p);
      UnusedLe(k, ops - {p});
      assert |ops - {p}| == |ops| - 1;
    }
  }

  lemma {:induction false} UnusedNonneg(k: int, ops: map<nat, Op>)
    requires forall p :: p in ops ==> ops[p].added <= k
    ensures Unused(k, ops) >= 0
    decreases |ops|
  {
    if ops != map[] {
      var p :| p in ops;
      UnusedRemove(k, ops, p);
      UnusedNonneg(k, ops - {p});
    }
  }

  /** What reservation keeps, for operations that add at most c.budget blocks each.
      Recovery runs before any operation and may find a longer log. */
  ghost predicate Reserved(c: Config, s: State) {
    && 1 <= c.budget <= MAXOPBLOCKS
    && (forall p :: p in s.ops ==> s.ops[p].added <= c.budget)
    // nobody sleeps in begin_op while it would be admitted: no lost wakeup
    && (s.sleepers != {} ==> !Recovering(s.pc) && !Admits(s))
    && (!Recovering(s.pc) ==>
          && |s.lh| + Unused(MAXOPBLOCKS, s.ops) <= LOGSIZE
          && |s.lh| + Unused(c.budget, s.ops) <= MAXOPBLOCKS + 2 * c.budget)
  }

  lemma StepKeepsReserved(c: Config, s: State, a: Action)
    requires Inv(c, s) && Reserved(c, s) && Enabled(c, s, a)
    ensures Reserved(c, After(c, s, a))
  {
    var r := After(c, s, a);
    match a
    case Begin(p) => BeginKeepsReserved(c, s, p);
    case Modify(p, b, v) => OneOpKeepsReserved(c, s, a, p);
    case Log(p, b) => OneOpKeepsReserved(c, s, a, p);
    case End(p) => EndKeepsReserved(c, s, p);
    case _ => EmptyKeepsReserved(c, s, a);
  }

  lemma EndKeepsReserved(c: Config, s: State, p: nat)
    requires Inv(c, s) && Reserved(c, s) && Enabled(c, s, End(p))
    ensures Reserved(c, After(c, s, End(p)))
  {
    UnusedRemove(MAXOPBLOCKS, s.ops, p);
    UnusedRemove(c.budget, s.ops, p);
  }

  lemma EmptyKeepsReserved(c: Config, s: State, a: Action)
    requires Inv(c, s) && Reserved(c, s) && Enabled(c, s, a) && (a.Commit? || a.Crash? || a.Recover?)
    ensures Reserved(c, After(c, s, a))
  {
    assert After(c, s, a).ops == map[];
  }

  lemma OneOpKeepsReserved(c: Config, s: State, a: Action, p: nat)
    requires Inv(c, s) && Reserved(c, s) && Enabled(c, s, a)
    requires (a.Modify? || a.Log?) && a.p == p
    ensures Reserved(c, After(c, s, a))
  {
    var r := After(c, s, a);
    var op := r.ops[p];
    assert r.ops == s.ops[p := op];
    UnusedUpdate(MAXOPBLOCKS, s.ops, p, op);
    UnusedRemove(MAXOPBLOCKS, s.ops, p);
    UnusedUpdate(c.budget, s.ops, p, op);
    UnusedRemove(c.budget, s.ops, p);
    assert |r.ops| == |s.ops|;
  }

  lemma AdmissionArithmetic(n: nat, m: nat, u: int, k: int)
    requires 1 <= k <= MAXOPBLOCKS && u <= k * m && n + (m + 1) * MAXOPBLOCKS <= LOGSIZE
    requires m == 0 ==> n == 0
    ensures n + u + k <= MAXOPBLOCKS + 2 * k
  {
    if m == 1 { assert u <= k; } else if m == 2 { assert u <= 2 * k; }
  }

  lemma BeginKeepsReserved(c: Config, s: State, p: nat)
    requires Inv(c, s) && Reserved(c, s) && Enabled(c, s, Begin(p))
    ensures Reserved(c, After(c, s, Begin(p)))
  {
    if Admits(s) {
      UnusedUpdate(MAXOPBLOCKS, s.ops, p, Op(0, {}));
      UnusedUpdate(c.budget, s.ops, p, Op(0, {}));
      UnusedLe(MAXOPBLOCKS, s.ops);
      UnusedLe(c.budget, s.ops);
      assert s.ops - {p} == s.ops;
      assert |s.ops| == 0 ==> s.ops == map[];
      AdmissionArithmetic(|s.lh|, |s.ops|, Unused(c.budget, s.ops), c.budget);
    }
  }

  /** Every reachable state of every run keeps the reservation. */
  lemma {:induction false} RunKeepsReserved(c: Config, run: Run)
    requires RunOk(c, run) && Reserved(c, run.First())
    ensures Inv(c, run.Last()) && Reserved(c, run.Last())
    ensures var s := run.Last();
      && (!Recovering(s.pc) ==> |s.lh| + Unused(MAXOPBLOCKS, s.ops) <= LOGSIZE)
      && (s.committing ==> s.ops == map[])
      && Distinct(s.lh) && c.start + |s.lh| < c.start + c.size
      && (s.sleepers != {} ==> s.ops != map[] || s.committing)
  {
    RunKeepsInv(c, run);
    Unfold(c, run);
    if run.More? {
      RunKeepsReserved(c, run.prev);
      StepKeepsReserved(c, run.prev.Last(), run.a);
    }
  }

  // ----- exactly when "too big a transaction" cannot happen

  /** Blocks in the log never exceed one reservation plus two budgets. */
  lemma LogLength(c: Config, s: State)
    requires Inv(c, s) && Reserved(c, s) && !Recovering(s.pc)
    ensures |s.lh| <= MAXOPBLOCKS + 2 * c.budget
  {
    UnusedNonneg(c.budget, s.ops);
  }

  /** If the capacity exceeds that bound, no run panics. */
  lemma {:induction false} NoPanic(c: Config, run: Run)
    requires RunOk(c, run) && Reserved(c, run.First()) && !run.First().panicked
    requires MAXOPBLOCKS + 2 * c.budget < c.Capacity()
    ensures !run.Last().panicked
  {
    Unfold(c, run);
    if run.More? {
      NoPanic(c, run.prev);
      RunKeepsReserved(c, run.prev);
      if run.a.Log? { LogLength(c, run.prev.Last()); }
    }
  }

  /** The k-th block outside the log region. */
  function HomeBlock(c: Config, k: nat): (b: nat)
    requires k + c.size < c.nblocks && c.start + c.size <= c.nblocks
    ensures c.Home(b) && k <= b
  {
    if k < c.start then k else k + c.size
  }

  ghost function FirstBlocks(c: Config, n: nat): seq<nat>
    requires n + c.size <= c.nblocks && c.start + c.size <= c.nblocks
  {
    seq(n, i requires 0 <= i < n => HomeBlock(c, i))
  }

  /** A run from s0 that has logged n blocks and has operations `ops` outstanding. */
  ghost predicate Filled(c: Config, s0: State, run: Run, n: nat, ops: map<nat, Op>)
    requires c.nblocks >= c.size + LOGSIZE && c.Valid() && n <= LOGSIZE
  {
    && RunOk(c, run) && run.First() == s0
    && var s := run.Last();
    && s.ops == ops && s.lh == FirstBlocks(c, n)
    && s.pc.Idle? && !s.committing && s.sleepers == {} && !s.panicked
  }

  /** A run goes on with any enabled action. */
  ghost function Extend(c: Config, run: Run, a: Action): (r: Run)
    requires RunOk(c, run) && Enabled(c, run.Last(), a)
    ensures RunOk(c, r) && r.First() == run.First()
    ensures Shape(c, run.Last()) && r.Last() == After(c, run.Last(), a)
  {
    RunKeepsInv(c, run);
    var r := More(run, a, After(c, run.Last(), a));
    Unfold(c, r);
    r
  }

  ghost predicate AllClean(ops: map<nat, Op>) {
    forall q :: q in ops ==> ops[q].dirty == {}
  }

  /** Operation p modifies and logs one more new block. */
  lemma LogOne(c: Config, s0: State, run: Run, n: nat, ops: map<nat, Op>, p: nat) returns (r: Run)
    requires c.Valid() && c.nblocks >= c.size + LOGSIZE && n < c.Capacity()
    requires Filled(c, s0, run, n, ops) && AllClean(ops)
    requires p in ops && ops[p].added < c.budget
    ensures Filled(c, s0, r, n + 1, ops[p := Op(ops[p].added + 1, {})])
  {
    var b := HomeBlock(c, n);
    assert b !in run.Last().lh;
    r := Extend(c, run, Modify(p, b, []));
    assert ops[p].dirty + {b} == {b};
    assert r.Last().ops == ops[p := Op(ops[p].added, {b})];
    r := Extend(c, r, Log(p, b));
    assert {b} - {b} == {};
    assert r.Last().ops == ops[p := Op(ops[p].added + 1, {})];
    assert FirstBlocks(c, n + 1) == FirstBlocks(c, n) + [b];
  }

  /** Operation p logs m more new blocks. */
  lemma {:induction false} Spend(c: Config, s0: State, run: Run, n: nat, ops: map<nat, Op>, p: nat, m: nat)
      returns (r: Run)
    requires c.Valid() && c.nblocks >= c.size + LOGSIZE && n + m <= c.Capacity()
    requires Filled(c, s0, run, n, ops) && AllClean(ops)
    requires p in ops && ops[p].added + m <= c.budget
    ensures Filled(c, s0, r, n + m, ops[p := Op(ops[p].added + m, {})])
  {
    if m == 0 {
      r := run;
      assert ops[p := Op(ops[p].added, {})] == ops;
    } else {
      r := Spend(c, s0, run, n, ops, p, m - 1);
      var ops1 := ops[p := Op(ops[p].added + m - 1, {})];
      r := LogOne(c, s0, r, n + m - 1, ops1, p);
      assert ops1[p := Op(ops[p].added + m, {})] == ops[p := Op(ops[p].added + m, {})];
    }
  }

  /** While operation 0 is outstanding, operation 1 begins, logs one block and ends. */
  lemma ShortOp(c: Config, s0: State, run: Run, n: nat) returns (r: Run)
    requires c.Valid() && c.nblocks >= c.size + LOGSIZE && n < c.Capacity() && n < MAXOPBLOCKS && 1 <= c.budget
    requires Filled(c, s0, run, n, map[0 := Op(0, {})])
    ensures Filled(c, s0, r, n + 1, map[0 := Op(0, {})])
  {
    var ops: map<nat, Op> := map[0 := Op(0, {})];
    assert |ops| == 1;
    r := Extend(c, run, Begin(1));
    assert Filled(c, s0, r, n, ops[1 := Op(0, {})]);
    r := LogOne(c, s0, r, n, ops[1 := Op(0, {})], 1);
    r := Extend(c, r, End(1));
    assert ops[1 := Op(0, {})][1 := Op(1, {})] - {1} == ops;
  }

  /** Operation 0 stays open while n one-block operations come and go. */
  lemma {:induction false} FillShort(c: Config, s0: State, n: nat) returns (r: Run)
    requires Quiescent(c, s0) && Reserved(c, s0) && s0.sleepers == {}
    requires c.nblocks >= c.size + LOGSIZE && n <= c.Capacity() && n <= MAXOPBLOCKS
    ensures Filled(c, s0, r, n, map[0 := Op(0, {})])
  {
    if n == 0 {
      r := Extend(c, Start(s0), Begin(0));
      assert r.Last().ops == map[0 := Op(0, {})];
    } else {
      r := FillShort(c, s0, n - 1);
      r := ShortOp(c, s0, r, n - 1);
    }
  }

  lemma PanicWhenFull(c: Config, s0: State, run: Run, ops: map<nat, Op>) returns (r: Run)
    requires c.Valid() && c.nblocks >= c.size + LOGSIZE
    requires Filled(c, s0, run, c.Capacity(), ops) && AllClean(ops) && 0 in ops
    ensures RunOk(c, r) && r.First() == s0 && r.Last().panicked
  {
    var b := HomeBlock(c, 0);
    r := Extend(c, run, Modify(0, b, []));
    r := Extend(c, r, Log(0, b));
  }

  lemma BeginSecond(c: Config, s0: State, run: Run) returns (r: Run)
    requires c.Valid() && c.nblocks >= c.size + LOGSIZE
    requires Filled(c, s0, run, MAXOPBLOCKS, map[0 := Op(0, {})])
    ensures Filled(c, s0, r, MAXOPBLOCKS, map[0 := Op(0, {}), 1 := Op(0, {})])
  {
    var ops: map<nat, Op> := map[0 := Op(0, {})];
    assert |ops| == 1;
    r := Extend(c, run, Begin(1));
    assert ops[1 := Op(0, {})] == map[0 := Op(0, {}), 1 := Op(0, {})];
  }

  /** From any state at rest, if the capacity does not exceed the bound then some run
      panics: a long operation holds its reservation open while short ones fill
      MAXOPBLOCKS slots, and then it and one more spend their budgets. */
  lemma PanicRun(c: Config, s0: State) returns (r: Run)
    requires Quiescent(c, s0) && Reserved(c, s0) && s0.sleepers == {}
    requires c.nblocks >= c.size + LOGSIZE
    requires c.Capacity() <= MAXOPBLOCKS + 2 * c.budget
    ensures RunOk(c, r) && r.First() == s0 && r.Last().panicked
  {
    var full := c.Capacity();
    var ops := map[0 := Op(0, {})];
    if full <= MAXOPBLOCKS {
      r := FillShort(c, s0, full);
    } else {
      r := FillShort(c, s0, MAXOPBLOCKS);
      r := BeginSecond(c, s0, r);
      var m := if full - MAXOPBLOCKS < c.budget then full - MAXOPBLOCKS else c.budget;
      ops := map[0 := Op(0, {}), 1 := Op(0, {})];
      r := Spend(c, s0, r, MAXOPBLOCKS, ops, 0, m);
      ops := ops[0 := Op(m, {})];
      r := Spend(c, s0, r, MAXOPBLOCKS + m, ops, 1, full - MAXOPBLOCKS - m);
      ops := ops[1 := Op(full - MAXOPBLOCKS - m, {})];
    }
    r := PanicWhenFull(c, s0, r, ops);
  }

  ghost predicate CanPanic(c: Config, s0: State) {
    exists run: Run :: RunOk(c, run) && run.First() == s0 && run.Last().panicked
  }

  /** "Too big a transaction" is unreachable exactly when the capacity exceeds one
      reservation plus two budgets.  With LOGSIZE = 30 this fails for operations that
      use all MAXOPBLOCKS, for every log size. */
  lemma PanicFreeIff(c: Config, s0: State)
    requires Quiescent(c, s0) && Reserved(c, s0) && s0.sleepers == {}
    requires c.nblocks >= c.size + LOGSIZE
    ensures !CanPanic(c, s0) <==> MAXOPBLOCKS + 2 * c.budget < c.Capacity()
  {
    if MAXOPBLOCKS + 2 * c.budget < c.Capacity() {
      forall run: Run | RunOk(c, run) && run.First() == s0 ensures !run.Last().panicked {
        NoPanic(c, run);
      }
    } else {
      var r := PanicRun(c, s0);
    }
  }
}
