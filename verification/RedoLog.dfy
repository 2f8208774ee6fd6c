/**
  The redo log of kernel/log.c as a state machine.  One action is one atomic step:
  a critical section under log.lock, or one disk block write.  A crash may follow
  any action, including the actions of recovery itself.

  Blocks are sequences of 32-bit words.  The header block holds the count n in
  word 0 and the n home block numbers in words 1..n.
 */
module RedoLog {

  const BLOCK_WORDS := 256
  const MAXOPBLOCKS := 10
  const LOGSIZE := 30

  type Block = seq<nat>

  /** Disk geometry, and how many new blocks one operation may add to the log. */
  datatype Config = Config(start: nat, size: nat, nblocks: nat, budget: nat) {
    ghost predicate Valid() {
      1 <= size && start + size <= nblocks
    }

    /** A block outside the log region. */
    ghost predicate Home(b: int) {
      0 <= b < nblocks && !(start <= b < start + size)
    }

    /** Largest number of logged blocks that log_write lets in. */
    function Capacity(): int {
      if LOGSIZE < size - 1 then LOGSIZE else size - 1
    }
  }

  /** An outstanding file system operation: blocks it added to the log, and
      buffers it has locked and modified but not yet passed to log_write. */
  datatype Op = Op(added: nat, dirty: set<nat>)

  datatype Pc =
    | Idle
    | WriteLog(tail: nat) | WriteHead | Install(tail: nat) | ClearHead | Finish
    | Boot | Reinstall(tail: nat) | ReclearHead

  datatype State = State(
    disk: seq<Block>,      // what survives a crash
    mem: seq<Block>,       // what bread() returns
    lh: seq<nat>,          // in-memory log header
    ops: map<nat, Op>,     // outstanding operations by process
    committing: bool,
    sleepers: set<nat>,    // processes asleep in begin_op
    pc: Pc,
    panicked: bool
  )

  datatype Action =
    | Begin(p: nat)
    | Modify(p: nat, b: nat, v: Block)
    | Log(p: nat, b: nat)
    | End(p: nat)
    | Commit                // the next step of commit(), and the epilogue of end_op()
    | Crash
    | Recover               // the next step of recover_from_log()

  // ----- the on-disk header

  function EncodeHead(was: Block, lh: seq<nat>): (r: Block)
    requires |was| == BLOCK_WORDS && |lh| < BLOCK_WORDS
    ensures |r| == BLOCK_WORDS && DecodeHead(r) == lh
  {
    var r := [|lh|] + lh + was[|lh| + 1..];
    assert r[1..|lh| + 1] == lh;
    r
  }

  function DecodeHead(b: Block): seq<nat> {
    if |b| == 0 || b[0] + 1 > |b| then [] else b[1..b[0] + 1]
  }

  ghost function Head(c: Config, disk: seq<Block>): seq<nat> {
    if c.start < |disk| then DecodeHead(disk[c.start]) else []
  }

  ghost predicate Distinct(s: seq<nat>) {
    forall i, j :: 0 <= i < j < |s| ==> s[i] != s[j]
  }

  ghost predicate HeadOk(c: Config, lh: seq<nat>) {
    && |lh| <= c.Capacity()
    && Distinct(lh)
    && forall i :: 0 <= i < |lh| ==> c.Home(lh[i])
  }

  // ----- enabled actions and their effect

  /** begin_op's admission test. */
  predicate Admits(s: State) {
    !s.committing && |s.lh| + (|s.ops| + 1) * MAXOPBLOCKS <= LOGSIZE
  }

  predicate Recovering(pc: Pc) {
    pc.Boot? || pc.Reinstall? || pc.ReclearHead?
  }

  /** log_write's "too big a transaction" test, made before the absorption search. */
  predicate TooBig(c: Config, s: State) {
    |s.lh| >= LOGSIZE || |s.lh| >= c.size - 1
  }

  ghost predicate Enabled(c: Config, s: State, a: Action) {
    match a
    case Begin(p) => !s.panicked && !Recovering(s.pc) && p !in s.ops && p !in s.sleepers
    case Modify(p, b, v) =>
      && !s.panicked && p in s.ops && c.Home(b)
      && (forall q :: q in s.ops && b in s.ops[q].dirty ==> q == p)  // the buffer's sleep lock
    case Log(p, b) =>
      && !s.panicked && p in s.ops && b in s.ops[p].dirty
      && (TooBig(c, s) || b in s.lh || s.ops[p].added < c.budget)
    case End(p) => !s.panicked && p in s.ops && s.ops[p].dirty == {}
    case Commit => !s.panicked && s.committing
    case Crash => true
    case Recover => !s.panicked && Recovering(s.pc)
  }

  ghost predicate Shape(c: Config, s: State) {
    && c.Valid() && |s.disk| == |s.mem| == c.nblocks
    && |s.disk[c.start]| == |s.mem[c.start]| == BLOCK_WORDS
    && HeadOk(c, s.lh)
    && (s.pc.WriteLog? || s.pc.Install? || s.pc.Reinstall? ==> s.pc.tail <= |s.lh|)
    && (s.committing <==> s.pc.WriteLog? || s.pc.WriteHead? || s.pc.Install? || s.pc.ClearHead? || s.pc.Finish?)
  }

  /** bwrite of block b after setting its cached contents to v. */
  ghost function Put(s: State, b: nat, v: Block): (r: State)
    requires b < |s.disk| == |s.mem|
  {
    s.(mem := s.mem[b := v], disk := s.disk[b := v])
  }

  ghost function After(c: Config, s: State, a: Action): (r: State)
    requires Shape(c, s) && Enabled(c, s, a)
  {
    match a
    case Begin(p) =>
      if Admits(s) then s.(ops := s.ops[p := Op(0, {})]) else s.(sleepers := s.sleepers + {p})
    case Modify(p, b, v) =>
      s.(mem := s.mem[b := v], ops := s.ops[p := s.ops[p].(dirty := s.ops[p].dirty + {b})])
    case Log(p, b) =>
      var op := s.ops[p];
      if TooBig(c, s) then s.(panicked := true)
      else if b in s.lh then s.(ops := s.ops[p := op.(dirty := op.dirty - {b})])
      else s.(lh := s.lh + [b], ops := s.ops[p := Op(op.added + 1, op.dirty - {b})])
    case End(p) =>
      var ops := s.ops - {p};
      if ops == map[] then s.(ops := ops, committing := true, pc := if |s.lh| > 0 then WriteLog(0) else Finish)
      else s.(ops := ops, sleepers := {})
    case Commit => CommitStep(c, s)
    case Crash =>
      State(s.disk, s.disk, [], map[], false, {}, Boot, false)
    case Recover => RecoverStep(c, s)
  }

  ghost function CommitStep(c: Config, s: State): (r: State)
    requires Shape(c, s) && s.committing
  {
    match s.pc
    case WriteLog(t) =>
      if t < |s.lh| then Put(s, c.start + 1 + t, s.mem[s.lh[t]]).(pc := WriteLog(t + 1))
      else s.(pc := WriteHead)
    case WriteHead => Put(s, c.start, EncodeHead(s.mem[c.start], s.lh)).(pc := Install(0))
    case Install(t) =>
      if t < |s.lh| then Put(s, s.lh[t], s.mem[c.start + 1 + t]).(pc := Install(t + 1))
      else s.(pc := ClearHead)
    case ClearHead => Put(s, c.start, EncodeHead(s.mem[c.start], [])).(lh := [], pc := Finish)
    case _ => s.(committing := false, sleepers := {}, pc := Idle)
  }

  ghost function RecoverStep(c: Config, s: State): (r: State)
    requires Shape(c, s) && Recovering(s.pc)
  {
    match s.pc
    case Reinstall(t) =>
      if t < |s.lh| then Put(s, s.lh[t], s.mem[c.start + 1 + t]).(pc := Reinstall(t + 1))
      else s.(pc := ReclearHead)
    case ReclearHead => Put(s, c.start, EncodeHead(s.mem[c.start], [])).(lh := [], pc := Idle)
    case _ => s.(lh := DecodeHead(s.mem[c.start]), pc := Reinstall(0))
  }

  // ----- the invariant

  ghost predicate Dirty(s: State, b: int) {
    exists p :: p in s.ops && b in s.ops[p].dirty
  }

  /** Cached and stored contents agree on every home block outside the log header
      and outside buffers being modified. */
  ghost predicate CleanOutside(c: Config, s: State)
    requires |s.disk| == |s.mem| == c.nblocks
  {
    forall b :: c.Home(b) && b !in s.lh && !Dirty(s, b) ==> s.mem[b] == s.disk[b]
  }

  /** The first t log slots hold the cached contents of the first t logged blocks. */
  ghost predicate Logged(c: Config, s: State, t: nat)
    requires Shape(c, s) && t <= |s.lh|
  {
    forall i :: 0 <= i < t ==> s.disk[c.start + 1 + i] == s.mem[s.lh[i]]
  }

  /** The first t logged blocks have been copied from the log to their home. */
  ghost predicate Installed(c: Config, s: State, t: nat)
    requires Shape(c, s) && t <= |s.lh|
  {
    forall i :: 0 <= i < t ==> s.disk[s.lh[i]] == s.disk[c.start + 1 + i]
  }

  ghost predicate Phase(c: Config, s: State)
    requires Shape(c, s)
  {
    match s.pc
    case Idle => Head(c, s.disk) == []
    case WriteLog(t) => Head(c, s.disk) == [] && Logged(c, s, t)
    case WriteHead => Head(c, s.disk) == [] && Logged(c, s, |s.lh|)
    case Install(t) => Head(c, s.disk) == s.lh && Logged(c, s, |s.lh|) && Installed(c, s, t)
    case ClearHead => Head(c, s.disk) == s.lh && Logged(c, s, |s.lh|) && Installed(c, s, |s.lh|)
    case Finish => Head(c, s.disk) == [] && s.lh == []
    case Boot => HeadOk(c, Head(c, s.disk)) && s.mem == s.disk && s.lh == []
    case Reinstall(t) => Head(c, s.disk) == s.lh && s.mem == s.disk && Installed(c, s, t)
    case ReclearHead => Head(c, s.disk) == s.lh && s.mem == s.disk && Installed(c, s, |s.lh|)
  }

  ghost predicate Inv(c: Config, s: State) {
    && Shape(c, s)
    && (forall b :: c.start <= b < c.start + c.size ==> s.mem[b] == s.disk[b])
    && (forall p, b :: p in s.ops && b in s.ops[p].dirty ==> c.Home(b))
    && (s.ops != map[] ==> s.pc.Idle?)
    && (s.pc.Idle? && s.ops == map[] ==> s.lh == [])
    && CleanOutside(c, s)
    && Phase(c, s)
  }

  /** A running system at rest: nothing outstanding and an empty log. */
  ghost predicate Quiescent(c: Config, s: State) {
    Inv(c, s) && s.pc.Idle? && s.ops == map[] && !s.panicked
  }

  lemma {:induction false} StepKeepsInv(c: Config, s: State, a: Action)
    requires Inv(c, s) && Enabled(c, s, a)
    ensures Inv(c, After(c, s, a))
  {
    var r := After(c, s, a);
    match a
    case Begin(p) => BeginKeepsInv(c, s, p);
    case Modify(p, b, v) => ModifyKeepsInv(c, s, p, b, v);
    case Log(p, b) => LogKeepsInv(c, s, p, b);
    case End(p) => EndKeepsInv(c, s, p);
    case Commit => CommitKeepsInv(c, s);
    case Crash => CrashKeepsInv(c, s);
    case Recover => RecoverKeepsInv(c, s);
  }

  lemma BeginKeepsInv(c: Config, s: State, p: nat)
    requires Inv(c, s) && Enabled(c, s, Begin(p))
    ensures Inv(c, After(c, s, Begin(p)))
  {
    var r := After(c, s, Begin(p));
    if Admits(s) {
      assert p in r.ops;
      forall b | c.Home(b) && b !in r.lh && !Dirty(r, b) ensures r.mem[b] == r.disk[b] {
        assert forall q :: q in s.ops ==> q in r.ops && r.ops[q] == s.ops[q];
        assert !Dirty(s, b);
      }
    } else {
      assert forall b :: Dirty(r, b) <==> Dirty(s, b);
    }
  }

  lemma ModifyKeepsInv(c: Config, s: State, p: nat, b: nat, v: Block)
    requires Inv(c, s) && Enabled(c, s, Modify(p, b, v))
    ensures Inv(c, After(c, s, Modify(p, b, v)))
  {
    var r := After(c, s, Modify(p, b, v));
    assert p in r.ops && b in r.ops[p].dirty;
    assert Dirty(r, b);
    forall x | Dirty(s, x) ensures Dirty(r, x) {
      var q :| q in s.ops && x in s.ops[q].dirty;
      assert q in r.ops && x in r.ops[q].dirty;
    }
  }

  lemma LogKeepsInv(c: Config, s: State, p: nat, b: nat)
    requires Inv(c, s) && Enabled(c, s, Log(p, b))
    ensures Inv(c, After(c, s, Log(p, b)))
  {
    var r := After(c, s, Log(p, b));
    if TooBig(c, s) {
      assert forall x :: Dirty(r, x) <==> Dirty(s, x);
    } else {
      assert p in r.ops;
      assert b in r.lh by { assert b !in s.lh ==> r.lh[|s.lh|] == b; }
      forall x | x in s.lh ensures x in r.lh { }
      forall x | Dirty(s, x) && x != b ensures Dirty(r, x) {
        var q :| q in s.ops && x in s.ops[q].dirty;
        assert q in r.ops && x in r.ops[q].dirty;
      }
    }
  }

  lemma EndKeepsInv(c: Config, s: State, p: nat)
    requires Inv(c, s) && Enabled(c, s, End(p))
    ensures Inv(c, After(c, s, End(p)))
  {
    var r := After(c, s, End(p));
    forall x | Dirty(s, x) ensures Dirty(r, x) {
      var q :| q in s.ops && x in s.ops[q].dirty;
      assert q in r.ops && x in r.ops[q].dirty;
    }
  }

  lemma CommitKeepsInv(c: Config, s: State)
    requires Inv(c, s) && Enabled(c, s, Commit)
    ensures Inv(c, After(c, s, Commit))
  {
    if s.pc.WriteLog? {
      WriteLogKeepsInv(c, s);
    } else if s.pc.WriteHead? {
      WriteHeadKeepsInv(c, s);
    } else if s.pc.Install? {
      InstallKeepsInv(c, s);
    } else {
      ClearHeadKeepsInv(c, s);
    }
  }

  lemma WriteLogKeepsInv(c: Config, s: State)
    requires Inv(c, s) && Enabled(c, s, Commit) && s.pc.WriteLog?
    ensures Inv(c, After(c, s, Commit))
  {
  }

  lemma WriteHeadKeepsInv(c: Config, s: State)
    requires Inv(c, s) && Enabled(c, s, Commit) && s.pc.WriteHead?
    ensures Inv(c, After(c, s, Commit))
  {
    assert Head(c, After(c, s, Commit).disk) == s.lh;
  }

  lemma InstallKeepsInv(c: Config, s: State)
    requires Inv(c, s) && Enabled(c, s, Commit) && s.pc.Install?
    ensures Inv(c, After(c, s, Commit))
  {
    if s.pc.tail < |s.lh| {
      InstallShape(c, s);
      InstallPhase(c, s);
    }
  }

  /** Copying a log block home only changes that block on disk: the cache has it. */
  lemma InstallShape(c: Config, s: State)
    requires Inv(c, s) && s.committing && s.pc.Install? && s.pc.tail < |s.lh|
    ensures var t := s.pc.tail;
      CommitStep(c, s) == s.(disk := s.disk[s.lh[t] := s.disk[c.start + 1 + t]], pc := Install(t + 1))
  {
    var t := s.pc.tail;
    assert s.mem[c.start + 1 + t] == s.disk[c.start + 1 + t] == s.mem[s.lh[t]];
    assert s.mem[s.lh[t] := s.mem[s.lh[t]]] == s.mem;
  }

  lemma InstallPhase(c: Config, s: State)
    requires Inv(c, s) && s.pc.Install? && s.pc.tail < |s.lh|
    ensures var t := s.pc.tail;
      Inv(c, s.(disk := s.disk[s.lh[t] := s.disk[c.start + 1 + t]], pc := Install(t + 1)))
  {
    var t := s.pc.tail;
    var r := s.(disk := s.disk[s.lh[t] := s.disk[c.start + 1 + t]], pc := Install(t + 1));
    assert c.Home(s.lh[t]);
    assert Shape(c, r);
    InstallLists(c, s, r, t);
    forall b | c.Home(b) && b !in r.lh && !Dirty(r, b) ensures r.mem[b] == r.disk[b] { assert !Dirty(s, b); }
  }

  lemma InstallLists(c: Config, s: State, r: State, t: nat)
    requires Shape(c, s) && t < |s.lh| && Logged(c, s, |s.lh|) && Installed(c, s, t)
    requires Shape(c, r) && r == s.(disk := s.disk[s.lh[t] := s.disk[c.start + 1 + t]], pc := Install(t + 1))
    ensures Logged(c, r, |r.lh|) && Installed(c, r, t + 1)
  {
    assert c.Home(s.lh[t]);
  }

  lemma ClearHeadKeepsInv(c: Config, s: State)
    requires Inv(c, s) && Enabled(c, s, Commit) && (s.pc.ClearHead? || s.pc.Finish?)
    ensures Inv(c, After(c, s, Commit))
  {
    var r := After(c, s, Commit);
    forall b | c.Home(b) ensures r.mem[b] == r.disk[b] {
      assert !Dirty(s, b);
      if b in s.lh {
        var i :| 0 <= i < |s.lh| && s.lh[i] == b;
        assert s.disk[s.lh[i]] == s.disk[c.start + 1 + i];
      }
    }
  }

  lemma CrashKeepsInv(c: Config, s: State)
    requires Inv(c, s) && Enabled(c, s, Crash)
    ensures Inv(c, After(c, s, Crash))
  {
  }

  lemma RecoverKeepsInv(c: Config, s: State)
    requires Inv(c, s) && Enabled(c, s, Recover)
    ensures Inv(c, After(c, s, Recover))
  {
    if s.pc.Reinstall? && s.pc.tail < |s.lh| {
      ReinstallKeepsInv(c, s);
    } else {
      assert forall b :: !Dirty(After(c, s, Recover), b);
    }
  }

  lemma ReinstallKeepsInv(c: Config, s: State)
    requires Inv(c, s) && Enabled(c, s, Recover) && s.pc.Reinstall? && s.pc.tail < |s.lh|
    ensures Inv(c, After(c, s, Recover))
  {
    var r := After(c, s, Recover);
    assert forall b :: !Dirty(r, b);
    forall i | 0 <= i < s.pc.tail + 1 ensures r.disk[r.lh[i]] == r.disk[c.start + 1 + i] { }
  }

  // ----- refinement of an atomic, transactional store

  type Contents = map<int, Block>

  /** What a crash and a completed recovery would leave, what readers see now, and
      which operations are open. */
  datatype Store = Store(durable: Contents, cached: Contents, open: set<nat>)

  datatype StoreStep =
    | Stutter | Open(p: nat) | Close(p: nat) | Write(b: int, v: Block) | CommitAll | Lose

  ghost predicate StoreEnabled(t: Store, e: StoreStep) {
    match e
    case Stutter => true
    case Open(p) => p !in t.open
    case Close(p) => p in t.open
    case Write(b, v) => t.open != {} && b in t.cached
    case CommitAll => t.open == {}
    case Lose => true
  }

  ghost function StoreAfter(t: Store, e: StoreStep): Store {
    match e
    case Stutter => t
    case Open(p) => t.(open := t.open + {p})
    case Close(p) => t.(open := t.open - {p})
    case Write(b, v) => t.(cached := t.cached[b := v])
    case CommitAll => t.(durable := t.cached)
    case Lose => Store(t.durable, t.durable, {})
  }

  function IndexOf(h: seq<nat>, b: nat): (i: nat)
    requires b in h
    ensures i < |h| && h[i] == b
  {
    if h[0] == b then 0 else 1 + IndexOf(h[1..], b)
  }

  ghost function HomeOf(c: Config, d: seq<Block>): Contents
    requires |d| == c.nblocks
  {
    map b: int | 0 <= b < c.nblocks && c.Home(b) :: d[b]
  }

  /** The home blocks with the on-disk log laid over them. */
  ghost function Durable(c: Config, d: seq<Block>): Contents
    requires c.Valid() && |d| == c.nblocks && HeadOk(c, Head(c, d))
  {
    map b: int | 0 <= b < c.nblocks && c.Home(b) ::
      if b in Head(c, d) then d[c.start + 1 + IndexOf(Head(c, d), b)] else d[b]
  }

  ghost function View(c: Config, s: State): Store
    requires Inv(c, s)
  {
    Store(Durable(c, s.disk), if Recovering(s.pc) then Durable(c, s.disk) else HomeOf(c, s.mem), s.ops.Keys)
  }

  /** Which step of the atomic store an action of the log performs.  The only one that
      commits is the first header write. */
  ghost function Effect(s: State, a: Action): StoreStep {
    match a
    case Begin(p) => if Admits(s) then Open(p) else Stutter
    case Modify(p, b, v) => Write(b, v)
    case Log(p, b) => Stutter
    case End(p) => Close(p)
    case Commit => if s.pc.WriteHead? then CommitAll else Stutter
    case Crash => Lose
    case Recover => Stutter
  }

  /** Every step of the log is the corresponding step of the atomic store. */
  lemma StepRefines(c: Config, s: State, a: Action)
    requires Inv(c, s) && Enabled(c, s, a)
    ensures Inv(c, After(c, s, a))
    ensures StoreEnabled(View(c, s), Effect(s, a))
    ensures View(c, After(c, s, a)) == StoreAfter(View(c, s), Effect(s, a))
  {
    StepKeepsInv(c, s, a);
    match a
    case Commit => CommitRefines(c, s);
    case Recover => RecoverRefines(c, s);
    case Modify(p, b, v) => ModifyRefines(c, s, p, b, v);
    case _ => BookkeepingRefines(c, s, a);
  }

  lemma ModifyRefines(c: Config, s: State, p: nat, b: nat, v: Block)
    requires Inv(c, s) && Enabled(c, s, Modify(p, b, v)) && Inv(c, After(c, s, Modify(p, b, v)))
    ensures StoreEnabled(View(c, s), Write(b, v))
    ensures View(c, After(c, s, Modify(p, b, v))) == StoreAfter(View(c, s), Write(b, v))
  {
    var r := After(c, s, Modify(p, b, v));
    assert HomeOf(c, r.mem) == HomeOf(c, s.mem)[b := v];
    assert p in s.ops.Keys;
    assert r.ops.Keys == s.ops.Keys;
  }

  lemma BookkeepingRefines(c: Config, s: State, a: Action)
    requires Inv(c, s) && Enabled(c, s, a) && Inv(c, After(c, s, a))
    requires a.Begin? || a.Log? || a.End? || a.Crash?
    ensures StoreEnabled(View(c, s), Effect(s, a))
    ensures View(c, After(c, s, a)) == StoreAfter(View(c, s), Effect(s, a))
  {
    var r := After(c, s, a);
    assert r.disk == s.disk;
    assert r.ops.Keys == StoreAfter(View(c, s), Effect(s, a)).open;
  }

  /** An empty header makes the home blocks themselves durable. */
  lemma EmptyHead(c: Config, d: seq<Block>)
    requires c.Valid() && |d| == c.nblocks && Head(c, d) == []
    ensures Durable(c, d) == HomeOf(c, d)
  {
  }

  lemma CommitRefines(c: Config, s: State)
    requires Inv(c, s) && Enabled(c, s, Commit) && Inv(c, After(c, s, Commit))
    ensures View(c, After(c, s, Commit)) == StoreAfter(View(c, s), Effect(s, Commit))
  {
    if s.pc.WriteHead? {
      WriteHeadCommits(c, s);
    } else if s.pc.Install? {
      InstallRefines(c, s);
    } else {
      OtherCommitRefines(c, s);
    }
  }

  /** Writing inside the log region leaves the home blocks alone. */
  lemma LogRegionIsNotHome(c: Config, d: seq<Block>, b: nat, v: Block)
    requires |d| == c.nblocks && b < |d| && !c.Home(b)
    ensures HomeOf(c, d[b := v]) == HomeOf(c, d)
  {
  }

  lemma OtherCommitRefines(c: Config, s: State)
    requires Inv(c, s) && Enabled(c, s, Commit) && Inv(c, After(c, s, Commit))
    requires s.pc.WriteLog? || s.pc.ClearHead? || s.pc.Finish?
    ensures View(c, After(c, s, Commit)) == View(c, s)
  {
    var r := After(c, s, Commit);
    EmptyHead(c, r.disk);
    if s.pc.ClearHead? {
      InstalledIsDurable(c, s.disk);
      LogWriteKeepsHome(c, s, r, c.start);
    } else {
      EmptyHead(c, s.disk);
      if s.pc.WriteLog? && s.pc.tail < |s.lh| { LogWriteKeepsHome(c, s, r, c.start + 1 + s.pc.tail); }
    }
  }

  lemma LogWriteKeepsHome(c: Config, s: State, r: State, b: nat)
    requires |s.disk| == |s.mem| == c.nblocks && b < c.nblocks && !c.Home(b)
    requires |r.disk| == |r.mem| == c.nblocks
    requires r.disk == s.disk[b := r.disk[b]] && r.mem == s.mem[b := r.mem[b]]
    ensures HomeOf(c, r.disk) == HomeOf(c, s.disk) && HomeOf(c, r.mem) == HomeOf(c, s.mem)
  {
    LogRegionIsNotHome(c, s.mem, b, r.mem[b]);
    LogRegionIsNotHome(c, s.disk, b, r.disk[b]);
  }

  lemma InstallRefines(c: Config, s: State)
    requires Inv(c, s) && Enabled(c, s, Commit) && Inv(c, After(c, s, Commit)) && s.pc.Install?
    ensures View(c, After(c, s, Commit)) == View(c, s)
  {
    if s.pc.tail < |s.lh| {
      InstallShape(c, s);
      JustLogged(c, s);
      JustLogged(c, After(c, s, Commit));
    }
  }

  /** The header write makes exactly the cached contents durable. */
  lemma WriteHeadCommits(c: Config, s: State)
    requires Inv(c, s) && s.pc.WriteHead? && Inv(c, CommitStep(c, s))
    ensures Durable(c, CommitStep(c, s).disk) == HomeOf(c, s.mem) == HomeOf(c, CommitStep(c, s).mem)
  {
    var r := CommitStep(c, s);
    LogRegionIsNotHome(c, s.mem, c.start, r.mem[c.start]);
    JustLogged(c, r);
  }

  lemma JustLogged(c: Config, r: State)
    requires Inv(c, r) && r.pc.Install?
    ensures Durable(c, r.disk) == HomeOf(c, r.mem)
  {
    forall b: nat | c.Home(b) ensures LoggedOrSame(c, r.disk, r.mem, r.lh, b) { JustLoggedAt(c, r, b); }
    LoggedIsDurable(c, r.disk, r.mem, r.lh);
  }

  lemma JustLoggedAt(c: Config, r: State, b: nat)
    requires Inv(c, r) && r.pc.Install? && c.Home(b)
    ensures LoggedOrSame(c, r.disk, r.mem, r.lh, b)
  {
    assert !Dirty(r, b);
    if b in r.lh { assert r.lh[IndexOf(r.lh, b)] == b; }
  }

  /** Block b is in the log as it is in mem, or is not logged and is on disk as in mem. */
  ghost predicate LoggedOrSame(c: Config, d: seq<Block>, mem: seq<Block>, lh: seq<nat>, b: nat)
    requires c.Valid() && |d| == |mem| == c.nblocks && HeadOk(c, lh) && c.Home(b)
  {
    mem[b] == if b in lh then d[c.start + 1 + IndexOf(lh, b)] else d[b]
  }

  lemma LoggedIsDurable(c: Config, d: seq<Block>, mem: seq<Block>, lh: seq<nat>)
    requires c.Valid() && |d| == |mem| == c.nblocks && HeadOk(c, lh) && lh == Head(c, d)
    requires forall b: nat :: c.Home(b) ==> LoggedOrSame(c, d, mem, lh, b)
    ensures Durable(c, d) == HomeOf(c, mem)
  {
    forall b: nat | c.Home(b) ensures Durable(c, d)[b] == mem[b] { assert LoggedOrSame(c, d, mem, lh, b); }
  }

  /** Copying a logged block home does not change what recovery would produce. */
  lemma InstallIsIdempotent(c: Config, d: seq<Block>, t: nat)
    requires c.Valid() && |d| == c.nblocks && HeadOk(c, Head(c, d)) && t < |Head(c, d)|
    ensures Head(c, d[Head(c, d)[t] := d[c.start + 1 + t]]) == Head(c, d)
    ensures Durable(c, d[Head(c, d)[t] := d[c.start + 1 + t]]) == Durable(c, d)
  {
  }

  lemma InstalledIsDurable(c: Config, d: seq<Block>)
    requires c.Valid() && |d| == c.nblocks && HeadOk(c, Head(c, d))
    requires forall i :: 0 <= i < |Head(c, d)| ==> d[Head(c, d)[i]] == d[c.start + 1 + i]
    ensures Durable(c, d) == HomeOf(c, d)
  {
  }

  lemma RecoverRefines(c: Config, s: State)
    requires Inv(c, s) && Enabled(c, s, Recover) && Inv(c, After(c, s, Recover))
    ensures View(c, After(c, s, Recover)) == View(c, s)
  {
    var r := After(c, s, Recover);
    if s.pc.Reinstall? {
      if s.pc.tail < |s.lh| { ReinstallRefines(c, s); }
    } else if s.pc.ReclearHead? {
      ReclearRefines(c, s);
    }
  }

  lemma ReinstallRefines(c: Config, s: State)
    requires Inv(c, s) && Enabled(c, s, Recover) && Inv(c, After(c, s, Recover))
    requires s.pc.Reinstall? && s.pc.tail < |s.lh|
    ensures View(c, After(c, s, Recover)) == View(c, s)
  {
    var r, t := After(c, s, Recover), s.pc.tail;
    assert r.disk == s.disk[Head(c, s.disk)[t] := s.disk[c.start + 1 + t]];
    InstallIsIdempotent(c, s.disk, t);
  }

  lemma ReclearRefines(c: Config, s: State)
    requires Inv(c, s) && Enabled(c, s, Recover) && Inv(c, After(c, s, Recover)) && s.pc.ReclearHead?
    ensures View(c, After(c, s, Recover)) == View(c, s)
  {
    var r := After(c, s, Recover);
    InstalledIsDurable(c, s.disk);
    EmptyHead(c, r.disk);
    LogWriteKeepsHome(c, s, r, c.start);
  }

  // ----- whole runs

  ghost predicate Step(c: Config, s: State, a: Action, r: State) {
    Shape(c, s) && Enabled(c, s, a) && r == After(c, s, a)
  }

  datatype Run = Start(first: State) | More(prev: Run, a: Action, now: State) {
    ghost function First(): State {
      if Start? then first else prev.First()
    }

    ghost function Last(): State {
      if Start? then first else now
    }

    /** The run up to the last crash, when all that followed it was recovery. */
    ghost function BeforeCrash(): Run {
      if More? && (a.Crash? || a.Recover?) then prev.BeforeCrash() else this
    }

    /** Some action of the run is a crash, and only crashes and recovery follow it. */
    ghost predicate JustCrashed() {
      More? && (a.Crash? || (a.Recover? && prev.JustCrashed()))
    }
  }

  /** A legal run.  The two predicates between RunOk and Step keep the definition of a
      step folded until a proof names Justified. */
  ghost predicate RunOk(c: Config, run: Run)
    decreases run, 2
  {
    Legal(c, run)
  }

  ghost predicate Legal(c: Config, run: Run)
    decreases run, 1
  {
    Justified(c, run)
  }

  /** The run starts well, or its last step is a step of the machine. */
  ghost predicate Justified(c: Config, run: Run)
    decreases run, 0
  {
    match run
    case Start(s) => Inv(c, s)
    case More(prev, a, s) => RunOk(c, prev) && Step(c, prev.Last(), a, s)
  }

  lemma Unfold(c: Config, run: Run)
    ensures RunOk(c, run) <==> Justified(c, run)
  {
    assert RunOk(c, run) <==> Legal(c, run);
    assert Legal(c, run) <==> Justified(c, run);
  }

  lemma {:induction false} RunKeepsInv(c: Config, run: Run)
    requires RunOk(c, run)
    ensures Inv(c, run.Last())
  {
    Unfold(c, run);
    if run.More? {
      RunKeepsInv(c, run.prev);
      StepKeepsInv(c, run.prev.Last(), run.a);
    }
  }

  /** The atomic store driven by the same run. */
  ghost function StoreOf(c: Config, run: Run): Store
    requires RunOk(c, run)
  {
    Unfold(c, run);
    match run
    case Start(s) => View(c, s)
    case More(prev, a, s) => StoreAfter(StoreOf(c, prev), Effect(prev.Last(), a))
  }

  /** The contents when the last group was committed. */
  ghost function Committed(c: Config, run: Run): Contents
    requires RunOk(c, run)
  {
    Unfold(c, run);
    match run
    case Start(s) => Durable(c, s.disk)
    case More(prev, a, s) =>
      if a.Commit? && prev.Last().pc.WriteHead? then HomeOf(c, prev.Last().mem) else Committed(c, prev)
  }

  /** In every run the log behaves as the atomic store does, and what is durable is
      exactly what was cached when the last group committed: never a mixture. */
  lemma {:induction false} RunRefines(c: Config, run: Run)
    requires RunOk(c, run)
    ensures Inv(c, run.Last())
    ensures View(c, run.Last()) == StoreOf(c, run)
    ensures Durable(c, run.Last().disk) == Committed(c, run)
  {
    Unfold(c, run);
    if run.More? {
      RunRefines(c, run.prev);
      StepRefines(c, run.prev.Last(), run.a);
      DurableStep(c, run.prev.Last(), run.a);
    }
  }

  /** Only the first header write of a commit changes what is durable, it does so with
      no operation open, and it makes everything cached durable. */
  lemma DurableStep(c: Config, s: State, a: Action)
    requires Inv(c, s) && Enabled(c, s, a) && Inv(c, After(c, s, a))
    ensures if a.Commit? && s.pc.WriteHead?
            then s.ops == map[] && Durable(c, After(c, s, a).disk) == HomeOf(c, s.mem)
            else Durable(c, After(c, s, a).disk) == Durable(c, s.disk)
  {
    StepRefines(c, s, a);
    assert View(c, s).durable == Durable(c, s.disk);
    assert View(c, After(c, s, a)).durable == Durable(c, After(c, s, a).disk);
  }

  /** After a crash at any point and any number of further crashes inside recovery, once
      recovery completes the home blocks are, on disk and as read, those of the last
      group committed before the first of these crashes. */
  lemma CrashAtomicity(c: Config, run: Run)
    requires RunOk(c, run) && run.JustCrashed() && run.Last().pc.Idle?
    ensures Inv(c, run.Last()) && RunOk(c, run.BeforeCrash())
    ensures HomeOf(c, run.Last().disk) == HomeOf(c, run.Last().mem) == Committed(c, run.BeforeCrash())
    ensures run.Last().ops == map[] && run.Last().lh == []
  {
    RunRefines(c, run);
    CrashedRun(c, run);
    QuiescentIsDurable(c, run.Last());
    EmptyHead(c, run.Last().disk);
  }

  lemma {:induction false} CrashedRun(c: Config, run: Run)
    requires RunOk(c, run)
    ensures RunOk(c, run.BeforeCrash())
    ensures Committed(c, run) == Committed(c, run.BeforeCrash())
    ensures run.JustCrashed() ==> run.Last().ops == map[] && !run.Last().panicked
  {
    Unfold(c, run);
    if run.More? {
      CrashedRun(c, run.prev);
    }
  }

  /** A quiescent system has lost nothing: what readers see is already durable. */
  lemma QuiescentIsDurable(c: Config, s: State)
    requires Quiescent(c, s)
    ensures View(c, s).cached == View(c, s).durable
  {
    assert forall b :: !Dirty(s, b);
    EmptyHead(c, s.disk);
    assert HomeOf(c, s.mem) == HomeOf(c, s.disk);
  }
}
