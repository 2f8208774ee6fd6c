/**
  kernel/log.c as code: the loops of write_log, install_trans, write_head and
  read_head, log_write's absorption search, and begin_op / end_op.  Every block write
  is recorded in a ghost trace, and every method keeps that trace a run of RedoLog, so
  the theorems about runs hold at each point where this code could crash.
 */
module LogCode {
  import opened RedoLog

  /** The logged blocks that a commit has still to install; in recovery there are none. */
  function Pending(pc: Pc, lh: seq<nat>): seq<nat> {
    if PinsNone(pc) then [] else if pc.Install? then (if pc.tail <= |lh| then lh[pc.tail..] else []) else lh
  }

  /** The pins that the log holds on cached blocks. */
  ghost function Pinned(pc: Pc, lh: seq<nat>): multiset<nat> {
    multiset(Pending(pc, lh))
  }

  /** The same, unfolded only by the lemmas below. */
  ghost predicate PinsAre(pins: multiset<nat>, pc: Pc, lh: seq<nat>, wrap: nat) {
    if wrap > 0 then PinsAre(pins, pc, lh, wrap - 1) else pins == Pinned(pc, lh)
  }

  lemma {:induction false} PinsIs(pins: multiset<nat>, pc: Pc, lh: seq<nat>, wrap: nat)
    ensures PinsAre(pins, pc, lh, wrap) <==> pins == Pinned(pc, lh)
  {
    if wrap > 0 { PinsIs(pins, pc, lh, wrap - 1); }
  }

  predicate PinsNone(pc: Pc) {
    pc.Boot? || pc.Reinstall? || pc.ReclearHead? || pc.ClearHead?
  }

  predicate PinsAll(pc: Pc) {
    pc.Idle? || pc.WriteLog? || pc.WriteHead? || pc.Finish? || pc == Install(0)
  }

  /** The steps at which pins stay as they are. */
  predicate Keeps(pc: Pc, lh: seq<nat>, pc': Pc, lh': seq<nat>) {
    || (PinsAll(pc) && PinsAll(pc') && lh' == lh)
    || ((PinsNone(pc) || pc == Install(|lh|)) && (PinsNone(pc') || (PinsAll(pc') && lh' == [])))
  }

  lemma PinnedAll(pc: Pc, lh: seq<nat>)
    requires PinsAll(pc)
    ensures Pinned(pc, lh) == multiset(lh)
  {
    assert lh[0..] == lh;
  }

  lemma SamePinned(pc: Pc, lh: seq<nat>, pc': Pc, lh': seq<nat>)
    requires Keeps(pc, lh, pc', lh')
    ensures Pinned(pc', lh') == Pinned(pc, lh)
  {
    if PinsAll(pc) && PinsAll(pc') && lh' == lh {
      PinnedAll(pc, lh);
      PinnedAll(pc', lh');
    } else {
      assert lh[|lh|..] == [];
      if PinsAll(pc') { PinnedAll(pc', []); }
    }
  }

  lemma PinsStay(pins: multiset<nat>, pc: Pc, lh: seq<nat>, pc': Pc, lh': seq<nat>, wrap: nat)
    requires PinsAre(pins, pc, lh, wrap) && Keeps(pc, lh, pc', lh')
    ensures PinsAre(pins, pc', lh', wrap)
  {
    PinsIs(pins, pc, lh, wrap);
    PinsIs(pins, pc', lh', wrap);
    SamePinned(pc, lh, pc', lh');
  }

  lemma PinsAdd(pins: multiset<nat>, lh: seq<nat>, b: nat, wrap: nat)
    requires PinsAre(pins, Idle, lh, wrap)
    ensures PinsAre(pins + multiset{b}, Idle, lh + [b], wrap)
  {
    PinsIs(pins, Idle, lh, wrap);
    PinsIs(pins + multiset{b}, Idle, lh + [b], wrap);
  }

  lemma PinsDrop(pins: multiset<nat>, lh: seq<nat>, tail: nat, wrap: nat)
    requires tail < |lh| && PinsAre(pins, Install(tail), lh, wrap)
    ensures PinsAre(pins - multiset{lh[tail]}, Install(tail + 1), lh, wrap)
  {
    PinsIs(pins, Install(tail), lh, wrap);
    PinsIs(pins - multiset{lh[tail]}, Install(tail + 1), lh, wrap);
    assert lh[tail..] == [lh[tail]] + lh[tail + 1..];
  }

  lemma InstallStep(c: Config, s: State, recovering: bool, tail: nat)
    requires Shape(c, s) && !s.panicked && tail < |s.lh| && s.pc == if recovering then Reinstall(tail)
      else Install(tail)
    ensures s.lh[tail] < |s.mem| == |s.disk| && c.start + tail + 1 < |s.mem|
    ensures var b, v := s.lh[tail], s.mem[c.start + tail + 1];
      Step(c, s, if recovering then Recover else Commit,
        s.(mem := s.mem[b := v], disk := s.disk[b := v],
          pc := if recovering then Reinstall(tail + 1) else Install(tail + 1)))
  {
  }

  lemma {:induction false} OnceEach(lh: seq<nat>, b: nat)
    requires Distinct(lh)
    ensures multiset(lh)[b] == if b in lh then 1 else 0
  {
    if |lh| > 0 {
      var rest := lh[..|lh| - 1];
      assert lh == rest + [lh[|lh| - 1]];
      OnceEach(rest, b);
    }
  }

  class LogDevice {
    const c: Config
    var disk: seq<Block>
    var mem: seq<Block>
    var n: nat                    // log.lh.n
    const block: array<nat>       // log.lh.block
    var pins: multiset<nat>       // bpin() calls of the log that bunpin() has not undone
    var outstanding: nat
    var committing: bool
    var panicked: bool

    ghost var ops: map<nat, Op>
    ghost var sleepers: set<nat>
    ghost var pc: Pc
    ghost var run: Run

    ghost function Now(): State
      reads this, block
      requires n <= block.Length
    {
      State(disk, mem, block[..n], ops, committing, sleepers, pc, panicked)
    }

    ghost predicate Valid()
      reads this, block
    {
      && block.Length == LOGSIZE && n <= LOGSIZE
      && outstanding == |ops|
      && RunOk(c, run)
      && run.Last() == Now()
      && Shape(c, Now())
      && PinsAre(pins, pc, block[..n], c.nblocks)
    }

    /** A freshly booted machine over the disk image d. */
    constructor (c: Config, d: seq<Block>)
      requires c.Valid() && |d| == c.nblocks && |d[c.start]| == BLOCK_WORDS && HeadOk(c, Head(c, d))
      ensures Valid() && this.c == c && disk == d && pc == Boot && fresh(block)
      ensures run == Start(Now()) && !panicked
    {
      this.c := c;
      disk, mem := d, d;
      n, outstanding, committing, panicked := 0, 0, false, false;
      pins := multiset{};
      block := new nat[LOGSIZE];
      ops, sleepers, pc := map[], {}, Boot;
      run := Start(State(d, d, [], map[], false, {}, Boot, false));
      new;
      PinsIs(pins, pc, [], c.nblocks);
      assert block[..n] == [];
      Unfold(c, run);
    }

    ghost method Record(a: Action)
      requires block.Length == LOGSIZE && n <= LOGSIZE && outstanding == |ops|
      requires RunOk(c, run) && Step(c, run.Last(), a, Now()) && PinsAre(pins, pc, block[..n], c.nblocks)
      modifies this`run
      ensures Valid() && run == More(old(run), a, Now())
    {
      run := More(run, a, Now());
      Unfold(c, run);
      RunKeepsInv(c, run);
    }

    method WriteHead()
      requires c.Valid() && |disk| == |mem| == c.nblocks && |mem[c.start]| == BLOCK_WORDS
      requires block.Length == LOGSIZE && n <= LOGSIZE
      modifies this`mem, this`disk
      ensures mem == old(mem)[c.start := EncodeHead(old(mem)[c.start], block[..n])]
      ensures disk == old(disk)[c.start := EncodeHead(old(mem)[c.start], block[..n])]
    {
      var hb := mem[c.start];
      hb := hb[0 := n];
      for i := 0 to n
        invariant |hb| == BLOCK_WORDS && hb[0] == n
        invariant hb[1..i + 1] == block[..i]
        invariant hb[n + 1..] == mem[c.start][n + 1..]
        invariant mem == old(mem) && disk == old(disk)
      {
        hb := hb[i + 1 := block[i]];
        assert hb[1..i + 2] == hb[1..i + 1] + [block[i]];
      }
      assert hb == [n] + block[..n] + mem[c.start][n + 1..];
      mem := mem[c.start := hb];
      disk := disk[c.start := hb];
    }

    method ReadHead()
      requires Valid() && pc.Boot? && !panicked
      modifies this`n, this`pc, this`run, block
      ensures Valid() && pc == Reinstall(0)
      ensures block[..n] == DecodeHead(mem[c.start])
      ensures StoreOf(c, run) == old(StoreOf(c, run))
    {
      HeadIsCached();
      CopyHead();
      PinsStay(pins, Boot, old(block[..n]), Reinstall(0), block[..n], c.nblocks);
      pc := Reinstall(0);
      Record(Recover);
    }

    /** At boot the cached header is the one on disk, and fits. */
    lemma HeadIsCached()
      requires Valid() && pc.Boot?
      ensures mem[c.start] == disk[c.start] && |mem[c.start]| == BLOCK_WORDS && |DecodeHead(mem[c.start])| <= LOGSIZE
    {
      RunKeepsInv(c, run);
      assert DecodeHead(mem[c.start]) == Head(c, disk);
    }

    /** The header block is read into log.lh. */
    method CopyHead()
      requires block.Length == LOGSIZE && c.start < |mem| && |mem[c.start]| == BLOCK_WORDS
        && |DecodeHead(mem[c.start])| <= LOGSIZE
      modifies this`n, block
      ensures n <= LOGSIZE && block[..n] == DecodeHead(mem[c.start])
    {
      var lh := mem[c.start];
      n := if lh[0] + 1 > BLOCK_WORDS then 0 else lh[0];
      for i := 0 to n
        invariant n == |DecodeHead(lh)| && n <= LOGSIZE
        invariant block[..i] == DecodeHead(lh)[..i]
      {
        block[i] := lh[i + 1];
      }
    }

    /** A block that a commit has installed loses its pin; recovery has pinned none. */
    method Unpin(recovering: bool, tail: nat)
      requires tail < n <= block.Length
      requires PinsAre(pins, if recovering then Reinstall(tail) else Install(tail), block[..n], c.nblocks)
      modifies this`pins
      ensures PinsAre(pins, if recovering then Reinstall(tail + 1) else Install(tail + 1), block[..n], c.nblocks)
    {
      if !recovering {
        PinsDrop(pins, block[..n], tail, c.nblocks);
        pins := pins - multiset{block[tail]};
      } else {
        PinsStay(pins, Reinstall(tail), block[..n], Reinstall(tail + 1), block[..n], c.nblocks);
      }
    }

    /** The copy of a block to its home, as a step. */
    ghost method BlockInstalled(recovering: bool, tail: nat, s: State)
      requires block.Length == LOGSIZE && n <= LOGSIZE && outstanding == |ops| && RunOk(c, run) && run.Last() == s
      requires Shape(c, s) && !s.panicked && tail < |s.lh| && s.pc == if recovering then Reinstall(tail)
        else Install(tail)
      requires s.lh[tail] < |s.mem| == |s.disk| && c.start + tail + 1 < |s.mem|
      requires var b, v := s.lh[tail], s.mem[c.start + tail + 1];
        Now() == s.(mem := s.mem[b := v], disk := s.disk[b := v])
      requires PinsAre(pins, if recovering then Reinstall(tail + 1) else Install(tail + 1), block[..n], c.nblocks)
      modifies this`pc, this`run
      ensures Valid() && pc == (if recovering then Reinstall(tail + 1) else Install(tail + 1))
      ensures StoreOf(c, run) == old(StoreOf(c, run))
    {
      InstallStep(c, s, recovering, tail);
      pc := if recovering then Reinstall(tail + 1) else Install(tail + 1);
      Record(if recovering then Recover else Commit);
    }

    /** At every point each logged block that is not installed yet is pinned once, and no other
        block is. */
    lemma LoggedIsPinned(b: nat)
      requires Valid()
      ensures pins[b] == if b in Pending(pc, block[..n]) then 1 else 0
    {
      PinsIs(pins, pc, block[..n], c.nblocks);
      var left := Pending(pc, block[..n]);
      assert Distinct(left);
      OnceEach(left, b);
    }

    /** One iteration of install_trans: copy a log block to its home. */
    method InstallBlock(recovering: bool, tail: nat)
      requires Valid() && !panicked && tail < n
      requires pc == if recovering then Reinstall(tail) else Install(tail)
      modifies this`mem, this`disk, this`pc, this`run, this`pins
      ensures Valid() && pc == (if recovering then Reinstall(tail + 1) else Install(tail + 1))
      ensures StoreOf(c, run) == old(StoreOf(c, run))
    {
      ghost var s := Now();
      var lbuf := mem[c.start + tail + 1];
      mem := mem[block[tail] := lbuf];
      disk := disk[block[tail] := mem[block[tail]]];
      Unpin(recovering, tail);
      BlockInstalled(recovering, tail, s);
    }

    method InstallTrans(recovering: bool)
      requires Valid() && !panicked
      requires pc == if recovering then Reinstall(0) else Install(0)
      modifies this`mem, this`disk, this`pc, this`run, this`pins
      ensures Valid() && pc == (if recovering then ReclearHead else ClearHead)
      ensures StoreOf(c, run) == old(StoreOf(c, run))
    {
      for tail := 0 to n
        invariant Valid() && pc == if recovering then Reinstall(tail) else Install(tail)
        invariant StoreOf(c, run) == old(StoreOf(c, run))
      {
        InstallBlock(recovering, tail);
      }
      Installed(recovering);
    }

    /** The end of install_trans. */
    ghost method Installed(recovering: bool)
      requires Valid() && !panicked && pc == if recovering then Reinstall(n) else Install(n)
      modifies this`pc, this`run
      ensures Valid() && pc == (if recovering then ReclearHead else ClearHead)
      ensures StoreOf(c, run) == old(StoreOf(c, run))
    {
      PinsStay(pins, pc, block[..n], if recovering then ReclearHead else ClearHead, block[..n], c.nblocks);
      pc := if recovering then ReclearHead else ClearHead;
      Record(if recovering then Recover else Commit);
    }

    /** One iteration of write_log: copy a cached block to its log slot. */
    method LogBlock(tail: nat)
      requires Valid() && !panicked && tail < n && pc == WriteLog(tail)
      modifies this`mem, this`disk, this`pc, this`run
      ensures Valid() && pc == WriteLog(tail + 1) && StoreOf(c, run) == old(StoreOf(c, run))
    {
      var from := mem[block[tail]];
      mem := mem[c.start + tail + 1 := from];
      disk := disk[c.start + tail + 1 := mem[c.start + tail + 1]];
      PinsStay(pins, pc, block[..n], WriteLog(tail + 1), block[..n], c.nblocks);
      pc := WriteLog(tail + 1);
      Record(Commit);
    }

    method WriteLogBlocks()
      requires Valid() && !panicked && pc == WriteLog(0)
      modifies this`mem, this`disk, this`pc, this`run
      ensures Valid() && pc == RedoLog.Pc.WriteHead && StoreOf(c, run) == old(StoreOf(c, run))
    {
      for tail := 0 to n
        invariant Valid() && pc == WriteLog(tail) && StoreOf(c, run) == old(StoreOf(c, run))
      {
        LogBlock(tail);
      }
      PinsStay(pins, pc, block[..n], RedoLog.Pc.WriteHead, block[..n], c.nblocks);
      pc := RedoLog.Pc.WriteHead;
      Record(Commit);
    }

    /** The header write that commits. */
    method CommitHead()
      requires Valid() && !panicked && pc == RedoLog.Pc.WriteHead
      modifies this`mem, this`disk, this`pc, this`run
      ensures Valid() && pc == Install(0) && StoreOf(c, run) == StoreAfter(old(StoreOf(c, run)), CommitAll)
    {
      WriteHead();
      PinsStay(pins, pc, block[..n], Install(0), block[..n], c.nblocks);
      pc := Install(0);
      Record(Commit);
    }

    /** The header write that empties the log. */
    method EraseLog(recovering: bool)
      requires Valid() && !panicked && pc == if recovering then ReclearHead else ClearHead
      modifies this`mem, this`disk, this`pc, this`run, this`n
      ensures Valid() && n == 0 && pc == (if recovering then Idle else Finish)
      ensures StoreOf(c, run) == old(StoreOf(c, run))
    {
      PinsStay(pins, pc, block[..n], if recovering then Idle else Finish, [], c.nblocks);
      n := 0;
      WriteHead();
      pc := if recovering then Idle else Finish;
      assert block[..n] == [];
      Record(if recovering then Recover else Commit);
    }

    /** recover_from_log, entered at boot: leaves the machine at rest with an empty log
        and the home blocks as they were when the last group committed. */
    method RecoverFromLog()
      requires Valid() && pc.Boot? && !panicked
      modifies this, block
      ensures Valid() && pc == Idle && n == 0 && !panicked
      ensures HomeOf(c, disk) == HomeOf(c, mem) == old(Committed(c, run))
    {
      RunRefines(c, run);
      ReadHead();
      InstallTrans(true);
      EraseLog(true);
      AtRest();
    }

    /** With nothing outstanding and an empty log, disk, cache and store agree. */
    lemma AtRest()
      requires Valid() && pc == Idle && ops == map[] && !panicked
      ensures HomeOf(c, disk) == HomeOf(c, mem) == StoreOf(c, run).durable == StoreOf(c, run).cached
      ensures Committed(c, run) == StoreOf(c, run).durable
    {
      RunRefines(c, run);
      QuiescentIsDurable(c, Now());
      EmptyHead(c, disk);
    }

    method DoCommit()
      requires Valid() && !panicked && committing && pc == (if n > 0 then WriteLog(0) else Finish)
      modifies this`mem, this`disk, this`pc, this`run, this`n, this`pins
      ensures Valid() && pc == Finish && n == 0
      ensures StoreOf(c, run) == StoreAfter(old(StoreOf(c, run)), if old(n) > 0 then CommitAll else Stutter)
    {
      if n > 0 {
        WriteLogBlocks();
        CommitHead();
        InstallTrans(false);
        EraseLog(false);
      }
    }

    /** begin_op up to the point where it returns or sleeps. */
    method BeginOp(ghost p: nat) returns (admitted: bool)
      requires Valid() && Enabled(c, Now(), Begin(p))
      modifies this
      ensures Valid()
      ensures admitted <==> old(Admits(Now()))
      ensures admitted ==> outstanding == old(outstanding) + 1 && ops == old(ops)[p := Op(0, {})]
      ensures !admitted ==> p in sleepers && outstanding == old(outstanding)
    {
      if committing || n + (outstanding + 1) * MAXOPBLOCKS > LOGSIZE {
        admitted := false;
        sleepers := sleepers + {p};
      } else {
        admitted := true;
        outstanding := outstanding + 1;
        ops := ops[p := Op(0, {})];
      }
      Record(Begin(p));
    }

    /** The caller changes a locked buffer. */
    method Update(ghost p: nat, b: nat, v: Block)
      requires Valid() && Enabled(c, Now(), Modify(p, b, v))
      modifies this
      ensures Valid() && mem == old(mem)[b := v] && disk == old(disk) && n == old(n)
      ensures ops == old(ops)[p := Op(old(ops)[p].added, old(ops)[p].dirty + {b})]
    {
      mem := mem[b := v];
      ops := ops[p := ops[p].(dirty := ops[p].dirty + {b})];
      Record(Modify(p, b, v));
    }

    /** log_write's search for a block that is in the log already. */
    method FindLogged(b: nat) returns (i: nat)
      requires n <= block.Length
      ensures i <= n && (b in block[..n] <==> i < n) && (i < n ==> block[i] == b)
    {
      i := 0;
      while i < n && block[i] != b
        invariant i <= n
        invariant forall k :: 0 <= k < i ==> block[k] != b
      {
        i := i + 1;
      }
      assert i < n ==> block[..n][i] == b;
    }

    /** The block goes to its place in the log, and is pinned if it is new there. */
    method AddToLog(ghost p: nat, b: nat)
      requires Valid() && !panicked && Enabled(c, Now(), Log(p, b)) && n < c.Capacity()
      modifies this`n, this`ops, this`pins, this`run, block
      ensures Valid()
      ensures block[..n] == if b in old(block[..n]) then old(block[..n]) else old(block[..n]) + [b]
      ensures pins == if b in old(block[..n]) then old(pins) else old(pins) + multiset{b}
    {
      var i := FindLogged(b);
      ghost var lh := block[..n];
      block[i] := b;
      if i == n {
        assert block[..n + 1] == lh + [b];
        OpenIsIdle(p);
        PinsAdd(pins, lh, b, c.nblocks);
        pins := pins + multiset{b};
        n := n + 1;
        ops := ops[p := Op(ops[p].added + 1, ops[p].dirty - {b})];
      } else {
        assert block[..n] == lh;
        ops := ops[p := ops[p].(dirty := ops[p].dirty - {b})];
      }
      Record(Log(p, b));
    }

    /** log_write of a buffer modified by operation p.  It panics if the log is full, and
        outside of any operation. */
    method LogWrite(ghost p: nat, b: nat)
      requires Valid() && !panicked && (outstanding >= 1 ==> Enabled(c, Now(), Log(p, b)))
      modifies this, block
      ensures disk == old(disk) && mem == old(mem) && (old(outstanding) >= 1 ==> Valid())
      ensures panicked <==> old(n) >= c.Capacity() || old(outstanding) < 1
      ensures panicked ==>
        n == old(n) && block[..] == old(block[..]) && pins == old(pins) && outstanding == old(outstanding)
          && committing == old(committing)
      ensures !panicked ==> block[..n] == if b in old(block[..n]) then old(block[..n]) else old(block[..n]) + [b]
      ensures !panicked ==> pins == if b in old(block[..n]) then old(pins) else old(pins) + multiset{b}
    {
      if n >= LOGSIZE || n >= c.size - 1 {
        panicked := true;
        if outstanding >= 1 {
          Record(Log(p, b));
        }
        return;
      }
      if outstanding < 1 {
        panicked := true;
        return;
      }
      AddToLog(p, b);
    }

    /** The first critical section of end_op; its panic cannot happen. */
    method Leave(ghost p: nat)
      requires Valid() && Enabled(c, Now(), End(p))
      modifies this`outstanding, this`ops, this`committing, this`pc, this`sleepers, this`run
      ensures Valid() && !panicked && outstanding == old(outstanding) - 1 && ops == old(ops) - {p}
      ensures StoreOf(c, run) == StoreAfter(old(StoreOf(c, run)), Close(p))
      ensures if outstanding == 0 then committing && pc == (if n > 0 then WriteLog(0) else Finish)
              else !committing && sleepers == {}
    {
      OpenIsIdle(p);
      assert |ops - {p}| == |ops| - 1;
      outstanding := outstanding - 1;
      ops := ops - {p};
      if committing {
        assert false;    // panic("log.committing")
      }
      if outstanding == 0 {
        assert ops == map[];
        committing := true;
        PinsStay(pins, pc, block[..n], if n > 0 then WriteLog(0) else Finish, block[..n], c.nblocks);
        pc := if n > 0 then WriteLog(0) else Finish;
      } else {
        sleepers := {};
      }
      Record(End(p));
    }

    /** While an operation is open, nothing commits. */
    lemma OpenIsIdle(p: nat)
      requires Valid() && p in ops
      ensures pc.Idle? && !committing
    {
      RunKeepsInv(c, run);
    }

    /** The second critical section of end_op, after commit(). */
    method CommitDone()
      requires Valid() && !panicked && committing && pc == Finish
      modifies this`committing, this`pc, this`sleepers, this`run
      ensures Valid() && !committing && pc == Idle && sleepers == {}
      ensures StoreOf(c, run) == old(StoreOf(c, run))
    {
      committing := false;
      sleepers := {};
      PinsStay(pins, pc, block[..n], Idle, block[..n], c.nblocks);
      pc := Idle;
      Record(Commit);
    }

    /** The committing half of end_op. */
    method CommitGroup()
      requires Valid() && !panicked && committing && pc == (if n > 0 then WriteLog(0) else Finish)
      modifies this`mem, this`disk, this`pc, this`run, this`n, this`committing, this`sleepers, this`pins
      ensures Valid() && pc == Idle && n == 0 && sleepers == {} && pins == multiset{}
      ensures HomeOf(c, disk) == HomeOf(c, mem) == old(StoreOf(c, run).cached)
    {
      NothingLogged();
      DoCommit();
      CommitDone();
      PinsIs(pins, pc, block[..n], c.nblocks);
      AtRest();
    }

    /** end_op: the last operation out commits the whole group. */
    method EndOp(ghost p: nat)
      requires Valid() && Enabled(c, Now(), End(p))
      modifies this
      ensures Valid() && outstanding == old(outstanding) - 1 && ops == old(ops) - {p}
      ensures outstanding == 0 ==> HomeOf(c, disk) == HomeOf(c, mem) == old(HomeOf(c, mem)) && pc == Idle && n == 0
      ensures outstanding == 0 ==> pins == multiset{}
      ensures outstanding > 0 ==> disk == old(disk) && mem == old(mem)
      ensures sleepers == {}
    {
      OpenStore(p);
      Leave(p);
      if outstanding == 0 {
        CommitGroup();
      }
    }

    lemma OpenStore(p: nat)
      requires Valid() && p in ops
      ensures StoreOf(c, run).cached == HomeOf(c, mem)
    {
      RunRefines(c, run);
    }

    /** When the last operation leaves an empty log there is nothing to make durable. */
    lemma NothingLogged()
      requires Valid() && !panicked && committing && pc == (if n > 0 then WriteLog(0) else Finish)
      ensures n == 0 ==> StoreOf(c, run).cached == StoreOf(c, run).durable
      ensures ops == map[]
    {
      RunRefines(c, run);
      if n == 0 {
        assert block[..n] == [];
        assert forall b :: !Dirty(Now(), b);
        EmptyHead(c, disk);
        assert HomeOf(c, mem) == HomeOf(c, disk);
      }
    }
  }
}
