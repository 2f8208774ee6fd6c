/**
  Sv39 page tables (section 4.4 of the RISC-V Privileged Architecture, version 20211203) as
  kernel/vm.c and kernel/riscv.h use them.  Physical pages are numbered; a page holds 512
  words.  Every page that the allocator manages has one role.
 */
module PageTable {

  const NPTE := 512
  const PGSIZE := 4096
  const MAXVA := 0x40_0000_0000     // 1 << 38
  const MAXVPN := 0x400_0000

  // ----- entries

  datatype Flags = Flags(v: bool, r: bool, w: bool, x: bool, u: bool, other: nat)

  /** A 64-bit word, read as an entry: a page number and 10 bits of flags. */
  datatype Word = Word(ppn: nat, flags: Flags)

  const NONE := Flags(false, false, false, false, false, 0)
  const ZERO := Word(0, NONE)

  function Bit(b: bool): nat { if b then 1 else 0 }

  /** The 10 flag bits, from PTE_V in bit 0 to PTE_U in bit 4. */
  function EncodeFlags(f: Flags): nat {
    Bit(f.v) + 2 * Bit(f.r) + 4 * Bit(f.w) + 8 * Bit(f.x) + 16 * Bit(f.u) + 32 * f.other
  }

  function DecodeFlags(n: nat): Flags {
    Flags(n % 2 == 1, n / 2 % 2 == 1, n / 4 % 2 == 1, n / 8 % 2 == 1, n / 16 % 2 == 1, n / 32)
  }

  lemma FlagsRoundTrip(f: Flags)
    requires f.other < 32
    ensures EncodeFlags(f) < 1024 && DecodeFlags(EncodeFlags(f)) == f
  {
    var n := EncodeFlags(f);
    assert n / 2 == Bit(f.r) + 2 * (Bit(f.w) + 2 * (Bit(f.x) + 2 * (Bit(f.u) + 2 * f.other)));
    assert n / 4 == Bit(f.w) + 2 * (Bit(f.x) + 2 * (Bit(f.u) + 2 * f.other));
    assert n / 8 == Bit(f.x) + 2 * (Bit(f.u) + 2 * f.other);
    assert n / 16 == Bit(f.u) + 2 * f.other;
  }

  /** PA2PTE(pa) | flags for the address of a page. */
  function Encode(w: Word): nat { PA2PTE(PGSIZE * w.ppn) + EncodeFlags(w.flags) }

  function Decode(n: nat): Word { Word(PTE2PA(n) / PGSIZE, DecodeFlags(n % 1024)) }

  function PA2PTE(pa: nat): nat { pa / 4096 * 1024 }

  function PTE2PA(e: nat): nat { e / 1024 * 4096 }

  /** An entry gives back the page and the flags. */
  lemma WordRoundTrip(w: Word)
    requires w.flags.other < 32
    ensures Decode(Encode(w)) == w
  {
    FlagsRoundTrip(w.flags);
    assert PGSIZE * w.ppn / 4096 == w.ppn;
    var n := EncodeFlags(w.flags);
    assert (w.ppn * 1024 + n) / 1024 == w.ppn && (w.ppn * 1024 + n) % 1024 == n;
  }

  /** The same with the shifts and masks of riscv.h. */
  lemma PteBits(pa: bv64, flags: bv64)
    requires pa & 0xFFF == 0 && pa >> 56 == 0 && flags & 0x3FF == flags
    ensures var e := ((pa >> 12) << 10) | flags; (e >> 10) << 12 == pa && e & 0x3FF == flags
  {
  }

  predicate V(e: Word) { e.flags.v }

  /** Some of R, W and X are set. */
  predicate Leaf(f: Flags) { f.r || f.w || f.x }

  const JUST_V := NONE.(v := true)

  // ----- virtual addresses

  /** A virtual page number, as its three 9-bit indices. */
  datatype Vpn = Vpn(i2: nat, i1: nat, i0: nat)

  /** The index at a level. */
  function PX(level: nat, v: Vpn): nat {
    if level == 0 then v.i0 else if level == 1 then v.i1 else v.i2
  }

  /** The indices of a virtual page number, bits 18..26, 9..17 and 0..8 of it. */
  function Split(n: nat): (v: Vpn)
    ensures v.i0 < NPTE && v.i1 < NPTE && v.i2 < NPTE
  {
    Vpn(n / 262144 % 512, n / 512 % 512, n % 512)
  }

  function Join(v: Vpn): nat {
    v.i2 * 262144 + v.i1 * 512 + v.i0
  }

  /** Below MAXVA the indices determine the page. */
  lemma SplitJoin(n: nat)
    requires n < MAXVPN
    ensures Join(Split(n)) == n && Split(n).i2 < NPTE / 2
  {
    assert n / 512 / 512 == n / 262144;
  }

  lemma JoinSplit(v: Vpn)
    requires v.i2 < NPTE / 2 && v.i1 < NPTE && v.i0 < NPTE
    ensures Join(v) < MAXVPN && Split(Join(v)) == v
  {
    var n := Join(v);
    assert n / 512 == v.i2 * 512 + v.i1;
    assert n / 262144 == v.i2;
  }

  // ----- memory

  type Mem = map<nat, seq<Word>>

  datatype Slot = Slot(page: nat, i: nat)

  /** What a page is used for.  A root is at level 2, and its slot means nothing.  A lent page
      belongs to the kernel and may be mapped; a held one is in use and mapped nowhere.  The
      path of a page is its root followed by the indices that lead to it. */
  datatype Role = Free | Table(lvl: nat, up: Slot, path: seq<nat>) | User(up: Slot, path: seq<nat>) | Held | Lent

  type Roles = map<nat, Role>

  function Get(mem: Mem, s: Slot): Word {
    if s.page in mem && s.i < |mem[s.page]| then mem[s.page][s.i] else ZERO
  }

  function Put(mem: Mem, s: Slot, e: Word): Mem
    requires s.page in mem && s.i < |mem[s.page]|
  {
    mem[s.page := mem[s.page][s.i := e]]
  }

  /** The slot of level `level` on the way to vpn, if all entries above it are valid. */
  function SlotAt(mem: Mem, r: nat, vpn: Vpn, level: nat): (s: Slot)
    requires level <= 2
    ensures s.i == PX(level, vpn)
    decreases 2 - level
  {
    if level == 2 then Slot(r, PX(2, vpn))
    else Slot(Get(mem, SlotAt(mem, r, vpn, level + 1)).ppn, PX(level, vpn))
  }

  predicate Reaches(mem: Mem, r: nat, vpn: Vpn, level: nat)
    requires level <= 2
    decreases 2 - level
  {
    level == 2 || (Reaches(mem, r, vpn, level + 1) && V(Get(mem, SlotAt(mem, r, vpn, level + 1))))
  }

  /** The translation of a virtual page: its leaf entry, or ZERO. */
  function Lookup(mem: Mem, r: nat, vpn: Vpn): Word {
    if Reaches(mem, r, vpn, 0) then Get(mem, SlotAt(mem, r, vpn, 0)) else ZERO
  }

  // ----- the invariant

  ghost predicate IsTable(role: Roles, p: nat) { p in role && role[p].Table? && role[p].lvl <= 2 }

  /** The path of a page below slot s. */
  ghost function Below(role: Roles, s: Slot): seq<nat>
    requires IsTable(role, s.page)
  {
    role[s.page].path + [s.i]
  }

  /** A table page is held by the slot it names, unless that is a hole. */
  ghost predicate HeldUp(mem: Mem, role: Roles, hole: set<Slot>, c: nat)
    requires c in role
  {
    match role[c]
    case Table(l, up, path) =>
      && l <= 2 && |path| == 3 - l && (l == 2 ==> path == [c])
      && (l < 2 && up !in hole ==>
          IsTable(role, up.page) && role[up.page].lvl == l + 1 && up.i < NPTE && path == Below(role, up)
          && Get(mem, up) == Word(c, JUST_V))
    case User(up, path) =>
      && up !in hole && IsTable(role, up.page) && role[up.page].lvl == 0 && up.i < NPTE && path == Below(role, up)
      && V(Get(mem, up)) && Get(mem, up).ppn == c
    case Free => true
    case Held => true
    case Lent => true
  }

  /** A valid entry of a table points one level down, or is a leaf whose page nobody else
      has; an invalid one is zero.  Only the lower half of a root is used. */
  ghost predicate EntryOk(mem: Mem, role: Roles, hole: set<Slot>, s: Slot) {
    s in hole || !IsTable(role, s.page) || s.i >= NPTE ||
    var e := Get(mem, s);
    e == ZERO || (V(e) &&
      if role[s.page].lvl > 0 then Down(role, s, e) && (role[s.page].lvl == 2 ==> s.i < NPTE / 2)
      else Leaf(e.flags) && OwnLeaf(role, s, e))
  }

  ghost predicate Down(role: Roles, s: Slot, e: Word)
    requires IsTable(role, s.page) && role[s.page].lvl > 0
  {
    e == Word(e.ppn, JUST_V) && e.ppn in role && role[e.ppn] == Table(role[s.page].lvl - 1, s, Below(role, s))
  }

  ghost predicate OwnLeaf(role: Roles, s: Slot, e: Word)
    requires IsTable(role, s.page)
  {
    e.ppn in role ==> role[e.ppn] == User(s, Below(role, s)) || role[e.ppn] == Lent
  }

  ghost predicate Distinct(free: seq<nat>) {
    forall j, k :: 0 <= j < k < |free| ==> free[j] != free[k]
  }

  /** A page is on the free list exactly if its role is Free. */
  ghost predicate Listed(free: seq<nat>, role: Roles, p: nat) {
    p in free <==> p in role && role[p] == Free
  }

  ghost predicate FreeOk(free: seq<nat>, role: Roles) {
    Distinct(free) && forall p: nat :: Listed(free, role, p)
  }

  ghost predicate PageOk(mem: Mem, role: Roles, hole: set<Slot>, c: nat) {
    c in role ==> c in mem && |mem[c]| == NPTE && HeldUp(mem, role, hole, c)
  }

  ghost predicate Inv(mem: Mem, free: seq<nat>, role: Roles, hole: set<Slot>) {
    && FreeOk(free, role)
    && (forall c: nat :: PageOk(mem, role, hole, c))
    && (forall s :: EntryOk(mem, role, hole, s))
  }

  // ----- paths

  ghost predicate Root(role: Roles, r: nat) { IsTable(role, r) && role[r].lvl == 2 }

  /** The indices of vpn from the root down to a level. */
  ghost function PathTo(r: nat, vpn: Vpn, level: nat): (path: seq<nat>)
    requires level <= 2
    ensures |path| == 3 - level
    decreases 2 - level
  {
    if level == 2 then [r] else PathTo(r, vpn, level + 1) + [PX(level + 1, vpn)]
  }

  /** The pages that a walk comes to are tables with the path of the walk. */
  lemma {:induction false} OnPath(mem: Mem, free: seq<nat>, role: Roles, r: nat, vpn: Vpn, level: nat)
    requires Inv(mem, free, role, {}) && Root(role, r) && level <= 2 && Reaches(mem, r, vpn, level)
    ensures var p := SlotAt(mem, r, vpn, level).page;
      IsTable(role, p) && role[p].lvl == level && role[p].path == PathTo(r, vpn, level)
    decreases 2 - level
  {
    if level < 2 {
      OnPath(mem, free, role, r, vpn, level + 1);
      var s := SlotAt(mem, r, vpn, level + 1);
      assert PageOk(mem, role, {}, s.page) && EntryOk(mem, role, {}, s);
    } else {
      assert PageOk(mem, role, {}, r);
    }
  }

  /** Distinct virtual pages, or tables, reach distinct leaf slots. */
  lemma DistinctLeaves(mem: Mem, free: seq<nat>, role: Roles, r: nat, v: Vpn, r': nat, v': Vpn)
    requires Inv(mem, free, role, {}) && Root(role, r) && Root(role, r')
    requires Reaches(mem, r, v, 0) && Reaches(mem, r', v', 0) && (r != r' || v != v')
    ensures SlotAt(mem, r, v, 0) != SlotAt(mem, r', v', 0)
  {
    OnPath(mem, free, role, r, v, 0);
    OnPath(mem, free, role, r', v', 0);
    var a, b := PathTo(r, v, 0), PathTo(r', v', 0);
    assert a == [r, v.i2, v.i1] && b == [r', v'.i2, v'.i1];
    assert a[0] == r && a[1] == v.i2 && a[2] == v.i1 && b[0] == r' && b[1] == v'.i2 && b[2] == v'.i1;
  }

  // ----- one entry changes

  /** The tables of role hold the same entries, except at slot s. */
  ghost predicate AgreeBut(mem: Mem, mem': Mem, role: Roles, s: Slot) {
    forall t: Slot :: IsTable(role, t.page) && t != s ==> Get(mem', t) == Get(mem, t)
  }

  lemma {:induction false} PathKept(mem: Mem, free: seq<nat>, role: Roles, mem': Mem, s: Slot, r: nat, v: Vpn,
      level: nat)
    requires Inv(mem, free, role, {}) && Root(role, r) && level <= 2 && Reaches(mem, r, v, level)
    requires AgreeBut(mem, mem', role, s) && IsTable(role, s.page) && (role[s.page].lvl == 0 || !V(Get(mem, s)))
    ensures Reaches(mem', r, v, level) && SlotAt(mem', r, v, level) == SlotAt(mem, r, v, level)
    decreases 2 - level
  {
    if level < 2 {
      PathKept(mem, free, role, mem', s, r, v, level + 1);
      OnPath(mem, free, role, r, v, level + 1);
    }
  }

  /** The level at which a walk that finds no leaf slot stops. */
  ghost function Stop(mem: Mem, r: nat, v: Vpn, level: nat): (k: nat)
    requires level <= 2 && !Reaches(mem, r, v, level)
    ensures level < k <= 2 && Reaches(mem, r, v, k) && !V(Get(mem, SlotAt(mem, r, v, k)))
    decreases 2 - level
  {
    if Reaches(mem, r, v, level + 1) then level + 1 else Stop(mem, r, v, level + 1)
  }

  lemma {:induction false} StopStays(mem: Mem, r: nat, v: Vpn, k: nat, level: nat)
    requires level < k <= 2 && !V(Get(mem, SlotAt(mem, r, v, k)))
    ensures !Reaches(mem, r, v, level)
    decreases k - level
  {
    if level + 1 < k { StopStays(mem, r, v, k, level + 1); }
  }

  /** Storing a leaf entry changes the one translation that uses its slot. */
  lemma SetLeafLookup(mem: Mem, free: seq<nat>, role: Roles, mem': Mem, s: Slot, e: Word, r: nat, v: Vpn)
    requires Inv(mem, free, role, {}) && Root(role, r)
    requires IsTable(role, s.page) && role[s.page].lvl == 0 && AgreeBut(mem, mem', role, s) && Get(mem', s) == e
    ensures Lookup(mem', r, v) == if Reaches(mem, r, v, 0) && SlotAt(mem, r, v, 0) == s then e else Lookup(mem, r, v)
    ensures Reaches(mem, r, v, 0) ==> Reaches(mem', r, v, 0) && SlotAt(mem', r, v, 0) == SlotAt(mem, r, v, 0)
  {
    if Reaches(mem, r, v, 0) {
      PathKept(mem, free, role, mem', s, r, v, 0);
      OnPath(mem, free, role, r, v, 0);
    } else {
      var k := Stop(mem, r, v, 0);
      PathKept(mem, free, role, mem', s, r, v, k);
      OnPath(mem, free, role, r, v, k);
      StopStays(mem', r, v, k, 0);
    }
  }

  ghost predicate IsZero(row: seq<Word>) {
    |row| == NPTE && forall i :: 0 <= i < NPTE ==> row[i] == ZERO
  }

  /** Hanging an empty table into an invalid entry changes no translation. */
  lemma HangTableLookup(mem: Mem, free: seq<nat>, role: Roles, mem': Mem, s: Slot, c: nat, r: nat, v: Vpn)
    requires Inv(mem, free, role, {}) && Root(role, r)
    requires IsTable(role, s.page) && role[s.page].lvl > 0 && Get(mem, s) == ZERO
    requires AgreeBut(mem, mem', role, s) && Get(mem', s) == Word(c, JUST_V) && c in mem' && IsZero(mem'[c])
    ensures Lookup(mem', r, v) == Lookup(mem, r, v)
  {
    if Reaches(mem, r, v, 0) {
      PathKept(mem, free, role, mem', s, r, v, 0);
      OnPath(mem, free, role, r, v, 0);
    } else {
      var k := Stop(mem, r, v, 0);
      PathKept(mem, free, role, mem', s, r, v, k);
      OnPath(mem, free, role, r, v, k);
      if SlotAt(mem, r, v, k) == s {
        var below := SlotAt(mem', r, v, k - 1);
        assert below.page == c && Get(mem', below) == ZERO;
        if k > 1 { StopStays(mem', r, v, k - 1, 0); }
      } else {
        StopStays(mem', r, v, k, 0);
      }
    }
  }

  // ----- the tables that a walk makes

  /** The walks of x and y use the same tables down to a level. */
  predicate SameUpTo(x: Vpn, y: Vpn, level: nat) {
    level >= 2 || (x.i2 == y.i2 && (level == 1 || x.i1 == y.i1))
  }

  /** How many tables are missing for the walk of x down to a level. */
  function Missing(mem: Mem, r: nat, x: Vpn, level: nat): nat {
    (if level <= 1 && !Reaches(mem, r, x, 1) then 1 else 0) + (if level == 0 && !Reaches(mem, r, x, 0) then 1 else 0)
  }

  lemma MissingMore(mem: Mem, r: nat, x: Vpn, level: nat)
    requires 0 < level <= 2 && !Reaches(mem, r, x, level - 1)
    ensures Missing(mem, r, x, 0) > Missing(mem, r, x, level)
  {
  }

  /** From mem to mem' the walk of x was completed down to level k, and nothing else. */
  ghost predicate Laid(mem: Mem, mem': Mem, r: nat, x: Vpn, k: nat) {
    forall y: Vpn, l: nat :: LaidAt(mem, mem', r, x, k, y, l)
  }

  ghost predicate LaidAt(mem: Mem, mem': Mem, r: nat, x: Vpn, k: nat, y: Vpn, l: nat) {
    l <= 2 ==> (Reaches(mem', r, y, l) <==> Reaches(mem, r, y, l) || (l >= k && SameUpTo(x, y, l)))
  }

  lemma {:induction false} SharedTables(mem: Mem, r: nat, x: Vpn, y: Vpn, level: nat)
    requires level <= 2 && SameUpTo(x, y, level)
    ensures Reaches(mem, r, x, level) <==> Reaches(mem, r, y, level)
    ensures SlotAt(mem, r, x, level).page == SlotAt(mem, r, y, level).page
    decreases 2 - level
  {
    if level < 2 { SharedTables(mem, r, x, y, level + 1); }
  }

  /** A walk that comes to level k needs nothing to be laid. */
  lemma LaidAlready(mem: Mem, r: nat, x: Vpn, k: nat)
    requires k <= 2 && Reaches(mem, r, x, k)
    ensures Laid(mem, mem, r, x, k)
  {
    forall y: Vpn, l: nat ensures LaidAt(mem, mem, r, x, k, y, l) {
      if k <= l <= 2 && SameUpTo(x, y, l) {
        ReachesAbove(mem, r, x, k, l);
        SharedTables(mem, r, x, y, l);
      }
    }
  }

  lemma {:induction false} ReachesAbove(mem: Mem, r: nat, x: Vpn, k: nat, l: nat)
    requires k <= l <= 2 && Reaches(mem, r, x, k)
    ensures Reaches(mem, r, x, l)
    decreases l - k
  {
    if k < l { ReachesAbove(mem, r, x, k + 1, l); }
  }

  lemma NotBelow(mem: Mem, r: nat, x: Vpn, level: nat)
    requires level <= 2 && !Reaches(mem, r, x, level)
    ensures !Reaches(mem, r, x, 0)
  {
    if Reaches(mem, r, x, 0) { ReachesAbove(mem, r, x, 0, level); }
  }

  lemma LaidThen(mem: Mem, mem1: Mem, mem2: Mem, r: nat, x: Vpn, k1: nat, k2: nat)
    requires Laid(mem, mem1, r, x, k1) && Laid(mem1, mem2, r, x, k2) && k2 <= k1
    ensures Laid(mem, mem2, r, x, k2)
  {
    forall y: Vpn, l: nat ensures LaidAt(mem, mem2, r, x, k2, y, l) {
      assert LaidAt(mem, mem1, r, x, k1, y, l) && LaidAt(mem1, mem2, r, x, k2, y, l);
    }
  }

  /** An empty table hung below level k of the walk of x lays that walk one level further. */
  lemma HangLays(mem: Mem, free: seq<nat>, role: Roles, mem': Mem, s: Slot, c: nat, r: nat, x: Vpn, k: nat)
    requires Inv(mem, free, role, {}) && Root(role, r) && 0 < k <= 2 && Reaches(mem, r, x, k)
    requires s == SlotAt(mem, r, x, k) && Get(mem, s) == ZERO
    requires AgreeBut(mem, mem', role, s) && Get(mem', s) == Word(c, JUST_V) && c in mem' && IsZero(mem'[c])
    ensures Laid(mem, mem', r, x, k - 1)
  {
    OnPath(mem, free, role, r, x, k);
    var k' := k - 1;
    forall y: Vpn, l: nat ensures LaidAt(mem, mem', r, x, k', y, l) {
      if l <= 2 { HangLaysAt(mem, free, role, mem', s, c, r, x, k, y, l); }
    }
  }

  lemma HangLaysAt(mem: Mem, free: seq<nat>, role: Roles, mem': Mem, s: Slot, c: nat, r: nat, x: Vpn, k: nat, y: Vpn,
      l: nat)
    requires Inv(mem, free, role, {}) && Root(role, r) && 0 < k <= 2 && Reaches(mem, r, x, k) && l <= 2
    requires s == SlotAt(mem, r, x, k) && Get(mem, s) == ZERO && IsTable(role, s.page) && role[s.page].lvl == k
    requires AgreeBut(mem, mem', role, s) && Get(mem', s) == Word(c, JUST_V) && c in mem' && IsZero(mem'[c])
    ensures LaidAt(mem, mem', r, x, k - 1, y, l)
  {
    if Reaches(mem, r, y, l) {
      PathKept(mem, free, role, mem', s, r, y, l);
    } else {
      var j := Stop(mem, r, y, l);
      PathKept(mem, free, role, mem', s, r, y, j);
      OnPath(mem, free, role, r, y, j);
      if SlotAt(mem, r, y, j) == s {
        SameSlot(mem, free, role, r, x, y, k);
        var below := SlotAt(mem', r, y, k - 1);
        assert below.page == c && Get(mem', below) == ZERO;
        if l + 1 < k { StopStays(mem', r, y, k - 1, l); }
      } else {
        StopStays(mem', r, y, j, l);
        if l >= k - 1 && SameUpTo(x, y, l) { SharedStop(mem, r, x, y, k, l); }
      }
    }
  }

  /** Where two walks come to the same slot, they have used the same tables and go on to the
      same one. */
  lemma SameSlot(mem: Mem, free: seq<nat>, role: Roles, r: nat, x: Vpn, y: Vpn, k: nat)
    requires Inv(mem, free, role, {}) && Root(role, r) && 0 < k <= 2
    requires Reaches(mem, r, x, k) && Reaches(mem, r, y, k) && SlotAt(mem, r, x, k) == SlotAt(mem, r, y, k)
    ensures SameUpTo(x, y, k - 1)
  {
    OnPath(mem, free, role, r, x, k);
    OnPath(mem, free, role, r, y, k);
    if k == 1 {
      assert PathTo(r, x, 1) == [r, x.i2] && PathTo(r, y, 1) == [r, y.i2];
      assert PathTo(r, x, 1)[1] == x.i2 && PathTo(r, y, 1)[1] == y.i2;
    }
  }

  lemma SharedStop(mem: Mem, r: nat, x: Vpn, y: Vpn, k: nat, l: nat)
    requires 0 < k <= 2 && k - 1 <= l <= 2 && SameUpTo(x, y, l) && Reaches(mem, r, x, k) && !Reaches(mem, r, y, l)
    ensures l == k - 1 && Stop(mem, r, y, l) == k && SlotAt(mem, r, y, k) == SlotAt(mem, r, x, k)
  {
    if l >= k {
      ReachesAbove(mem, r, x, k, l);
      SharedTables(mem, r, x, y, l);
    } else {
      SharedTables(mem, r, x, y, k);
    }
  }

  /** The walks from r come as far as before. */
  ghost predicate SameReach(mem: Mem, mem': Mem, r: nat) {
    forall y: Vpn, l: nat :: SameReachAt(mem, mem', r, y, l)
  }

  ghost predicate SameReachAt(mem: Mem, mem': Mem, r: nat, y: Vpn, l: nat) {
    l <= 2 ==> (Reaches(mem', r, y, l) <==> Reaches(mem, r, y, l))
  }

  /** Leaf entries do not matter for how far a walk comes. */
  lemma LeafReach(mem: Mem, free: seq<nat>, role: Roles, mem': Mem, s: Slot, r: nat)
    requires Inv(mem, free, role, {}) && Root(role, r)
    requires IsTable(role, s.page) && role[s.page].lvl == 0 && AgreeBut(mem, mem', role, s)
    ensures SameReach(mem, mem', r)
  {
    forall y: Vpn, l: nat ensures SameReachAt(mem, mem', r, y, l) {
      if l <= 2 {
        if Reaches(mem, r, y, l) {
          PathKept(mem, free, role, mem', s, r, y, l);
        } else {
          var j := Stop(mem, r, y, l);
          PathKept(mem, free, role, mem', s, r, y, j);
          OnPath(mem, free, role, r, y, j);
          StopStays(mem', r, y, j, l);
        }
      }
    }
  }

  /** Nor do pages that are no tables. */
  lemma TablesReach(mem: Mem, free: seq<nat>, role: Roles, mem': Mem, r: nat)
    requires Inv(mem, free, role, {}) && Root(role, r) && SameTables(mem, mem', role)
    ensures SameReach(mem, mem', r)
  {
    forall y: Vpn, l: nat ensures SameReachAt(mem, mem', r, y, l) {
      if l <= 2 {
        if Reaches(mem, r, y, l) {
          SamePath(mem, free, role, mem', r, y, l);
        } else {
          var j := Stop(mem, r, y, l);
          SamePath(mem, free, role, mem', r, y, j);
          OnPath(mem, free, role, r, y, j);
          StopStays(mem', r, y, j, l);
        }
      }
    }
  }

  lemma LaidBetween(mem: Mem, mem1: Mem, mem2: Mem, mem3: Mem, r: nat, x: Vpn)
    requires SameReach(mem, mem1, r) && Laid(mem1, mem2, r, x, 0) && SameReach(mem2, mem3, r)
    ensures Laid(mem, mem3, r, x, 0) && Missing(mem1, r, x, 0) == Missing(mem, r, x, 0)
  {
    forall y: Vpn, l: nat ensures LaidAt(mem, mem3, r, x, 0, y, l) {
      assert SameReachAt(mem, mem1, r, y, l) && LaidAt(mem1, mem2, r, x, 0, y, l) && SameReachAt(mem2, mem3, r, y, l);
    }
    assert SameReachAt(mem, mem1, r, x, 0) && SameReachAt(mem, mem1, r, x, 1);
  }

  lemma ReachSelf(mem: Mem, r: nat)
    ensures SameReach(mem, mem, r)
  {
    forall y: Vpn, l: nat ensures SameReachAt(mem, mem, r, y, l) { }
  }

  // ----- the tables for a range of pages

  /** Pages from first on, n of them: the last one needs these tables besides those that the
      others need. */
  function NewTables(mem: Mem, r: nat, first: nat, n: nat): nat
    requires n > 0
  {
    var x, y := Split(first + n - 1), Split(if n > 1 then first + n - 2 else 0);
    (if Reaches(mem, r, x, 1) || (n > 1 && SameUpTo(x, y, 1)) then 0 else 1)
    + (if Reaches(mem, r, x, 0) || (n > 1 && SameUpTo(x, y, 0)) then 0 else 1)
  }

  /** How many tables are missing for mapping n pages from first on. */
  function TablesFor(mem: Mem, r: nat, first: nat, n: nat): nat {
    if n == 0 then 0 else TablesFor(mem, r, first, n - 1) + NewTables(mem, r, first, n)
  }

  lemma {:induction false} TablesGrow(mem: Mem, r: nat, first: nat, k: nat, n: nat)
    requires k <= n
    ensures TablesFor(mem, r, first, k) <= TablesFor(mem, r, first, n)
    decreases n - k
  {
    if k < n { TablesGrow(mem, r, first, k, n - 1); }
  }

  /** One of n pages from first on shares its tables down to a level with y. */
  ghost predicate Covers(first: nat, n: nat, y: Vpn, level: nat) {
    n > 0 && (Covers(first, n - 1, y, level) || SameUpTo(Split(first + n - 1), y, level))
  }

  /** From mem to mem' exactly the tables for n pages from first on were made. */
  ghost predicate Paved(mem: Mem, mem': Mem, r: nat, first: nat, n: nat) {
    forall y: Vpn, l: nat :: PavedAt(mem, mem', r, first, n, y, l)
  }

  ghost predicate PavedAt(mem: Mem, mem': Mem, r: nat, first: nat, n: nat, y: Vpn, l: nat) {
    l <= 2 ==> (Reaches(mem', r, y, l) <==> Reaches(mem, r, y, l) || Covers(first, n, y, l))
  }

  lemma PavedNone(mem: Mem, r: nat, first: nat)
    ensures Paved(mem, mem, r, first, 0)
  {
    forall y: Vpn, l: nat ensures PavedAt(mem, mem, r, first, 0, y, l) { }
  }

  lemma PavedNext(mem: Mem, mem1: Mem, mem2: Mem, r: nat, first: nat, n: nat)
    requires Paved(mem, mem1, r, first, n) && Laid(mem1, mem2, r, Split(first + n), 0)
    ensures Paved(mem, mem2, r, first, n + 1)
  {
    var n' := n + 1;
    forall y: Vpn, l: nat ensures PavedAt(mem, mem2, r, first, n', y, l) {
      assert PavedAt(mem, mem1, r, first, n, y, l) && LaidAt(mem1, mem2, r, Split(first + n), 0, y, l);
      assert first + n' - 1 == first + n;
    }
  }

  /** If a page of a range shares tables with the page behind the range, so does the last. */
  lemma {:induction false} CoversLast(first: nat, n: nat, k: nat, level: nat)
    requires k <= n && first + n < MAXVPN && level <= 1 && Covers(first, k, Split(first + n), level)
    ensures n > 0 && SameUpTo(Split(first + n - 1), Split(first + n), level)
    decreases k
  {
    if SameUpTo(Split(first + k - 1), Split(first + n), level) {
      SameGroup(first + k - 1, first + n - 1, first + n, level);
    } else {
      CoversLast(first, n, k - 1, level);
    }
  }

  lemma SameGroup(a: nat, b: nat, c: nat, level: nat)
    requires a <= b <= c < MAXVPN && level <= 1 && SameUpTo(Split(a), Split(c), level)
    ensures SameUpTo(Split(b), Split(c), level)
  {
    GroupOf(a, c);
    GroupOf(b, c);
  }

  /** Pages use the same tables exactly if they are in the same group of 512, or of 512 * 512. */
  lemma GroupOf(a: nat, b: nat)
    requires a < MAXVPN && b < MAXVPN
    ensures SameUpTo(Split(a), Split(b), 1) <==> a / 262144 == b / 262144
    ensures SameUpTo(Split(a), Split(b), 0) <==> a / 512 == b / 512
  {
    assert a / 512 / 512 == a / 262144 && b / 512 / 512 == b / 262144;
  }

  /** After n pages are paved, the tables missing for the next one are those counted. */
  lemma MissingNext(mem: Mem, mem': Mem, r: nat, first: nat, n: nat)
    requires Paved(mem, mem', r, first, n) && first + n < MAXVPN
    ensures Missing(mem', r, Split(first + n), 0) == NewTables(mem, r, first, n + 1)
  {
    var x := Split(first + n);
    forall l: nat | l <= 1 ensures Covers(first, n, x, l) <==> n > 0 && SameUpTo(x, Split(first + n - 1), l) {
      if Covers(first, n, x, l) { CoversLast(first, n, n, l); }
    }
    assert PavedAt(mem, mem', r, first, n, x, 0) && PavedAt(mem, mem', r, first, n, x, 1);
  }

  /** A range of one page is its walk. */
  lemma PavedOne(mem: Mem, mem': Mem, r: nat, first: nat)
    ensures TablesFor(mem, r, first, 1) == Missing(mem, r, Split(first), 0)
    ensures Paved(mem, mem', r, first, 1) ==> Laid(mem, mem', r, Split(first), 0)
  {
    assert TablesFor(mem, r, first, 1) == TablesFor(mem, r, first, 0) + NewTables(mem, r, first, 1);
    if Paved(mem, mem', r, first, 1) {
      forall y: Vpn, l: nat ensures LaidAt(mem, mem', r, Split(first), 0, y, l) {
        assert PavedAt(mem, mem', r, first, 1, y, l) && !Covers(first, 0, y, l);
      }
    }
  }

  // ----- the invariant is kept

  /** An entry stays good if neither it nor the role of the page it names changes. */
  lemma EntryFrame(mem: Mem, role: Roles, hole: set<Slot>, mem': Mem, role': Roles, hole': set<Slot>, t: Slot)
    requires EntryOk(mem, role, hole, t) && t !in hole
    requires IsTable(role', t.page) ==>
      IsTable(role, t.page) && role[t.page] == role'[t.page] && Get(mem', t) == Get(mem, t)
    requires IsTable(role', t.page) && t.i < NPTE && Get(mem, t) != ZERO ==>
      var c := Get(mem, t).ppn; (c in role <==> c in role') && (c in role ==> role'[c] == role[c])
    ensures EntryOk(mem', role', hole', t)
  {
  }

  /** Only the slot that a page names points to it. */
  lemma NamesHolder(mem: Mem, role: Roles, hole: set<Slot>, t: Slot, c: nat)
    requires EntryOk(mem, role, hole, t) && t !in hole && IsTable(role, t.page) && t.i < NPTE && Get(mem, t) != ZERO
    requires c in role && Get(mem, t).ppn == c
    ensures !role[c].Free? && !role[c].Held? && (role[c].User? || role[c].Table? ==> role[c].up == t)
  {
  }

  /** A page stays good if it keeps its role and the entry that holds it. */
  lemma PageFrame(mem: Mem, role: Roles, hole: set<Slot>, mem': Mem, role': Roles, hole': set<Slot>, c: nat)
    requires c in role && c in role' && role'[c] == role[c] && PageOk(mem, role, hole, c) && c in mem'
      && |mem'[c]| == NPTE
    requires role[c].User? || role[c].Table? ==>
      var p := role[c].up.page; (IsTable(role, p) ==> IsTable(role', p) && role'[p] == role[p])
    requires role[c].User? || (role[c].Table? && role[c].lvl < 2) ==>
      role[c].up in hole' || Get(mem', role[c].up) == Get(mem, role[c].up)
    requires role[c].User? ==> role[c].up !in hole'
    requires role[c].Table? && role[c].lvl < 2 && role[c].up in hole ==> role[c].up in hole'
    ensures PageOk(mem', role', hole', c)
  {
  }

  lemma PopFree(free: seq<nat>, role: Roles)
    requires FreeOk(free, role) && free != []
    ensures free[0] in role && role[free[0]] == Free && FreeOk(free[1..], role[free[0] := Held])
  {
    var c := free[0];
    assert Listed(free, role, c);
    var free', role' := free[1..], role[c := Held];
    forall p: nat ensures Listed(free', role', p) {
      assert Listed(free, role, p) && free == [c] + free';
    }
  }

  lemma PushFree(free: seq<nat>, role: Roles, c: nat)
    requires FreeOk(free, role) && c in role && role[c] != Free
    ensures FreeOk([c] + free, role[c := Free])
  {
    assert Listed(free, role, c);
    var free', role' := [c] + free, role[c := Free];
    forall p: nat ensures Listed(free', role', p) { assert Listed(free, role, p); }
  }

  /** Roles that change between other uses leave the free list alone. */
  lemma SameFree(free: seq<nat>, role: Roles, c: nat, to: Role)
    requires FreeOk(free, role) && c in role && role[c] != Free && to != Free
    ensures FreeOk(free, role[c := to])
  {
    var role' := role[c := to];
    forall p: nat ensures Listed(free, role', p) { assert Listed(free, role, p); }
  }

  lemma KallocKeeps(mem: Mem, free: seq<nat>, role: Roles, hole: set<Slot>, row: seq<Word>)
    requires Inv(mem, free, role, hole) && free != [] && |row| == NPTE
    ensures free[0] in role && role[free[0]] == Free && Inv(mem[free[0] := row], free[1..], role[free[0] := Held], hole)
  {
    var c := free[0];
    var mem', role' := mem[c := row], role[c := Held];
    PopFree(free, role);
    forall x: nat ensures PageOk(mem', role', hole, x) {
      assert PageOk(mem, role, hole, x);
      if x in role && x != c { PageFrame(mem, role, hole, mem', role', hole, x); }
    }
    forall t ensures EntryOk(mem', role', hole, t) {
      assert EntryOk(mem, role, hole, t);
      if t !in hole && IsTable(role, t.page) && t.i < NPTE {
        if Get(mem, t) != ZERO && Get(mem, t).ppn == c { NamesHolder(mem, role, hole, t, c); }
        EntryFrame(mem, role, hole, mem', role', hole, t);
      }
    }
  }

  lemma KfreeKeeps(mem: Mem, free: seq<nat>, role: Roles, hole: set<Slot>, c: nat, row: seq<Word>)
    requires Inv(mem, free, role, hole) && c in role && role[c] == Held && |row| == NPTE
    ensures Inv(mem[c := row], [c] + free, role[c := Free], hole)
  {
    var mem', role' := mem[c := row], role[c := Free];
    PushFree(free, role, c);
    forall x: nat ensures PageOk(mem', role', hole, x) {
      assert PageOk(mem, role, hole, x);
      if x in role && x != c { PageFrame(mem, role, hole, mem', role', hole, x); }
    }
    forall t ensures EntryOk(mem', role', hole, t) {
      assert EntryOk(mem, role, hole, t);
      if t !in hole && IsTable(role, t.page) && t.i < NPTE {
        if Get(mem, t) != ZERO && Get(mem, t).ppn == c { NamesHolder(mem, role, hole, t, c); }
        EntryFrame(mem, role, hole, mem', role', hole, t);
      }
    }
  }

  /** An empty table is hung into slot s. */
  lemma HangKeeps(mem: Mem, free: seq<nat>, role: Roles, s: Slot, c: nat)
    requires Inv(mem, free, role, {}) && c in role && role[c] == Held && c in mem && IsZero(mem[c])
    requires IsTable(role, s.page) && role[s.page].lvl > 0 && s.i < NPTE && s.page in mem && |mem[s.page]| == NPTE
      && Get(mem, s) == ZERO
    requires role[s.page].lvl == 2 ==> s.i < NPTE / 2
    ensures Inv(Put(mem, s, Word(c, JUST_V)), free, role[c := Table(role[s.page].lvl - 1, s, Below(role, s))], {})
    ensures AgreeBut(mem, Put(mem, s, Word(c, JUST_V)), role, s)
  {
    var mem', role' := Put(mem, s, Word(c, JUST_V)), role[c := Table(role[s.page].lvl - 1, s, Below(role, s))];
    SameFree(free, role, c, role'[c]);
    assert PageOk(mem, role, {}, s.page);
    forall x: nat ensures PageOk(mem', role', {}, x) {
      assert PageOk(mem, role, {}, x);
      if x in role && x != c { PageFrame(mem, role, {}, mem', role', {}, x); }
    }
    forall t ensures EntryOk(mem', role', {}, t) {
      assert EntryOk(mem, role, {}, t);
      HangEntry(mem, role, s, c, mem', role', t);
    }
  }

  lemma HangEntry(mem: Mem, role: Roles, s: Slot, c: nat, mem': Mem, role': Roles, t: Slot)
    requires EntryOk(mem, role, {}, t) && c in role && role[c] == Held && c in mem && IsZero(mem[c])
    requires IsTable(role, s.page) && role[s.page].lvl > 0 && s.i < NPTE && s.page in mem && |mem[s.page]| == NPTE
    requires role[s.page].lvl == 2 ==> s.i < NPTE / 2
    requires mem' == Put(mem, s, Word(c, JUST_V)) && role' == role[c := Table(role[s.page].lvl - 1, s, Below(role, s))]
    ensures EntryOk(mem', role', {}, t)
  {
    if t == s {
    } else if t.page != c && IsTable(role, t.page) && t.i < NPTE {
      if Get(mem, t) != ZERO && Get(mem, t).ppn == c { NamesHolder(mem, role, {}, t, c); }
      EntryFrame(mem, role, {}, mem', role', {}, t);
    }
  }

  /** A leaf entry for a held page, which it then owns, or for a page of the kernel. */
  lemma MapKeeps(mem: Mem, free: seq<nat>, role: Roles, s: Slot, e: Word, role': Roles)
    requires Inv(mem, free, role, {}) && V(e) && Leaf(e.flags)
    requires IsTable(role, s.page) && role[s.page].lvl == 0 && s.i < NPTE && s.page in mem && |mem[s.page]| == NPTE
      && Get(mem, s) == ZERO
    requires var c := e.ppn;
      if c in role && role[c] == Held then role' == role[c := User(s, Below(role, s))]
        else role' == role && (c in role ==> role[c] == Lent)
    ensures Inv(Put(mem, s, e), free, role', {})
  {
    var mem', c := Put(mem, s, e), e.ppn;
    if c in role && role[c] == Held { SameFree(free, role, c, User(s, Below(role, s))); }
    forall x: nat ensures PageOk(mem', role', {}, x) {
      assert PageOk(mem, role, {}, x);
      if x in role && (x != c || role'[x] == role[x]) { PageFrame(mem, role, {}, mem', role', {}, x); }
    }
    forall t ensures EntryOk(mem', role', {}, t) {
      assert EntryOk(mem, role, {}, t);
      if t != s && IsTable(role, t.page) && t.i < NPTE { MapEntry(mem, role, c, mem', role', t); }
    }
  }

  lemma MapEntry(mem: Mem, role: Roles, c: nat, mem': Mem, role': Roles, t: Slot)
    requires EntryOk(mem, role, {}, t) && Get(mem', t) == Get(mem, t) && IsTable(role, t.page) && t.i < NPTE
    requires role' == role
      || (c in role && role[c] == Held && c in role' && role' == role[c := role'[c]] && role'[c].User?)
    ensures EntryOk(mem', role', {}, t)
  {
    if c in role && role[c] == Held && Get(mem, t) != ZERO && Get(mem, t).ppn == c { NamesHolder(mem, role, {}, t, c); }
    EntryFrame(mem, role, {}, mem', role', {}, t);
  }

  /** The page that slot s holds is taken from it, and s is left as a hole. */
  lemma TakeKeeps(mem: Mem, free: seq<nat>, role: Roles, hole: set<Slot>, c: nat, hole': set<Slot>)
    requires Inv(mem, free, role, hole) && c in role
    requires role[c].User? || (role[c].Table? && c in mem && IsZero(mem[c]) && forall t :: t in hole ==> t.page != c)
    requires hole' == if Root(role, c) then hole else hole + {role[c].up}
    ensures Inv(mem, free, role[c := Held], hole')
  {
    var role' := role[c := Held];
    SameFree(free, role, c, Held);
    assert PageOk(mem, role, hole, c);
    forall x: nat ensures PageOk(mem, role', hole', x) {
      assert PageOk(mem, role, hole, x);
      if x in role && x != c { TakePage(mem, role, hole, c, hole', x); }
    }
    forall t ensures EntryOk(mem, role', hole', t) {
      assert EntryOk(mem, role, hole, t);
      if t !in hole' && IsTable(role', t.page) && t.i < NPTE {
        if Get(mem, t) != ZERO { TakeEntry(mem, role, hole, c, hole', t); }
        EntryFrame(mem, role, hole, mem, role', hole', t);
      }
    }
  }

  lemma TakePage(mem: Mem, role: Roles, hole: set<Slot>, c: nat, hole': set<Slot>, x: nat)
    requires c in role && x in role && x != c && PageOk(mem, role, hole, x) && PageOk(mem, role, hole, c)
    requires role[c].User? || (role[c].Table? && c in mem && IsZero(mem[c]) && forall t :: t in hole ==> t.page != c)
    requires hole' == if Root(role, c) then hole else hole + {role[c].up}
    ensures PageOk(mem, role[c := Held], hole', x)
  {
    var role' := role[c := Held];
    if role[x].User? || (role[x].Table? && role[x].lvl < 2) {
      assert role[x].up in hole || role[x].up.page != c;
    }
  }

  lemma TakeEntry(mem: Mem, role: Roles, hole: set<Slot>, c: nat, hole': set<Slot>, t: Slot)
    requires EntryOk(mem, role, hole, t) && t !in hole' && IsTable(role, t.page) && t.i < NPTE && Get(mem, t) != ZERO
    requires c in role && (role[c].User? || role[c].Table?)
    requires hole' == if Root(role, c) then hole else hole + {role[c].up}
    ensures Get(mem, t).ppn != c
  {
    if Get(mem, t).ppn == c { NamesHolder(mem, role, hole, t, c); }
  }

  /** No page is held by slot s. */
  ghost predicate Orphan(role: Roles, s: Slot) {
    forall x: nat :: NotHeldBy(role, s, x)
  }

  ghost predicate NotHeldBy(role: Roles, s: Slot, x: nat) {
    x in role && (role[x].User? || (role[x].Table? && role[x].lvl < 2)) ==> role[x].up != s
  }

  lemma TakeUser(mem: Mem, free: seq<nat>, role: Roles, s: Slot, c: nat)
    requires Inv(mem, free, role, {}) && c in role && role[c].User? && role[c].up == s
    ensures Inv(mem, free, role[c := Held], {s}) && Orphan(role[c := Held], s) && Orphan(role[c := Free], s)
  {
    TakeKeeps(mem, free, role, {}, c, {s});
    var held, freed := role[c := Held], role[c := Free];
    forall x: nat ensures NotHeldBy(held, s, x) && NotHeldBy(freed, s, x) {
      if x in role && x != c && (role[x].User? || (role[x].Table? && role[x].lvl < 2)) {
        OneHolder(mem, free, role, {}, c, x);
      }
    }
  }

  /** A slot holds at most one page. */
  lemma OneHolder(mem: Mem, free: seq<nat>, role: Roles, hole: set<Slot>, c: nat, x: nat)
    requires Inv(mem, free, role, hole) && c in role && x in role && x != c
    requires role[c].User? || (role[c].Table? && role[c].lvl < 2)
    requires role[x].User? || (role[x].Table? && role[x].lvl < 2)
    requires role[c].up !in hole
    ensures role[x].up != role[c].up
  {
    assert PageOk(mem, role, hole, c) && PageOk(mem, role, hole, x);
  }

  /** A hole is cleared. */
  lemma ClearKeeps(mem: Mem, free: seq<nat>, role: Roles, hole: set<Slot>, s: Slot)
    requires Inv(mem, free, role, hole) && IsTable(role, s.page) && s.i < NPTE && s.page in mem && |mem[s.page]| == NPTE
    requires Orphan(role, s)
    ensures Inv(Put(mem, s, ZERO), free, role, hole - {s})
  {
    var mem', hole' := Put(mem, s, ZERO), hole - {s};
    forall x: nat ensures PageOk(mem', role, hole', x) {
      assert PageOk(mem, role, hole, x) && NotHeldBy(role, s, x);
      if x in role { PageFrame(mem, role, hole, mem', role, hole', x); }
    }
    forall t ensures EntryOk(mem', role, hole', t) {
      assert EntryOk(mem, role, hole, t);
      if t != s && t !in hole && IsTable(role, t.page) { EntryFrame(mem, role, hole, mem', role, hole', t); }
    }
  }

  /** The tables hold the same entries. */
  ghost predicate SameTables(mem: Mem, mem': Mem, role: Roles) {
    forall t: Slot :: IsTable(role, t.page) ==> Get(mem', t) == Get(mem, t)
  }

  lemma {:induction false} SamePath(mem: Mem, free: seq<nat>, role: Roles, mem': Mem, r: nat, v: Vpn, level: nat)
    requires Inv(mem, free, role, {}) && Root(role, r) && level <= 2 && Reaches(mem, r, v, level)
      && SameTables(mem, mem', role)
    ensures Reaches(mem', r, v, level) && SlotAt(mem', r, v, level) == SlotAt(mem, r, v, level)
    decreases 2 - level
  {
    if level < 2 {
      SamePath(mem, free, role, mem', r, v, level + 1);
      OnPath(mem, free, role, r, v, level + 1);
    }
  }

  lemma SameTablesLookup(mem: Mem, free: seq<nat>, role: Roles, mem': Mem, r: nat, v: Vpn)
    requires Inv(mem, free, role, {}) && Root(role, r) && SameTables(mem, mem', role)
    ensures Lookup(mem', r, v) == Lookup(mem, r, v)
    ensures Reaches(mem, r, v, 0) ==> Reaches(mem', r, v, 0) && SlotAt(mem', r, v, 0) == SlotAt(mem, r, v, 0)
  {
    if Reaches(mem, r, v, 0) {
      SamePath(mem, free, role, mem', r, v, 0);
      OnPath(mem, free, role, r, v, 0);
    } else {
      var k := Stop(mem, r, v, 0);
      SamePath(mem, free, role, mem', r, v, k);
      OnPath(mem, free, role, r, v, k);
      StopStays(mem', r, v, k, 0);
    }
  }

  function Filled(w: Word): (row: seq<Word>)
    ensures |row| == NPTE && forall i :: 0 <= i < NPTE ==> row[i] == w
  {
    seq(NPTE, _ => w)
  }

  // ----- whole tables

  /** A held, empty page becomes a root. */
  lemma RootKeeps(mem: Mem, free: seq<nat>, role: Roles, c: nat)
    requires Inv(mem, free, role, {}) && c in role && role[c] == Held && c in mem && IsZero(mem[c])
    ensures Inv(mem, free, role[c := Table(2, Slot(0, 0), [c])], {})
  {
    var role' := role[c := Table(2, Slot(0, 0), [c])];
    SameFree(free, role, c, role'[c]);
    forall x: nat ensures PageOk(mem, role', {}, x) {
      assert PageOk(mem, role, {}, x);
      if x in role && x != c { PageFrame(mem, role, {}, mem, role', {}, x); }
    }
    forall t ensures EntryOk(mem, role', {}, t) {
      assert EntryOk(mem, role, {}, t);
      if t.page != c && IsTable(role, t.page) && t.i < NPTE {
        if Get(mem, t) != ZERO && Get(mem, t).ppn == c { NamesHolder(mem, role, {}, t, c); }
        EntryFrame(mem, role, {}, mem, role', {}, t);
      }
    }
  }

  /** The page belongs to a table, as part of it or as a user page. */
  ghost predicate InTree(role: Roles, x: nat) {
    x in role && (role[x].Table? || role[x].User?)
  }

  /** The page has the given path or one below it. */
  ghost predicate Under(role: Roles, path: seq<nat>, x: nat) {
    InTree(role, x) && path <= role[x].path
  }

  /** The slot above a page that is no root. */
  lemma Above(mem: Mem, free: seq<nat>, role: Roles, x: nat)
    requires Inv(mem, free, role, {}) && InTree(role, x) && !Root(role, x)
    ensures var s := role[x].up;
      && IsTable(role, s.page) && s.i < NPTE && role[x].path == role[s.page].path + [s.i]
      && Get(mem, s) != ZERO && Get(mem, s).ppn == x && |role[x].path| > 1 && V(Get(mem, s))
      && (role[x].Table? ==> role[s.page].lvl == role[x].lvl + 1)
  {
    assert PageOk(mem, role, {}, x) && PageOk(mem, role, {}, role[x].up.page);
  }

  /** No two table pages have the same path. */
  lemma {:induction false} PathUnique(mem: Mem, free: seq<nat>, role: Roles, p: nat, q: nat)
    requires Inv(mem, free, role, {}) && IsTable(role, p) && IsTable(role, q) && role[p].path == role[q].path
    ensures p == q
    decreases |role[p].path|
  {
    assert PageOk(mem, role, {}, p) && PageOk(mem, role, {}, q);
    if role[p].lvl < 2 {
      Above(mem, free, role, p);
      Above(mem, free, role, q);
      var s, t := role[p].up, role[q].up;
      var a, b := role[s.page].path, role[t.page].path;
      assert a == role[p].path[..|role[p].path| - 1] && b == role[q].path[..|role[q].path| - 1];
      assert s.i == role[p].path[|role[p].path| - 1] && t.i == role[q].path[|role[q].path| - 1];
      PathUnique(mem, free, role, s.page, t.page);
    }
  }

  /** Below an empty entry there is no page. */
  lemma {:induction false} NoneBelow(mem: Mem, free: seq<nat>, role: Roles, p: nat, i: nat, x: nat)
    requires Inv(mem, free, role, {}) && IsTable(role, p) && i < NPTE && Get(mem, Slot(p, i)) == ZERO && InTree(role, x)
    ensures !(role[p].path + [i] <= role[x].path)
    decreases |role[x].path|
  {
    var path := role[p].path + [i];
    assert PageOk(mem, role, {}, x) && PageOk(mem, role, {}, p);
    if path <= role[x].path && !Root(role, x) {
      Above(mem, free, role, x);
      var s := role[x].up;
      if |role[x].path| == |path| {
        assert role[s.page].path == path[..|path| - 1] == role[p].path && s.i == path[|path| - 1] == i;
        PathUnique(mem, free, role, s.page, p);
      } else {
        assert path <= role[s.page].path;
        NoneBelow(mem, free, role, p, i, s.page);
      }
    }
  }

  /** The indices in a path are below NPTE. */
  lemma {:induction false} IndexSmall(mem: Mem, free: seq<nat>, role: Roles, x: nat, d: nat)
    requires Inv(mem, free, role, {}) && InTree(role, x) && 1 <= d < |role[x].path|
    ensures role[x].path[d] < NPTE
    decreases |role[x].path|
  {
    assert PageOk(mem, role, {}, x);
    Above(mem, free, role, x);
    if d < |role[x].path| - 1 { IndexSmall(mem, free, role, role[x].up.page, d); }
  }

  /** The walk from the root leads to every table of the last level. */
  lemma TableReached(mem: Mem, free: seq<nat>, role: Roles, q: nat, i: nat) returns (x: Vpn)
    requires Inv(mem, free, role, {}) && IsTable(role, q) && role[q].lvl == 0 && i < NPTE
    ensures |role[q].path| == 3 && Root(role, role[q].path[0])
    ensures x.i2 < NPTE / 2 && x.i1 < NPTE && x.i0 == i && Reaches(mem, role[q].path[0], x, 0)
      && SlotAt(mem, role[q].path[0], x, 0) == Slot(q, i)
  {
    assert PageOk(mem, role, {}, q);
    Above(mem, free, role, q);
    var t := role[q].up;
    assert PageOk(mem, role, {}, t.page);
    Above(mem, free, role, t.page);
    var u := role[t.page].up;
    assert PageOk(mem, role, {}, u.page) && EntryOk(mem, role, {}, u);
    x := Vpn(u.i, t.i, i);
    var r := u.page;
    assert role[q].path[0] == r;
    assert SlotAt(mem, r, x, 2) == u && SlotAt(mem, r, x, 1) == t;
    assert Reaches(mem, r, x, 2) && Reaches(mem, r, x, 1);
  }
}
