/**
  User memory in kernel/vm.c and kernel/proc.c: uvmcreate, uvmalloc, uvmdealloc, growproc,
  uvmcopy, freewalk and uvmfree.  The user pages of a process are 0 .. n - 1.
 */
module Uvm {
  import opened PageTable
  import opened Vm

  const PERM_RU := NONE.(r := true, u := true)

  /** The number of pages that sz bytes need. */
  function Up(sz: nat): nat { (sz + PGSIZE - 1) / PGSIZE }

  // ----- the address space of one table

  ghost predicate SpaceAt(flat: Flat, role: Roles, r: nat, n: nat, v: nat) {
    (v < n ==> Owned(role, At(flat, r, v))) && (n <= v < TOP ==> At(flat, r, v) == ZERO)
  }

  /** The mapped user pages are exactly 0 .. n - 1, and the table owns them. */
  ghost predicate Space(flat: Flat, role: Roles, r: nat, n: nat) {
    forall v: nat :: SpaceAt(flat, role, r, n, v)
  }

  ghost predicate SameFlat(flat: Flat, flat': Flat) {
    forall r: nat, v: nat :: At(flat', r, v) == At(flat, r, v)
  }

  // ----- growth

  /** Page x has its old role, is a new inner table, or is mapped at some page of r in
      n .. k - 1 and was free before. */
  ghost predicate GainedAt(role: Roles, flat': Flat, role': Roles, r: nat, n: nat, k: nat, x: nat) {
    && (x in role' <==> x in role)
    && (x in role ==>
          Tabled(role[x], role'[x]) ||
          (role[x] == Free && role'[x].User? && exists w: nat :: n <= w < k && At(flat', r, w).ppn == x))
  }

  ghost predicate GrownAt(flat: Flat, role: Roles, flat': Flat, role': Roles, r: nat, n: nat, k: nat, r': nat, w: nat) {
    if r' == r && n <= w < k
    then Owned(role', At(flat', r, w)) && At(flat', r, w).ppn in role && role[At(flat', r, w).ppn] == Free
    else At(flat', r', w) == At(flat, r', w)
  }

  /** Table r has gained the pages n .. k - 1; nothing else has changed. */
  ghost predicate Gained(flat: Flat, role: Roles, flat': Flat, role': Roles, r: nat, n: nat, k: nat) {
    && (forall r': nat, w: nat :: GrownAt(flat, role, flat', role', r, n, k, r', w))
    && (forall x: nat :: GainedAt(role, flat', role', r, n, k, x))
  }

  lemma GainNothing(flat: Flat, role: Roles, r: nat, n: nat)
    ensures Gained(flat, role, flat, role, r, n, n)
  {
    forall r': nat, w: nat ensures GrownAt(flat, role, flat, role, r, n, n, r', w) { }
    forall x: nat ensures GainedAt(role, flat, role, r, n, n, x) { }
  }

  /** After kalloc of page c and mappages of it at page k. */
  lemma GainNext(flat: Flat, role: Roles, flat1: Flat, role1: Roles, flat2: Flat, role2: Roles, r: nat, n: nat, k: nat,
      c: nat, flags: Flags)
    requires Gained(flat, role, flat1, role1, r, n, k) && n <= k && c in role1 && role1[c] == Free && c != 0
    requires MapsRun(flat1, role1[c := Held], flat2, role2, r, k, 1, c, flags)
    ensures Gained(flat, role, flat2, role2, r, n, k + 1)
  {
    var k', role1' := k + 1, role1[c := Held];
    assert At(flat2, r, k) == Word(c, flags);
    assert RoleStep(role1', role2, c, 1, c) && GainedAt(role, flat1, role1, r, n, k, c);
    forall x: nat ensures GainedAt(role, flat2, role2, r, n, k', x) {
      GainPage(flat, role, flat1, role1, flat2, role2, r, n, k, c, flags, x);
    }
    forall r': nat, w: nat ensures GrownAt(flat, role, flat2, role2, r, n, k', r', w) {
      assert GrownAt(flat, role, flat1, role1, r, n, k, r', w);
      if r' == r && n <= w < k {
        assert RoleStep(role1', role2, c, 1, At(flat1, r, w).ppn);
      }
    }
  }

  lemma GainPage(flat: Flat, role: Roles, flat1: Flat, role1: Roles, flat2: Flat, role2: Roles, r: nat, n: nat, k: nat,
      c: nat, flags: Flags, x: nat)
    requires Gained(flat, role, flat1, role1, r, n, k) && n <= k && c in role1 && role1[c] == Free
    requires MapsRun(flat1, role1[c := Held], flat2, role2, r, k, 1, c, flags)
    ensures GainedAt(role, flat2, role2, r, n, k + 1, x)
  {
    assert GainedAt(role, flat1, role1, r, n, k, x) && RoleStep(role1[c := Held], role2, c, 1, x);
    if x == c {
      assert At(flat2, r, k).ppn == c;
    } else if x in role && !Tabled(role[x], role1[x]) {
      var w: nat :| n <= w < k && At(flat1, r, w).ppn == x;
      assert At(flat2, r, w).ppn == x;
    }
  }

  /** Page c was allocated, could not be mapped, and was given back. */
  lemma GainUndone(flat: Flat, role: Roles, flat1: Flat, role1: Roles, flat2: Flat, role2: Roles, r: nat, n: nat,
      k: nat, c: nat, flags: Flags)
    requires Gained(flat, role, flat1, role1, r, n, k) && n <= k && c in role1 && role1[c] == Free
    requires MapsRun(flat1, role1[c := Held], flat2, role2, r, k, 0, c, flags)
    ensures c in role2 && role2[c] == Held && Gained(flat, role, flat2, role2[c := Free], r, n, k)
  {
    var role1', role3 := role1[c := Held], role2[c := Free];
    assert RoleStep(role1', role2, c, 0, c);
    forall x: nat ensures GainedAt(role, flat2, role3, r, n, k, x) {
      assert GainedAt(role, flat1, role1, r, n, k, x) && RoleStep(role1', role2, c, 0, x);
      if x != c && x in role && !Tabled(role[x], role1[x]) {
        var w: nat :| n <= w < k && At(flat1, r, w).ppn == x;
        assert At(flat2, r, w).ppn == x;
      }
    }
    forall r': nat, w: nat ensures GrownAt(flat, role, flat2, role3, r, n, k, r', w) {
      assert GrownAt(flat, role, flat1, role1, r, n, k, r', w);
      if r' == r && n <= w < k {
        assert RoleStep(role1', role2, c, 0, At(flat1, r, w).ppn);
      }
    }
  }

  /** Freed mappings leave their pages free. */
  lemma {:induction false} FreedRunFrees(role: Roles, flat: Flat, r: nat, first: nat, k: nat, w: nat)
    requires Owned(role, At(flat, r, w)) && first <= w < first + k
    ensures var role' := FreedRun(role, flat, r, first, k);
      At(flat, r, w).ppn in role' && role'[At(flat, r, w).ppn] == Free
    decreases k
  {
    FreedOnlyUsers(flat, role, r, first, k - 1);
    if w < first + k - 1 {
      FreedRunFrees(role, flat, r, first, k - 1, w);
    }
  }

  lemma {:induction false} FreedRunWhich(role: Roles, flat: Flat, r: nat, first: nat, k: nat, x: nat) returns (w: nat)
    requires x in role && role[x] != Free
    ensures var role' := FreedRun(role, flat, r, first, k);
      x in role'
        && (role'[x] == role[x] || (first <= w < first + k && At(flat, r, w).ppn == x && At(flat, r, w) != ZERO))
    decreases k
  {
    w := 0;
    if k > 0 {
      FreedOnlyUsers(flat, role, r, first, k - 1);
      w := FreedRunWhich(role, flat, r, first, k - 1, x);
      if FreedRun(role, flat, r, first, k - 1)[x] == role[x] { w := first + k - 1; }
    }
  }

  /** Removing what was gained restores the flat map; only inner tables stay. */
  lemma GainRemoved(flat: Flat, role: Roles, flat1: Flat, role1: Roles, flat2: Flat, role2: Roles, r: nat, n: nat,
      k: nat)
    requires Gained(flat, role, flat1, role1, r, n, k) && n <= k && UnmapsRun(flat1, role1, flat2, role2, r, n, k - n)
    requires forall w: nat :: n <= w < k ==> At(flat, r, w) == ZERO
    ensures SameFlat(flat, flat2) && OnlyTables(role, role2)
  {
    forall r': nat, w: nat ensures At(flat2, r', w) == At(flat, r', w) {
      assert GrownAt(flat, role, flat1, role1, r, n, k, r', w);
    }
    FreedOnlyUsers(flat1, role1, r, n, k - n);
    forall x: nat ensures TabledAt(role, role2, x) {
      assert GainedAt(role, flat1, role1, r, n, k, x);
      if x in role && !Tabled(role[x], role1[x]) {
        var w: nat :| n <= w < k && At(flat1, r, w).ppn == x;
        assert GrownAt(flat, role, flat1, role1, r, n, k, r, w);
        FreedRunFrees(role1, flat1, r, n, k - n, w);
      } else if x in role && role1[x] != Free {
        var w := FreedRunWhich(role1, flat1, r, n, k - n, x);
        assert GrownAt(flat, role, flat1, role1, r, n, k, r, w);
      }
    }
  }

  // ----- contents

  ghost predicate RowAt(mem: Mem, flat: Flat, r: nat, n: nat, rows: seq<seq<Word>>, j: nat) {
    j < |rows| ==> At(flat, r, n + j).ppn in mem && mem[At(flat, r, n + j).ppn] == rows[j]
  }

  /** The pages of r from n on hold the given rows. */
  ghost predicate Rows(mem: Mem, flat: Flat, r: nat, n: nat, rows: seq<seq<Word>>) {
    forall j: nat :: RowAt(mem, flat, r, n, rows, j)
  }

  lemma RowsNext(mem1: Mem, flat1: Flat, role1: Roles, mem2: Mem, flat2: Flat, flat: Flat, role: Roles, r: nat, n: nat,
      k: nat, c: nat, flags: Flags, rows: seq<seq<Word>>, row: seq<Word>)
    requires Rows(mem1, flat1, r, n, rows) && k == n + |rows| && Gained(flat, role, flat1, role1, r, n, k)
    requires (forall r': nat, w: nat ::
      At(flat2, r', w) == if r' == r && k <= w < k + 1 then Word(c + (w - k), flags) else At(flat1, r', w))
    requires DataKept(mem1, mem2, role1) && c in mem2 && mem2[c] == row
    ensures Rows(mem2, flat2, r, n, rows + [row])
  {
    var rows' := rows + [row];
    forall j: nat ensures RowAt(mem2, flat2, r, n, rows', j) {
      if j < |rows| {
        assert RowAt(mem1, flat1, r, n, rows, j) && GrownAt(flat, role, flat1, role1, r, n, k, r, n + j);
        assert DataAt(mem1, mem2, role1, At(flat1, r, n + j).ppn);
      } else if j == |rows| {
        assert At(flat2, r, k) == Word(c, flags);
      }
    }
  }

  // ----- one page more

  /** One round of uvmalloc or uvmcopy: a new page with the given contents at page k of r.
      If memory runs out, nothing but inner tables is left of the attempt. */
  method AddPage(m: Memory, r: nat, k: nat, row: seq<Word>, flags: Flags, ghost flat: Flat, ghost role: Roles,
      ghost n: nat, ghost rows: seq<seq<Word>>)
    returns (ok: bool)
    requires m.Valid() && Root(m.role, r) && Leaf(flags) && |row| == NPTE && n + |rows| == k < TOP
      && At(m.flat, r, k) == ZERO
    requires Gained(flat, role, m.flat, m.role, r, n, k) && Rows(m.mem, m.flat, r, n, rows)
    modifies m
    ensures m.Valid() && Root(m.role, r) && DataKept(old(m.mem), m.mem, old(m.role)) && UsersStay(old(m.role), m.role)
    ensures ok ==> Gained(flat, role, m.flat, m.role, r, n, k + 1) && Rows(m.mem, m.flat, r, n, rows + [row])
    ensures ok ==> Adds(old(m.flat), m.flat, r, k, flags.(v := true))
    ensures !ok ==> Gained(flat, role, m.flat, m.role, r, n, k)
    ensures ok <==> 1 + Missing(old(m.mem), r, Split(k), 0) <= |old(m.free)|
    ensures ok ==>
      Laid(old(m.mem), m.mem, r, Split(k), 0) && |m.free| == |old(m.free)| - 1 - Missing(old(m.mem), r, Split(k), 0)
  {
    ghost var mem1, flat1, role1 := m.mem, m.flat, m.role;
    SelfKept(m.mem, m.free, m.role);
    var c := m.Kalloc();
    if c == 0 {
      forall x: nat ensures UserStays(role1, m.role, x) { }
      return false;
    }
    m.Fill(c, row);
    assert mem1[c := Filled(JUNK_NEW)][c := row] == mem1[c := row];
    OnePage(k, c);
    ghost var mem2 := m.mem;
    TablesReach(mem1, old(m.free), role1, mem2, r);
    var rc, panicked; ghost var done;
    rc, panicked, done := m.Mappages(r, PGSIZE * k, PGSIZE, PGSIZE * c, flags);
    AddDone(mem1, flat1, role1, m.mem, m.flat, m.role, r, k, done, c, flags.(v := true), row);
    AddReach(mem1, mem2, m.mem, r, k);
    if rc != 0 {
      GainUndone(flat, role, flat1, role1, m.flat, m.role, r, n, k, c, flags.(v := true));
      m.GiveBack(c);
      return false;
    }
    GainNext(flat, role, flat1, role1, m.flat, m.role, r, n, k, c, flags.(v := true));
    RowsNext(mem1, flat1, role1, m.mem, m.flat, flat, role, r, n, k, c, flags.(v := true), rows, row);
    return true;
  }

  lemma AddReach(mem1: Mem, mem2: Mem, mem3: Mem, r: nat, k: nat)
    requires SameReach(mem1, mem2, r)
    ensures TablesFor(mem2, r, k, 1) == Missing(mem1, r, Split(k), 0)
    ensures Paved(mem2, mem3, r, k, 1) ==> Laid(mem1, mem3, r, Split(k), 0)
  {
    PavedOne(mem2, mem3, r, k);
    assert SameReachAt(mem1, mem2, r, Split(k), 0) && SameReachAt(mem1, mem2, r, Split(k), 1);
    if Paved(mem2, mem3, r, k, 1) {
      ReachSelf(mem3, r);
      LaidBetween(mem1, mem2, mem3, mem3, r, Split(k));
    }
  }

  /** One entry, with the given flags, is new. */
  ghost predicate Adds(flat: Flat, flat': Flat, r: nat, k: nat, flags: Flags) {
    && At(flat', r, k).flags == flags
    && forall r': nat, w: nat :: (r' != r || w != k) ==> At(flat', r', w) == At(flat, r', w)
  }

  lemma OnePage(k: nat, c: nat)
    requires k < TOP
    ensures (PGSIZE * c) / PGSIZE == c && (PGSIZE * k) / PGSIZE == k && PageSpan(PGSIZE * k, PGSIZE) == 1
      && PGSIZE * k + PGSIZE <= MAXVA
  {
    assert (PGSIZE * k + PGSIZE - 1) / PGSIZE == k;
  }

  /** What mappages of the new page c leaves of roles and contents. */
  lemma AddDone(mem1: Mem, flat1: Flat, role1: Roles, mem3: Mem, flat3: Flat, role3: Roles, r: nat, k: nat, done: nat,
      c: nat, flags: Flags, row: seq<Word>)
    requires c in role1 && role1[c] == Free && Root(role1, r) && DataKept(mem1, mem1, role1)
    requires DataKept(mem1[c := row], mem3, role1[c := Held])
      && MapsRun(flat1, role1[c := Held], flat3, role3, r, k, done, c, flags) && done <= 1
    ensures Root(role3, r) && c in role3 && c in mem3 && mem3[c] == row
    ensures DataKept(mem1, mem3, role1) && DataKept(mem1, mem3[c := Filled(JUNK_FREE)], role1)
    ensures UsersStay(role1, role3) && UsersStay(role1, role3[c := Free])
    ensures done == 0 ==> SameFlat(flat1, flat3)
  {
    var mem2, role2, mem4, role4 := mem1[c := row], role1[c := Held], mem3[c := Filled(JUNK_FREE)], role3[c := Free];
    assert RoleStep(role2, role3, c, done, r) && RoleStep(role2, role3, c, done, c) && DataAt(mem2, mem3, role2, c);
    forall x: nat ensures DataAt(mem1, mem3, role1, x) && DataAt(mem1, mem4, role1, x) {
      assert DataAt(mem1, mem1, role1, x) && DataAt(mem2, mem3, role2, x);
    }
    forall x: nat ensures UserStays(role1, role3, x) && UserStays(role1, role4, x) {
      assert RoleStep(role2, role3, c, done, x);
    }
  }

  // ----- what growing takes

  /** How many free pages it takes to give r the pages first .. first + n - 1: one each, and
      the tables that are missing. */
  function Need(mem: Mem, r: nat, first: nat, n: nat): nat {
    n + TablesFor(mem, r, first, n)
  }

  lemma NeedNext(mem0: Mem, mem1: Mem, mem2: Mem, r: nat, first: nat, k: nat)
    requires Paved(mem0, mem1, r, first, k) && first + k < MAXVPN
    ensures Need(mem0, r, first, k + 1) == Need(mem0, r, first, k) + 1 + Missing(mem1, r, Split(first + k), 0)
    ensures Laid(mem1, mem2, r, Split(first + k), 0) ==> Paved(mem0, mem2, r, first, k + 1)
  {
    MissingNext(mem0, mem1, r, first, k);
    if Laid(mem1, mem2, r, Split(first + k), 0) { PavedNext(mem0, mem1, mem2, r, first, k); }
  }

  /** Of free0 pages, those for growing from n to k pages have been used. */
  ghost predicate Spent(mem0: Mem, free0: nat, mem: Mem, free: nat, r: nat, n: nat, k: nat) {
    n <= k && Paved(mem0, mem, r, n, k - n) && free + Need(mem0, r, n, k - n) == free0
  }

  lemma SpentNext(mem0: Mem, free0: nat, mem1: Mem, free1: nat, mem2: Mem, free2: nat, r: nat, n: nat, k: nat)
    requires Spent(mem0, free0, mem1, free1, r, n, k) && k < MAXVPN
    ensures 1 + Missing(mem1, r, Split(k), 0) <= free1 <==> Need(mem0, r, n, k + 1 - n) <= free0
    ensures Laid(mem1, mem2, r, Split(k), 0) && free2 == free1 - 1 - Missing(mem1, r, Split(k), 0) ==>
      Spent(mem0, free0, mem2, free2, r, n, k + 1)
  {
    NeedNext(mem0, mem1, mem2, r, n, k - n);
  }

  lemma NeedGrows(mem: Mem, r: nat, first: nat, k: nat, n: nat)
    requires k <= n
    ensures Need(mem, r, first, k) <= Need(mem, r, first, n)
  {
    TablesGrow(mem, r, first, k, n);
  }

  ghost function Zeros(n: nat): (rows: seq<seq<Word>>)
    ensures |rows| == n && forall j :: 0 <= j < n ==> rows[j] == Filled(ZERO)
  {
    if n == 0 then [] else Zeros(n - 1) + [Filled(ZERO)]
  }

  /** Pages lo .. hi - 1 of r have these flags. */
  ghost predicate FlagsAre(flat: Flat, r: nat, lo: nat, hi: nat, flags: Flags) {
    forall w: nat :: FlagsAt(flat, r, lo, hi, flags, w)
  }

  ghost predicate FlagsAt(flat: Flat, r: nat, lo: nat, hi: nat, flags: Flags, w: nat) {
    lo <= w < hi ==> At(flat, r, w).flags == flags
  }

  lemma FlagsNext(flat: Flat, flat': Flat, r: nat, lo: nat, k: nat, flags: Flags)
    requires FlagsAre(flat, r, lo, k, flags) && Adds(flat, flat', r, k, flags)
    ensures FlagsAre(flat', r, lo, k + 1, flags)
  {
    var k' := k + 1;
    forall w: nat ensures FlagsAt(flat', r, lo, k', flags, w) { assert FlagsAt(flat, r, lo, k, flags, w); }
  }

  // ----- grow and shrink

  ghost predicate OwnedPage(flat: Flat, role: Roles, r: nat, lo: nat, hi: nat, w: nat) {
    lo <= w < hi ==> Owned(role, At(flat, r, w))
  }

  /** The table owns its pages lo .. hi - 1. */
  ghost predicate OwnedPages(flat: Flat, role: Roles, r: nat, lo: nat, hi: nat) {
    forall w: nat :: OwnedPage(flat, role, r, lo, hi, w)
  }

  /** uvmunmap of owned pages frees them and cannot panic. */
  method UnmapOwned(m: Memory, r: nat, lo: nat, hi: nat)
    requires m.Valid() && Root(m.role, r) && lo <= hi <= TOP && OwnedPages(m.flat, m.role, r, lo, hi)
    modifies m
    ensures m.Valid() && UnmapsRun(old(m.flat), old(m.role), m.flat, m.role, r, lo, hi - lo)
      && DataKept(old(m.mem), m.mem, m.role)
  {
    assert (PGSIZE * lo) / PGSIZE == lo;
    forall w: nat | lo <= w < hi ensures Owned(m.role, At(m.flat, r, w)) {
      assert OwnedPage(m.flat, m.role, r, lo, hi, w);
    }
    var panicked := m.Uvmunmap(r, PGSIZE * lo, hi - lo, true);
  }

  /** uvmdealloc: from oldsz down to newsz bytes, or nothing if newsz is not smaller. */
  method Uvmdealloc(m: Memory, r: nat, oldsz: nat, newsz: nat) returns (sz: nat)
    requires m.Valid() && Root(m.role, r) && Up(oldsz) <= TOP && OwnedPages(m.flat, m.role, r, Up(newsz), Up(oldsz))
    modifies m
    ensures m.Valid() && sz == (if newsz < oldsz then newsz else oldsz) && DataKept(old(m.mem), m.mem, m.role)
    ensures Up(sz) <= Up(oldsz) && UnmapsRun(old(m.flat), old(m.role), m.flat, m.role, r, Up(sz), Up(oldsz) - Up(sz))
  {
    SelfKept(m.mem, m.free, m.role);
    if newsz >= oldsz {
      return oldsz;
    }
    if Up(newsz) < Up(oldsz) {
      UnmapOwned(m, r, Up(newsz), Up(oldsz));
    }
    return newsz;
  }

  /** The pages that the first n mappings of r own. */
  ghost function PagesOf(flat: Flat, r: nat, n: nat): set<nat> {
    set w | 0 <= w < n :: At(flat, r, w).ppn
  }

  lemma {:induction false} PagesDiffer(mem: Mem, free: seq<nat>, role: Roles, flat: Flat, r: nat, n: nat)
    requires Inv(mem, free, role, {}) && Refines(mem, role, flat) && Root(role, r) && n <= MAXVPN
      && OwnedPages(flat, role, r, 0, n)
    ensures |PagesOf(flat, r, n)| == n
  {
    if n > 0 {
      var k := n - 1;
      forall w: nat ensures OwnedPage(flat, role, r, 0, k, w) { assert OwnedPage(flat, role, r, 0, n, w); }
      PagesDiffer(mem, free, role, flat, r, k);
      assert OwnedPage(flat, role, r, 0, n, k);
      forall w: nat | w < k ensures At(flat, r, w).ppn != At(flat, r, k).ppn {
        assert OwnedPage(flat, role, r, 0, n, w);
        OwnedDistinct(mem, free, role, flat, r, w, r, k);
      }
      assert PagesOf(flat, r, n) == PagesOf(flat, r, k) + {At(flat, r, k).ppn};
    }
  }

  ghost function Between(lo: nat, hi: nat): (s: set<nat>)
    requires lo <= hi
    ensures |s| == hi - lo && forall x :: x in s <==> lo <= x < hi
    decreases hi
  {
    if lo == hi then {} else Between(lo, hi - 1) + {hi - 1}
  }

  lemma {:induction false} SmallerSet(a: set<nat>, b: set<nat>)
    requires a <= b
    ensures |a| <= |b|
    decreases |b|
  {
    if a != {} {
      var x :| x in a;
      SmallerSet(a - {x}, b - {x});
    }
  }

  /** A process has fewer pages than the machine: the root of its table is one as well. */
  lemma PagesFit(mem: Mem, free: seq<nat>, role: Roles, flat: Flat, r: nat, n: nat, lo: nat, hi: nat)
    requires Inv(mem, free, role, {}) && Refines(mem, role, flat) && Root(role, r) && n <= MAXVPN
      && OwnedPages(flat, role, r, 0, n)
    requires InRange(role, lo, hi)
    ensures n < hi - lo
  {
    PagesDiffer(mem, free, role, flat, r, n);
    assert ManagedAt(role, lo, hi, r);
    forall x | x in PagesOf(flat, r, n) ensures lo <= x < hi && x != r {
      var w: nat :| w < n && At(flat, r, w).ppn == x;
      assert OwnedPage(flat, role, r, 0, n, w) && ManagedAt(role, lo, hi, x);
    }
    SmallerSet(PagesOf(flat, r, n) + {r}, Between(lo, hi));
  }

  /** Pages owned before a table grows stay owned. */
  lemma OwnedGained(flat: Flat, role: Roles, flat': Flat, role': Roles, r: nat, n: nat, k: nat)
    requires Gained(flat, role, flat', role', r, n, k) && n <= k && OwnedPages(flat, role, r, 0, n)
    ensures OwnedPages(flat', role', r, 0, k)
  {
    forall w: nat ensures OwnedPage(flat', role', r, 0, k, w) {
      assert OwnedPage(flat, role, r, 0, n, w) && GrownAt(flat, role, flat', role', r, n, k, r, w);
      assert GainedAt(role, flat', role', r, n, k, At(flat, r, w).ppn);
    }
  }

  /** A process that has grown from n to k pages has not reached the trapframe page, and its
      page k is still as it was. */
  lemma RoomLeft(m: Memory, r: nat, flat: Flat, role: Roles, n: nat, k: nat)
    requires m.Valid() && Root(m.role, r) && m.hi - m.lo <= TOP && n <= k <= TOP
    requires Gained(flat, role, m.flat, m.role, r, n, k) && OwnedPages(flat, role, r, 0, n)
    ensures k < TOP && At(m.flat, r, k) == At(flat, r, k)
  {
    OwnedGained(flat, role, m.flat, m.role, r, n, k);
    PagesFit(m.mem, m.free, m.role, m.flat, r, k, m.lo, m.hi);
    assert GrownAt(flat, role, m.flat, m.role, r, n, k, r, k);
  }

  /** uvmalloc: from oldsz up to newsz bytes of zeroed memory.  If memory runs out, the leaf
      map is as before; it runs out before the process reaches the trapframe page. */
  method Uvmalloc(m: Memory, r: nat, oldsz: nat, newsz: nat, perm: Flags) returns (sz: nat)
    requires m.Valid() && Root(m.role, r) && Leaf(perm) && m.hi - m.lo <= TOP
      && OwnedPages(m.flat, m.role, r, 0, Up(oldsz)) && Up(oldsz) <= TOP
    requires forall w: nat :: Up(oldsz) <= w < TOP ==> At(m.flat, r, w) == ZERO
    modifies m
    ensures m.Valid() && Root(m.role, r) && DataKept(old(m.mem), m.mem, old(m.role))
    ensures newsz < oldsz ==> sz == oldsz && unchanged(m)
    ensures oldsz <= newsz && sz == newsz ==> Up(newsz) <= TOP
    ensures oldsz <= newsz && sz == newsz ==> Gained(old(m.flat), old(m.role), m.flat, m.role, r, Up(oldsz), Up(newsz))
    ensures oldsz <= newsz && sz == newsz ==>
      Rows(m.mem, m.flat, r, Up(oldsz), Zeros(Up(newsz) - Up(oldsz)))
    ensures oldsz <= newsz && sz == newsz ==> FlagsAre(m.flat, r, Up(oldsz), Up(newsz), perm.(v := true))
    ensures oldsz <= newsz && sz != newsz ==>
      sz == 0 && SameFlat(old(m.flat), m.flat) && OnlyTables(old(m.role), m.role)
    ensures oldsz <= newsz ==>
      (sz == newsz <==> Need(old(m.mem), r, Up(oldsz), Up(newsz) - Up(oldsz)) <= |old(m.free)|)
  {
    SelfKept(m.mem, m.free, m.role);
    if newsz < oldsz {
      return oldsz;
    }
    var ok, k := GrowPages(m, r, Up(oldsz), newsz, perm);
    if !ok {
      TakeBack(m, r, Up(oldsz), k, old(m.mem), old(m.flat), old(m.role));
      return 0;
    }
    return newsz;
  }

  /** The loop of uvmalloc, from page n on: it stops before page k if memory runs out. */
  method GrowPages(m: Memory, r: nat, n: nat, newsz: nat, perm: Flags) returns (ok: bool, k: nat)
    requires m.Valid() && Root(m.role, r) && Leaf(perm) && m.hi - m.lo <= TOP && OwnedPages(m.flat, m.role, r, 0, n)
    requires n <= Up(newsz) && n <= TOP && forall w: nat :: n <= w < TOP ==> At(m.flat, r, w) == ZERO
    modifies m
    ensures m.Valid() && Root(m.role, r) && DataKept(old(m.mem), m.mem, old(m.role)) && UsersStay(old(m.role), m.role)
    ensures n <= k <= TOP && Gained(old(m.flat), old(m.role), m.flat, m.role, r, n, k)
    ensures ok <==> Need(old(m.mem), r, n, Up(newsz) - n) <= |old(m.free)|
    ensures ok ==> k == Up(newsz)
    ensures ok ==> Rows(m.mem, m.flat, r, n, Zeros(k - n)) && FlagsAre(m.flat, r, n, k, perm.(v := true))
  {
    var a := n * PGSIZE;
    k := n;
    SelfKept(m.mem, m.free, m.role);
    forall c: nat ensures UserStays(m.role, m.role, c) { }
    GainNothing(m.flat, m.role, r, n);
    PavedNone(m.mem, r, n);
    PageCount(a, k, newsz);
    while a < newsz
      invariant a == PGSIZE * k && n <= k <= Up(newsz) && k <= TOP && (a < newsz <==> k < Up(newsz))
      invariant m.Valid() && Root(m.role, r) && Gained(old(m.flat), old(m.role), m.flat, m.role, r, n, k)
      invariant Rows(m.mem, m.flat, r, n, Zeros(k - n)) && FlagsAre(m.flat, r, n, k, perm.(v := true))
      invariant DataKept(old(m.mem), m.mem, old(m.role)) && UsersStay(old(m.role), m.role)
      invariant Spent(old(m.mem), |old(m.free)|, m.mem, |m.free|, r, n, k)
      decreases Up(newsz) - k
    {
      NeedGrows(old(m.mem), r, n, k + 1 - n, Up(newsz) - n);
      PageOf(a, k);
      ok := ZeroPage(m, r, a / PGSIZE, perm, n, old(m.mem), old(m.flat), old(m.role), |old(m.free)|);
      if !ok {
        return;
      }
      k := k + 1;
      a := a + PGSIZE;
      PageCount(a, k, newsz);
    }
    ok := true;
  }

  lemma PageCount(a: nat, k: nat, sz: nat)
    requires a == PGSIZE * k
    ensures a < sz <==> k < Up(sz)
  {
  }

  /** One round of uvmalloc. */
  method ZeroPage(m: Memory, r: nat, k: nat, perm: Flags, ghost n: nat, ghost mem0: Mem, ghost flat0: Flat,
      ghost role0: Roles, ghost free0: nat) returns (ok: bool)
    requires m.Valid() && Root(m.role, r) && Leaf(perm) && m.hi - m.lo <= TOP && OwnedPages(flat0, role0, r, 0, n)
    requires n <= k <= TOP && (k < TOP ==> At(flat0, r, k) == ZERO)
    requires Gained(flat0, role0, m.flat, m.role, r, n, k) && Rows(m.mem, m.flat, r, n, Zeros(k - n))
    requires DataKept(mem0, m.mem, role0) && UsersStay(role0, m.role)
    requires Spent(mem0, free0, m.mem, |m.free|, r, n, k) && FlagsAre(m.flat, r, n, k, perm.(v := true))
    modifies m
    ensures m.Valid() && Root(m.role, r) && DataKept(mem0, m.mem, role0) && UsersStay(role0, m.role)
    ensures k < TOP && (ok <==> Need(mem0, r, n, k + 1 - n) <= free0)
    ensures ok ==> Gained(flat0, role0, m.flat, m.role, r, n, k + 1) && Rows(m.mem, m.flat, r, n, Zeros(k + 1 - n))
    ensures ok ==>
      Spent(mem0, free0, m.mem, |m.free|, r, n, k + 1) && FlagsAre(m.flat, r, n, k + 1, perm.(v := true))
    ensures !ok ==> Gained(flat0, role0, m.flat, m.role, r, n, k)
  {
    RoomLeft(m, r, flat0, role0, n, k);
    ok := AddPage(m, r, k, Filled(ZERO), perm, flat0, role0, n, Zeros(k - n));
    StepKept(mem0, role0, old(m.mem), old(m.role), m.mem, m.role);
    SpentNext(mem0, free0, old(m.mem), |old(m.free)|, m.mem, |m.free|, r, n, k);
    if ok { FlagsNext(old(m.flat), m.flat, r, n, k, perm.(v := true)); }
  }

  lemma StepKept(mem: Mem, role: Roles, mem1: Mem, role1: Roles, mem2: Mem, role2: Roles)
    requires DataKept(mem, mem1, role) && UsersStay(role, role1) && DataKept(mem1, mem2, role1)
      && UsersStay(role1, role2)
    ensures DataKept(mem, mem2, role) && UsersStay(role, role2)
  {
    DataThen(mem, mem1, mem2, role, role1);
    forall c: nat ensures UserStays(role, role2, c) { assert UserStays(role, role1, c) && UserStays(role1, role2, c); }
  }

  /** The failure exit of uvmalloc and uvmcopy. */
  method TakeBack(m: Memory, r: nat, n: nat, k: nat, ghost mem: Mem, ghost flat: Flat, ghost role: Roles)
    requires m.Valid() && Root(m.role, r) && Root(role, r) && n <= k <= TOP
      && Gained(flat, role, m.flat, m.role, r, n, k)
    requires forall w: nat :: n <= w < k ==> At(flat, r, w) == ZERO
    requires DataKept(mem, m.mem, role) && UsersStay(role, m.role)
    modifies m
    ensures m.Valid() && Root(m.role, r) && SameFlat(flat, m.flat) && OnlyTables(role, m.role)
      && DataKept(mem, m.mem, role)
  {
    ghost var mem1, flat1, role1 := m.mem, m.flat, m.role;
    forall w: nat ensures OwnedPage(m.flat, m.role, r, n, k, w) {
      assert GrownAt(flat, role, m.flat, m.role, r, n, k, r, w);
    }
    UnmapOwned(m, r, n, k);
    GainRemoved(flat, role, flat1, role1, m.flat, m.role, r, n, k);
    assert TabledAt(role, m.role, r);
    forall c: nat ensures DataAt(mem, m.mem, role, c) {
      assert TabledAt(role, m.role, c) && DataAt(mem, mem1, role, c) && DataAt(mem1, m.mem, m.role, c);
    }
  }

  // ----- copy

  /** Pages 0 .. k - 1 of q have the flags of those of r in the old map. */
  ghost predicate SameFlags(flat0: Flat, r: nat, flat: Flat, q: nat, k: nat) {
    forall w: nat :: w < k ==> At(flat, q, w).flags == At(flat0, r, w).flags
  }

  /** The contents of the first k pages of r. */
  ghost function Image(mem: Mem, flat: Flat, r: nat, k: nat): (rows: seq<seq<Word>>)
    ensures |rows| == k
  {
    if k == 0 then [] else
      Image(mem, flat, r, k - 1) + [if At(flat, r, k - 1).ppn in mem then mem[At(flat, r, k - 1).ppn] else []]
  }

  /** uvmcopy: the child's pages hold what the parent's hold, with the same flags, and the
      parent is as before.  If memory runs out, the child has no pages. */
  method Uvmcopy(m: Memory, r: nat, q: nat, sz: nat) returns (rc: int, panicked: bool)
    requires m.Valid() && Root(m.role, r) && Root(m.role, q) && r != q && Up(sz) <= TOP
    requires Space(m.flat, m.role, r, Up(sz)) && Space(m.flat, m.role, q, 0)
    modifies m
    ensures m.Valid() && !panicked && Root(m.role, r) && Root(m.role, q) && DataKept(old(m.mem), m.mem, old(m.role))
    ensures rc == 0 || rc == -1
    ensures rc == 0 ==>
      Gained(old(m.flat), old(m.role), m.flat, m.role, q, 0, Up(sz)) && SameFlags(old(m.flat), r, m.flat, q, Up(sz))
    ensures rc == 0 ==> Rows(m.mem, m.flat, q, 0, Image(old(m.mem), old(m.flat), r, Up(sz)))
    ensures rc == -1 ==> SameFlat(old(m.flat), m.flat) && OnlyTables(old(m.role), m.role)
    ensures rc == 0 <==> Need(old(m.mem), q, 0, Up(sz)) <= |old(m.free)|
  {
    panicked := false;
    var i := 0;
    ghost var k := 0;
    SelfKept(m.mem, m.free, m.role);
    GainNothing(m.flat, m.role, q, 0);
    PavedNone(m.mem, q, 0);
    while i < sz
      invariant i == PGSIZE * k && k <= Up(sz) && m.Valid() && Root(m.role, q) && Root(m.role, r)
      invariant Gained(old(m.flat), old(m.role), m.flat, m.role, q, 0, k) && SameFlags(old(m.flat), r, m.flat, q, k)
      invariant Rows(m.mem, m.flat, q, 0, Image(old(m.mem), old(m.flat), r, k))
      invariant DataKept(old(m.mem), m.mem, old(m.role)) && UsersStay(old(m.role), m.role)
      invariant Paved(old(m.mem), m.mem, q, 0, k) && |m.free| == |old(m.free)| - Need(old(m.mem), q, 0, k)
      decreases Up(sz) - k
    {
      var ok;
      ghost var mem1 := m.mem;
      ok, panicked := CopyPage(m, r, q, i, k, Up(sz), old(m.mem), old(m.flat), old(m.role));
      NeedNext(old(m.mem), mem1, m.mem, q, 0, k);
      NeedGrows(old(m.mem), q, 0, k + 1, Up(sz));
      if !ok {
        forall w: nat | w < k ensures At(old(m.flat), q, w) == ZERO {
          assert SpaceAt(old(m.flat), old(m.role), q, 0, w);
        }
        TakeBack(m, q, 0, i / PGSIZE, old(m.mem), old(m.flat), old(m.role));
        assert TabledAt(old(m.role), m.role, r);
        return -1, false;
      }
      k := k + 1;
      i := i + PGSIZE;
    }
    return 0, false;
  }

  /** One round of uvmcopy. */
  method CopyPage(m: Memory, r: nat, q: nat, i: nat, ghost k: nat, ghost n: nat, ghost mem0: Mem, ghost flat0: Flat,
      ghost role0: Roles) returns (ok: bool, panicked: bool)
    requires i == PGSIZE * k && k < n <= TOP && m.Valid() && Root(m.role, q) && Root(m.role, r) && r != q
    requires Space(flat0, role0, r, n) && Space(flat0, role0, q, 0)
    requires Gained(flat0, role0, m.flat, m.role, q, 0, k) && SameFlags(flat0, r, m.flat, q, k)
    requires Rows(m.mem, m.flat, q, 0, Image(mem0, flat0, r, k)) && DataKept(mem0, m.mem, role0)
      && UsersStay(role0, m.role)
    modifies m
    ensures m.Valid() && !panicked && Root(m.role, q) && Root(m.role, r) && DataKept(mem0, m.mem, role0)
      && UsersStay(role0, m.role)
    ensures !ok ==> Gained(flat0, role0, m.flat, m.role, q, 0, k)
    ensures ok ==> Gained(flat0, role0, m.flat, m.role, q, 0, k + 1) && SameFlags(flat0, r, m.flat, q, k + 1)
    ensures ok ==> Rows(m.mem, m.flat, q, 0, Image(mem0, flat0, r, k + 1))
    ensures ok <==> 1 + Missing(old(m.mem), q, Split(k), 0) <= |old(m.free)|
    ensures ok ==>
      Laid(old(m.mem), m.mem, q, Split(k), 0) && |m.free| == |old(m.free)| - 1 - Missing(old(m.mem), q, Split(k), 0)
  {
    PageOf(i, k);
    var found, s;
    found, s, panicked := m.Walk(r, i, false);
    CopySource(m.mem, m.free, m.flat, m.role, mem0, flat0, role0, r, q, k, n);
    if !found || !V(Get(m.mem, s)) {
      return false, true;
    }
    var pte := Get(m.mem, s);
    ghost var mem1, role1 := m.mem, m.role;
    assert GrownAt(flat0, role0, m.flat, m.role, q, 0, k, q, k) && SpaceAt(flat0, role0, q, 0, k);
    ok := AddPage(m, q, i / PGSIZE, m.mem[pte.ppn], pte.flags, flat0, role0, 0, Image(mem0, flat0, r, k));
    StepKept(mem0, role0, mem1, role1, m.mem, m.role);
    assert UserStays(role1, m.role, r);
  }

  /** The page that uvmcopy copies next: mapped, a leaf, and as it was at the start. */
  lemma CopySource(mem: Mem, free: seq<nat>, flat: Flat, role: Roles, mem0: Mem, flat0: Flat, role0: Roles, r: nat,
      q: nat, k: nat, n: nat)
    requires Inv(mem, free, role, {}) && Refines(mem, role, flat) && Root(role, r) && r != q && k < n <= TOP
    requires Space(flat0, role0, r, n) && Gained(flat0, role0, flat, role, q, 0, k) && DataKept(mem0, mem, role0)
      && UsersStay(role0, role)
    ensures Reaches(mem, r, Split(k), 0)
    ensures var e := At(flat0, r, k);
      && Get(mem, SlotAt(mem, r, Split(k), 0)) == e && V(e) && Leaf(e.flags)
      && e.ppn in mem && e.ppn in mem0 && mem[e.ppn] == mem0[e.ppn] && |mem[e.ppn]| == NPTE
  {
    var e := At(flat0, r, k);
    assert SpaceAt(flat0, role0, r, n, k) && GrownAt(flat0, role0, flat, role, q, 0, k, r, k)
      && RefinesAt(mem, role, flat, r, k);
    LeafSlot(mem, free, role, r, k);
    assert DataAt(mem0, mem, role0, e.ppn) && UserStays(role0, role, e.ppn) && PageOk(mem, role, {}, e.ppn);
  }

  // ----- create

  ghost function WithoutRoot(flat: Flat, r: nat): Flat {
    imap p: (nat, nat) | p in flat && p.0 != r :: flat[p]
  }

  /** uvmcreate: a new, empty table, or 0. */
  method Uvmcreate(m: Memory) returns (c: nat)
    requires m.Valid()
    modifies m
    ensures m.Valid()
    ensures c == 0 ==> unchanged(m) && m.free == []
    ensures c != 0 ==>
      c in old(m.role) && old(m.role)[c] == Free && Root(m.role, c) && m.role == old(m.role)[c := m.role[c]]
      && Space(m.flat, m.role, c, 0)
    ensures c != 0 ==> forall r: nat, v: nat :: r != c ==> At(m.flat, r, v) == At(old(m.flat), r, v)
  {
    c := m.Kalloc();
    if c == 0 {
      return;
    }
    m.Fill(c, Filled(ZERO));
    RootKeeps(m.mem, m.free, m.role, c);
    NewRoot(m.mem, m.role, m.flat, c);
    m.role := m.role[c := Table(2, Slot(0, 0), [c])];
    m.flat := WithoutRoot(m.flat, c);
    SameManaged(old(m.role), m.role, m.lo, m.hi);
    forall v: nat ensures SpaceAt(m.flat, m.role, c, 0, v) { }
  }

  lemma NewRoot(mem: Mem, role: Roles, flat: Flat, c: nat)
    requires Refines(mem, role, flat) && c in mem && IsZero(mem[c]) && c in role && role[c] == Held
    ensures Refines(mem, role[c := Table(2, Slot(0, 0), [c])], WithoutRoot(flat, c))
  {
    var role', flat' := role[c := Table(2, Slot(0, 0), [c])], WithoutRoot(flat, c);
    forall r: nat, v: nat ensures RefinesAt(mem, role', flat', r, v) {
      assert RefinesAt(mem, role, flat, r, v);
      if r == c {
        assert Get(mem, SlotAt(mem, c, Split(v), 2)) == ZERO;
        StopStays(mem, c, Split(v), 2, 0);
      }
    }
  }

  // ----- free

  ghost predicate NoLeafAt(mem: Mem, role: Roles, path: seq<nat>, s: Slot) {
    IsTable(role, s.page) && role[s.page].lvl == 0 && path <= role[s.page].path && s.i < NPTE ==> Get(mem, s) == ZERO
  }

  /** No table below the path has a leaf entry. */
  ghost predicate NoLeaves(mem: Mem, role: Roles, path: seq<nat>) {
    forall s :: NoLeafAt(mem, role, path, s)
  }

  /** The pages below entries 0 .. i - 1 of the table at the path. */
  ghost predicate UnderEntries(role: Roles, path: seq<nat>, i: nat, x: nat) {
    Under(role, path, x) && |role[x].path| > |path| && role[x].path[|path|] < i
  }

  /** Page x is free if it was under the entries, and otherwise as before. */
  ghost predicate PartFreed(mem: Mem, role: Roles, mem': Mem, role': Roles, p: nat, path: seq<nat>, i: nat, x: nat) {
    && (x in role' <==> x in role)
    && (x in role ==> role'[x] == if UnderEntries(role, path, i, x) then Free else role[x])
    && (x in role && x != p && !UnderEntries(role, path, i, x) ==> SameRow(mem, mem', x))
  }

  ghost predicate FreedAt(mem: Mem, role: Roles, mem': Mem, role': Roles, path: seq<nat>, x: nat) {
    && (x in role' <==> x in role)
    && (x in role ==> role'[x] == if Under(role, path, x) then Free else role[x])
    && (x in role && !Under(role, path, x) ==> SameRow(mem, mem', x))
  }

  /** All pages at or below the path are free, and all others as before. */
  ghost predicate Freed(mem: Mem, role: Roles, mem': Mem, role': Roles, path: seq<nat>) {
    forall x: nat :: FreedAt(mem, role, mem', role', path, x)
  }

  ghost predicate EntrySwept(mem0: Mem, mem: Mem, p: nat, i: nat, j: nat) {
    j < NPTE ==> Get(mem, Slot(p, j)) == if j < i then ZERO else Get(mem0, Slot(p, j))
  }

  /** freewalk has dealt with entries 0 .. i - 1 of table p. */
  ghost predicate Sweeping(mem0: Mem, role0: Roles, mem: Mem, role: Roles, p: nat, path: seq<nat>, i: nat) {
    && IsTable(role0, p) && role0[p].path == path && NoLeaves(mem0, role0, path)
    && (forall x: nat :: PartFreed(mem0, role0, mem, role, p, path, i, x))
    && (forall j: nat :: EntrySwept(mem0, mem, p, i, j))
  }

  /** freewalk: every page of the table at p becomes free, once.  The entry that holds p is
      left as it is. */
  method Freewalk(m: Memory, p: nat) returns (panicked: bool)
    requires m.ValidBut({}) && IsTable(m.role, p) && NoLeaves(m.mem, m.role, m.role[p].path)
    modifies m
    ensures !panicked && m.flat == old(m.flat)
    ensures m.ValidBut(if Root(old(m.role), p) then {} else {old(m.role)[p].up})
    ensures Freed(old(m.mem), old(m.role), m.mem, m.role, old(m.role)[p].path)
    ensures !Root(old(m.role), p) ==> Orphan(m.role, old(m.role)[p].up)
    decreases m.role[p].lvl, 1
  {
    ghost var path := m.role[p].path;
    StartFree(m.mem, m.free, m.role, p);
    var i := 0;
    while i < NPTE
      invariant 0 <= i <= NPTE && m.ValidBut({}) && m.flat == old(m.flat)
      invariant Sweeping(old(m.mem), old(m.role), m.mem, m.role, p, path, i)
    {
      assert PartFreed(old(m.mem), old(m.role), m.mem, m.role, p, path, i, p);
      panicked := FreeEntry(m, p, i, old(m.mem), old(m.role), path);
      i := i + 1;
    }
    EndFree(m.mem, m.free, m.role, old(m.mem), old(m.free), old(m.role), p, path);
    ghost var role1: Roles := m.role;
    m.role := m.role[p := Held];
    SameManaged(role1, m.role, m.lo, m.hi);
    ghost var role2: Roles := m.role;
    panicked := m.FreePage(p, if Root(old(m.role), p) then {} else {old(m.role)[p].up});
    assert role2[p := Free] == role1[p := Free];
  }

  /** One round of freewalk's loop. */
  method FreeEntry(m: Memory, p: nat, i: nat, ghost mem0: Mem, ghost role0: Roles, ghost path: seq<nat>)
      returns (panicked: bool)
    requires m.ValidBut({}) && i < NPTE && Sweeping(mem0, role0, m.mem, m.role, p, path, i) && IsTable(m.role, p)
      && m.role[p] == role0[p]
    modifies m
    ensures !panicked && m.ValidBut({}) && m.flat == old(m.flat) && Sweeping(mem0, role0, m.mem, m.role, p, path, i + 1)
    decreases m.role[p].lvl, 0
  {
    ChildOf(m.mem, m.free, m.role, mem0, role0, p, path, i);
    var pte := Get(m.mem, Slot(p, i));
    panicked := false;
    if V(pte) && !Leaf(pte.flags) {
      assert PageOk(m.mem, m.role, {}, p);
      ghost var mem1, role1 := m.mem, m.role;
      var bad := Freewalk(m, pte.ppn);
      SweptChild(mem0, role0, mem1, role1, m.mem, m.free, m.role, p, path, i);
      m.mem := Put(m.mem, Slot(p, i), ZERO);
    } else if V(pte) {
      panicked := true;
    } else {
      SweptEmpty(mem0, role0, m.mem, m.free, m.role, p, path, i);
    }
  }

  lemma StartFree(mem: Mem, free: seq<nat>, role: Roles, p: nat)
    requires Inv(mem, free, role, {}) && IsTable(role, p) && NoLeaves(mem, role, role[p].path)
    ensures Sweeping(mem, role, mem, role, p, role[p].path, 0)
  {
    forall x: nat ensures PartFreed(mem, role, mem, role, p, role[p].path, 0, x) { assert PageOk(mem, role, {}, x); }
    forall j: nat ensures EntrySwept(mem, mem, p, 0, j) { }
  }

  /** Entry i of table p is empty, or holds a table without leaves. */
  lemma ChildOf(mem: Mem, free: seq<nat>, role: Roles, mem0: Mem, role0: Roles, p: nat, path: seq<nat>, i: nat)
    requires Inv(mem, free, role, {}) && i < NPTE && Sweeping(mem0, role0, mem, role, p, path, i) && IsTable(role, p)
      && role[p] == role0[p]
    ensures var e := Get(mem, Slot(p, i));
      if !V(e) then e == ZERO
      else !Leaf(e.flags) && IsTable(role, e.ppn) && role[p].lvl == role[e.ppn].lvl + 1 && role[e.ppn].up == Slot(p, i)
           && role[e.ppn].path == path + [i] && NoLeaves(mem, role, path + [i])
  {
    var s := Slot(p, i);
    assert EntryOk(mem, role, {}, s) && EntrySwept(mem0, mem, p, i, i) && NoLeafAt(mem0, role0, path, s);
    forall t ensures NoLeafAt(mem, role, path + [i], t) {
      assert PartFreed(mem0, role0, mem, role, p, path, i, t.page) && NoLeafAt(mem0, role0, path, t);
      if IsTable(role, t.page) && path + [i] <= role[t.page].path { assert path <= role[t.page].path; }
    }
  }

  lemma SweptEmpty(mem0: Mem, role0: Roles, mem: Mem, free: seq<nat>, role: Roles, p: nat, path: seq<nat>, i: nat)
    requires Inv(mem, free, role, {}) && i < NPTE && Sweeping(mem0, role0, mem, role, p, path, i) && IsTable(role, p)
      && role[p] == role0[p]
    requires Get(mem, Slot(p, i)) == ZERO
    ensures Sweeping(mem0, role0, mem, role, p, path, i + 1)
  {
    var i' := i + 1;
    forall x: nat ensures PartFreed(mem0, role0, mem, role, p, path, i', x) {
      assert PartFreed(mem0, role0, mem, role, p, path, i, x);
      if UnderEntries(role0, path, i', x) && !UnderEntries(role0, path, i, x) {
        assert path + [i] <= role0[x].path;
        NoneBelow(mem, free, role, p, i, x);
      }
    }
    forall j: nat ensures EntrySwept(mem0, mem, p, i', j) { assert EntrySwept(mem0, mem, p, i, j); }
  }

  /** After the child at entry i is freed, the entry can be cleared. */
  lemma SweptChild(mem0: Mem, role0: Roles, mem1: Mem, role1: Roles, mem: Mem, free: seq<nat>, role: Roles, p: nat,
      path: seq<nat>, i: nat)
    requires Sweeping(mem0, role0, mem1, role1, p, path, i) && IsTable(role1, p) && role1[p] == role0[p] && i < NPTE
      && p in mem1 && |mem1[p]| == NPTE
    requires Freed(mem1, role1, mem, role, path + [i]) && Inv(mem, free, role, {Slot(p, i)}) && Orphan(role, Slot(p, i))
    ensures p in mem && |mem[p]| == NPTE && Inv(Put(mem, Slot(p, i), ZERO), free, role, {})
    ensures Sweeping(mem0, role0, Put(mem, Slot(p, i), ZERO), role, p, path, i + 1)
  {
    var s, i' := Slot(p, i), i + 1;
    assert FreedAt(mem1, role1, mem, role, path + [i], p) && !(path + [i] <= path);
    ClearKeeps(mem, free, role, {s}, s);
    assert {s} - {s} == {};
    var mem' := Put(mem, s, ZERO);
    forall x: nat ensures PartFreed(mem0, role0, mem', role, p, path, i', x) {
      assert PartFreed(mem0, role0, mem1, role1, p, path, i, x) && FreedAt(mem1, role1, mem, role, path + [i], x);
      if x in role0 && InTree(role0, x) { PrefixIndex(path, i, role0[x].path); }
    }
    forall j: nat ensures EntrySwept(mem0, mem', p, i', j) { assert EntrySwept(mem0, mem1, p, i, j); }
  }

  lemma PrefixIndex(path: seq<nat>, i: nat, q: seq<nat>)
    ensures path + [i] <= q <==> path <= q && |q| > |path| && q[|path|] == i
  {
    if path <= q && |q| > |path| && q[|path|] == i { assert q[..|path| + 1] == path + [i]; }
    if path + [i] <= q { assert path <= q && q[|path|] == (path + [i])[|path|]; }
  }

  /** After all entries, p itself is taken and freed. */
  lemma EndFree(mem: Mem, free: seq<nat>, role: Roles, mem0: Mem, free0: seq<nat>, role0: Roles, p: nat, path: seq<nat>)
    requires Inv(mem, free, role, {}) && Inv(mem0, free0, role0, {}) && Sweeping(mem0, role0, mem, role, p, path, NPTE)
    ensures p in role && (forall x: nat :: x in role[p := Held] ==> x in role)
    ensures var hole := if Root(role0, p) then {} else {role0[p].up}; Inv(mem, free, role[p := Held], hole)
    ensures Freed(mem0, role0, mem[p := Filled(JUNK_FREE)], role[p := Free], path)
    ensures !Root(role0, p) ==> Orphan(role[p := Free], role0[p].up)
  {
    assert PartFreed(mem0, role0, mem, role, p, path, NPTE, p) && PageOk(mem, role, {}, p);
    forall j | 0 <= j < NPTE ensures mem[p][j] == ZERO {
      assert EntrySwept(mem0, mem, p, NPTE, j) && Get(mem, Slot(p, j)) == mem[p][j];
    }
    var hole := if Root(role0, p) then {} else {role0[p].up};
    TakeKeeps(mem, free, role, {}, p, hole);
    var mem', role' := mem[p := Filled(JUNK_FREE)], role[p := Free];
    forall x: nat ensures FreedAt(mem0, role0, mem', role', path, x) {
      assert PartFreed(mem0, role0, mem, role, p, path, NPTE, x) && PageOk(mem0, role0, {}, x)
        && PageOk(mem0, role0, {}, p);
      if Under(role0, path, x) && x != p {
        if role0[x].User? { assert PageOk(mem0, role0, {}, role0[x].up.page); }
        if |role0[x].path| == |path| {
          PathUnique(mem0, free0, role0, x, p);
        } else {
          IndexSmall(mem0, free0, role0, x, |path|);
        }
      }
    }
    if !Root(role0, p) {
      forall x: nat ensures NotHeldBy(role', role0[p].up, x) {
        if x in role && x != p && (role[x].User? || (role[x].Table? && role[x].lvl < 2)) {
          OneHolder(mem, free, role, {}, p, x);
        }
      }
    }
  }

  /** Page x belongs to the table at r. */
  ghost predicate BelongsTo(role: Roles, r: nat, x: nat) {
    Under(role, [r], x)
  }

  ghost predicate ReturnedAt(role: Roles, role': Roles, r: nat, x: nat) {
    (x in role' <==> x in role) && (x in role ==> role'[x] == if BelongsTo(role, r, x) then Free else role[x])
  }

  /** Exactly the pages of r have become free. */
  ghost predicate Returned(role: Roles, role': Roles, r: nat) {
    forall x: nat :: ReturnedAt(role, role', r, x)
  }

  /** uvmfree: every page of the table and every user page is free again, once, and no other
      table has changed. */
  method Uvmfree(m: Memory, r: nat, sz: nat) returns (panicked: bool)
    requires m.Valid() && Root(m.role, r) && Up(sz) <= TOP && Space(m.flat, m.role, r, Up(sz))
    requires forall w: nat :: TOP <= w < MAXVPN ==> At(m.flat, r, w) == ZERO
    modifies m
    ensures !panicked && m.Valid() && Returned(old(m.role), m.role, r)
    ensures forall r': nat, w: nat :: At(m.flat, r', w) == if r' == r then ZERO else At(old(m.flat), r', w)
  {
    if sz > 0 {
      forall w: nat ensures OwnedPage(m.flat, m.role, r, 0, Up(sz), w) { assert SpaceAt(m.flat, m.role, r, Up(sz), w); }
      UnmapOwned(m, r, 0, Up(sz));
    }
    ghost var mem1, free1, role1, flat1 := m.mem, m.free, m.role, m.flat;
    AllUnmapped(old(m.mem), old(m.free), old(m.flat), old(m.role), m.mem, m.free, m.flat, m.role, r, Up(sz));
    panicked := Freewalk(m, r);
    OthersRefine(mem1, free1, role1, flat1, m.mem, m.role, r);
    m.flat := WithoutRoot(m.flat, r);
    AllReturned(old(m.mem), old(m.free), old(m.flat), old(m.role), mem1, role1, m.mem, m.role, r, Up(sz));
  }

  /** After uvmunmap no leaf of r is left. */
  lemma AllUnmapped(mem0: Mem, free0: seq<nat>, flat0: Flat, role0: Roles, mem: Mem, free: seq<nat>, flat: Flat,
      role: Roles, r: nat, n: nat)
    requires Inv(mem0, free0, role0, {}) && Inv(mem, free, role, {}) && Refines(mem, role, flat) && Root(role0, r)
      && n <= TOP
    requires Space(flat0, role0, r, n) && (forall w: nat :: TOP <= w < MAXVPN ==> At(flat0, r, w) == ZERO)
    requires UnmapsRun(flat0, role0, flat, role, r, 0, n)
    ensures Root(role, r) && role[r].path == [r] && NoLeaves(mem, role, [r])
  {
    FreedOnlyUsers(flat0, role0, r, 0, n);
    assert PageOk(mem, role, {}, r);
    forall s ensures NoLeafAt(mem, role, [r], s) {
      if IsTable(role, s.page) && role[s.page].lvl == 0 && [r] <= role[s.page].path && s.i < NPTE {
        var x := TableReached(mem, free, role, s.page, s.i);
        assert role[s.page].path[0] == r;
        JoinSplit(x);
        var v := Join(x);
        assert RefinesAt(mem, role, flat, r, v) && SpaceAt(flat0, role0, r, n, v);
      }
    }
  }

  /** The other tables do not use the pages of r. */
  lemma OthersRefine(mem: Mem, free: seq<nat>, role: Roles, flat: Flat, mem': Mem, role': Roles, r: nat)
    requires Inv(mem, free, role, {}) && Refines(mem, role, flat) && Root(role, r) && Freed(mem, role, mem', role', [r])
    ensures Refines(mem', role', WithoutRoot(flat, r))
  {
    var flat' := WithoutRoot(flat, r);
    assert PageOk(mem, role, {}, r) && FreedAt(mem, role, mem', role', [r], r);
    forall r': nat, v: nat ensures RefinesAt(mem', role', flat', r', v) {
      assert RefinesAt(mem, role, flat, r', v) && FreedAt(mem, role, mem', role', [r], r');
      if Root(role', r') { OtherLookup(mem, free, role, mem', role', r, r', Split(v)); }
    }
  }

  lemma {:induction false} OtherPath(mem: Mem, free: seq<nat>, role: Roles, mem': Mem, role': Roles, r: nat, r': nat,
      x: Vpn, level: nat)
    requires Inv(mem, free, role, {}) && Root(role, r') && r' != r && Freed(mem, role, mem', role', [r]) && level <= 2
      && Reaches(mem, r', x, level)
    ensures Reaches(mem', r', x, level) && SlotAt(mem', r', x, level) == SlotAt(mem, r', x, level)
    ensures Get(mem', SlotAt(mem', r', x, level)) == Get(mem, SlotAt(mem, r', x, level))
    decreases 2 - level
  {
    if level < 2 { OtherPath(mem, free, role, mem', role', r, r', x, level + 1); }
    OnPath(mem, free, role, r', x, level);
    var p := SlotAt(mem, r', x, level).page;
    PathStarts(r', x, level);
    assert FreedAt(mem, role, mem', role', [r], p);
  }

  lemma {:induction false} PathStarts(r: nat, x: Vpn, level: nat)
    requires level <= 2
    ensures PathTo(r, x, level)[0] == r
    decreases 2 - level
  {
    if level < 2 { PathStarts(r, x, level + 1); }
  }

  lemma OtherLookup(mem: Mem, free: seq<nat>, role: Roles, mem': Mem, role': Roles, r: nat, r': nat, x: Vpn)
    requires Inv(mem, free, role, {}) && Root(role, r') && r' != r && Freed(mem, role, mem', role', [r])
    ensures Lookup(mem', r', x) == Lookup(mem, r', x)
  {
    if Reaches(mem, r', x, 0) {
      OtherPath(mem, free, role, mem', role', r, r', x, 0);
    } else {
      var k := Stop(mem, r', x, 0);
      OtherPath(mem, free, role, mem', role', r, r', x, k);
      StopStays(mem', r', x, k, 0);
    }
  }

  /** uvmunmap freed the user pages of r, and freewalk the rest. */
  lemma AllReturned(mem0: Mem, free0: seq<nat>, flat0: Flat, role0: Roles, mem1: Mem, role1: Roles, mem: Mem,
      role: Roles, r: nat, n: nat)
    requires Inv(mem0, free0, role0, {}) && Refines(mem0, role0, flat0) && Root(role0, r) && n <= TOP
    requires role1 == FreedRun(role0, flat0, r, 0, n) && Freed(mem1, role1, mem, role, [r])
    ensures Returned(role0, role, r)
  {
    FreedOnlyUsers(flat0, role0, r, 0, n);
    forall x: nat ensures ReturnedAt(role0, role, r, x) {
      assert FreedAt(mem1, role1, mem, role, [r], x);
      if x in role0 && role1[x] != role0[x] {
        var w := FreedRunWhich(role0, flat0, r, 0, n, x);
        OwnUser(mem0, free0, role0, flat0, r, w, x);
      }
    }
  }

  lemma OwnUser(mem: Mem, free: seq<nat>, role: Roles, flat: Flat, r: nat, w: nat, x: nat)
    requires Inv(mem, free, role, {}) && Refines(mem, role, flat) && Root(role, r) && w < MAXVPN
      && At(flat, r, w).ppn == x && x in role && role[x].User?
    requires At(flat, r, w) != ZERO
    ensures BelongsTo(role, r, x)
  {
    assert RefinesAt(mem, role, flat, r, w);
    var s := SlotAt(mem, r, Split(w), 0);
    OnPath(mem, free, role, r, Split(w), 0);
    PathStarts(r, Split(w), 0);
    assert EntryOk(mem, role, {}, s) && PageOk(mem, role, {}, s.page);
  }

  // ----- the mapped pages of a process

  /** Growth keeps the pages of every other table and extends those of r. */
  lemma SpaceGained(flat: Flat, role: Roles, flat': Flat, role': Roles, r: nat, n: nat, k: nat, r': nat, n': nat)
    requires Gained(flat, role, flat', role', r, n, k) && n <= k && Space(flat, role, r', n') && (r' == r ==> n' == n)
    ensures Space(flat', role', r', if r' == r then k else n')
  {
    var m := if r' == r then k else n';
    forall v: nat ensures SpaceAt(flat', role', r', m, v) {
      assert SpaceAt(flat, role, r', n', v) && GrownAt(flat, role, flat', role', r, n, k, r', v);
      assert GainedAt(role, flat', role', r, n, k, At(flat, r', v).ppn);
    }
  }

  /** A failed attempt to grow leaves the pages of every table. */
  lemma SpaceSame(flat: Flat, role: Roles, flat': Flat, role': Roles, r: nat, n: nat)
    requires SameFlat(flat, flat') && OnlyTables(role, role') && Space(flat, role, r, n)
    ensures Space(flat', role', r, n)
  {
    forall v: nat ensures SpaceAt(flat', role', r, n, v) {
      assert SpaceAt(flat, role, r, n, v) && TabledAt(role, role', At(flat, r, v).ppn);
    }
  }

  /** Shrinking keeps the pages of every other table and cuts those of r. */
  lemma SpaceCut(mem: Mem, free: seq<nat>, flat: Flat, role: Roles, flat': Flat, role': Roles, r: nat, lo: nat, n: nat,
      r': nat, n': nat)
    requires Inv(mem, free, role, {}) && Refines(mem, role, flat) && Root(role, r) && Root(role, r')
    requires lo <= n <= TOP && n' <= TOP && UnmapsRun(flat, role, flat', role', r, lo, n - lo)
      && Space(flat, role, r', n') && (r' == r ==> n' == n)
    ensures Space(flat', role', r', if r' == r then lo else n')
  {
    var m := if r' == r then lo else n';
    forall v: nat ensures SpaceAt(flat', role', r', m, v) {
      assert SpaceAt(flat, role, r', n', v);
      if v < m { FreedKeeps(mem, free, role, flat, r, lo, n - lo, r', v); }
    }
  }

  const WORD_RANGE := 0x1_0000_0000_0000_0000

  /** Another process, with table q and nq pages, keeps its pages. */
  ghost predicate SpaceKept(flat: Flat, role: Roles, flat': Flat, role': Roles, r: nat, q: nat, nq: nat) {
    Root(role, q) && q != r && nq <= TOP && Space(flat, role, q, nq) ==> Space(flat', role', q, nq)
  }

  /** Pages lo .. hi - 1 of r are zero and may be read and written by the user. */
  ghost predicate NewPages(mem: Mem, flat: Flat, r: nat, lo: nat, hi: nat) {
    && lo <= hi && FlagsAre(flat, r, lo, hi, PERM_RU.(v := true, w := true))
    && Rows(mem, flat, r, lo, Zeros(hi - lo))
  }

  /** growproc: the process has exactly the pages for its new size, which is the old one if
      the call fails.  Every other process keeps its pages. */
  method Growproc(m: Memory, r: nat, sz: nat, n: int) returns (rc: int, sz': nat)
    requires m.Valid() && Root(m.role, r) && Space(m.flat, m.role, r, Up(sz)) && Up(sz) <= TOP && m.hi - m.lo <= TOP
      && -0x8000_0000 <= n
    modifies m
    ensures m.Valid() && Space(m.flat, m.role, r, Up(sz')) && Up(sz') <= TOP
    ensures forall q: nat, nq: nat :: SpaceKept(old(m.flat), old(m.role), m.flat, m.role, r, q, nq)
    ensures rc == 0 || (rc == -1 && sz' == sz)
    ensures rc == -1 <==> n > 0 && Need(old(m.mem), r, Up(sz), Up(sz + n) - Up(sz)) > |old(m.free)|
    ensures n > 0 && rc == 0 ==> NewPages(m.mem, m.flat, r, Up(sz), Up(sz'))
    ensures rc == 0 && (n >= 0 || sz + n >= 0) ==> sz' == sz + n
    ensures rc == 0 && n < 0 && sz + n < 0 ==> sz' == sz
    ensures forall w: nat :: w < Up(sz) && w < Up(sz') ==> At(m.flat, r, w) == At(old(m.flat), r, w)
  {
    if n > 0 {
      rc, sz' := GrowBy(m, r, sz, n);
    } else if n < 0 {
      sz' := ShrinkBy(m, r, sz, -n);
      rc := 0;
    } else {
      return 0, sz;
    }
  }

  method GrowBy(m: Memory, r: nat, sz: nat, n: nat) returns (rc: int, sz': nat)
    requires m.Valid() && Root(m.role, r) && Space(m.flat, m.role, r, Up(sz)) && Up(sz) <= TOP && m.hi - m.lo <= TOP
      && n > 0
    modifies m
    ensures m.Valid() && Space(m.flat, m.role, r, Up(sz')) && Up(sz') <= TOP
    ensures forall q: nat, nq: nat :: SpaceKept(old(m.flat), old(m.role), m.flat, m.role, r, q, nq)
    ensures (rc == 0 && sz' == sz + n) || (rc == -1 && sz' == sz)
    ensures rc == -1 <==> Need(old(m.mem), r, Up(sz), Up(sz + n) - Up(sz)) > |old(m.free)|
    ensures rc == 0 ==> NewPages(m.mem, m.flat, r, Up(sz), Up(sz'))
    ensures forall w: nat :: w < Up(sz) ==> At(m.flat, r, w) == At(old(m.flat), r, w)
  {
    forall w: nat | Up(sz) <= w < TOP ensures At(m.flat, r, w) == ZERO { assert SpaceAt(m.flat, m.role, r, Up(sz), w); }
    forall w: nat ensures OwnedPage(m.flat, m.role, r, 0, Up(sz), w) { assert SpaceAt(m.flat, m.role, r, Up(sz), w); }
    var s := Uvmalloc(m, r, sz, sz + n, PERM_RU.(w := true));
    if s == 0 {
      SpaceSame(old(m.flat), old(m.role), m.flat, m.role, r, Up(sz));
      forall q: nat, nq: nat ensures SpaceKept(old(m.flat), old(m.role), m.flat, m.role, r, q, nq) {
        if Space(old(m.flat), old(m.role), q, nq) { SpaceSame(old(m.flat), old(m.role), m.flat, m.role, q, nq); }
      }
      return -1, sz;
    }
    SpaceGained(old(m.flat), old(m.role), m.flat, m.role, r, Up(sz), Up(s), r, Up(sz));
    forall q: nat, nq: nat ensures SpaceKept(old(m.flat), old(m.role), m.flat, m.role, r, q, nq) {
      if q != r && Space(old(m.flat), old(m.role), q, nq) {
        SpaceGained(old(m.flat), old(m.role), m.flat, m.role, r, Up(sz), Up(s), q, nq);
      }
    }
    forall w: nat | w < Up(sz) ensures At(m.flat, r, w) == At(old(m.flat), r, w) {
      assert GrownAt(old(m.flat), old(m.role), m.flat, m.role, r, Up(sz), Up(s), r, w);
    }
    return 0, s;
  }

  /** A size below 0 wraps around, and then nothing shrinks. */
  method ShrinkBy(m: Memory, r: nat, sz: nat, n: nat) returns (sz': nat)
    requires m.Valid() && Root(m.role, r) && Space(m.flat, m.role, r, Up(sz)) && Up(sz) <= TOP && 0 < n <= 0x8000_0000
    modifies m
    ensures m.Valid() && Space(m.flat, m.role, r, Up(sz')) && sz' == if n <= sz then sz - n else sz
    ensures forall q: nat, nq: nat :: SpaceKept(old(m.flat), old(m.role), m.flat, m.role, r, q, nq)
    ensures forall w: nat :: w < Up(sz') ==> At(m.flat, r, w) == At(old(m.flat), r, w)
  {
    var newsz := if sz < n then sz + WORD_RANGE - n else sz - n;
    forall w: nat ensures OwnedPage(m.flat, m.role, r, Up(newsz), Up(sz), w) {
      assert SpaceAt(m.flat, m.role, r, Up(sz), w);
    }
    sz' := Uvmdealloc(m, r, sz, newsz);
    SpaceCut(old(m.mem), old(m.free), old(m.flat), old(m.role), m.flat, m.role, r, Up(sz'), Up(sz), r, Up(sz));
    forall q: nat, nq: nat ensures SpaceKept(old(m.flat), old(m.role), m.flat, m.role, r, q, nq) {
      if Root(old(m.role), q) && q != r && nq <= TOP && Space(old(m.flat), old(m.role), q, nq) {
        SpaceCut(old(m.mem), old(m.free), old(m.flat), old(m.role), m.flat, m.role, r, Up(sz'), Up(sz), q, nq);
      }
    }
  }

  // ----- start

  ghost predicate FreedTo(role: Roles, lo: nat, p: nat, hi: nat, x: nat) {
    (x in role <==> lo <= x < hi) && (x in role ==> role[x] == if x < p then Free else Held)
  }

  /** freerange: every page from lo to hi is put on the free list, once. */
  method Freerange(m: Memory) returns (panicked: bool)
    requires m.Valid() && m.lo <= m.hi && m.free == [] && forall x: nat :: FreedTo(m.role, m.lo, m.lo, m.hi, x)
    modifies m
    ensures m.Valid() && !panicked && forall x: nat :: FreedTo(m.role, m.lo, m.hi, m.hi, x)
  {
    panicked := false;
    var p := m.lo;
    while p < m.hi
      invariant m.lo <= p <= m.hi && m.Valid() && !panicked
      invariant forall x: nat :: FreedTo(m.role, m.lo, p, m.hi, x)
    {
      assert FreedTo(m.role, m.lo, p, m.hi, p);
      ghost var role1 := m.role;
      m.GiveBack(p);
      ghost var p' := p + 1;
      forall x: nat ensures FreedTo(m.role, m.lo, p', m.hi, x) { assert FreedTo(role1, m.lo, p, m.hi, x); }
      p := p + 1;
    }
  }
}
