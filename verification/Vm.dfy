/**
  Page allocation of kernel/kalloc.c and page tables of kernel/vm.c: kalloc, kfree, walk,
  mappages and uvmunmap, each as a change of the flat map that the tables stand for.
 */
module Vm {
  import opened PageTable

  const JUNK_FREE := Word(0x40_4040_4040_4040, Flags(true, false, false, false, false, 8))     // 0x0101...01
  const JUNK_NEW := Word(0x141_4141_4141_4141, Flags(true, false, true, false, false, 8))      // 0x0505...05
  const TOP := 0x3FF_FFFE           // the page of TRAPFRAME, below TRAMPOLINE

  /** The flat map that the tables refine: (root, virtual page number) to leaf entry. */
  type Flat = imap<(nat, nat), Word>

  function At(flat: Flat, r: nat, v: nat): Word {
    if (r, v) in flat then flat[(r, v)] else ZERO
  }

  ghost predicate RefinesAt(mem: Mem, role: Roles, flat: Flat, r: nat, v: nat) {
    Root(role, r) && v < MAXVPN ==> At(flat, r, v) == Lookup(mem, r, Split(v))
  }

  ghost predicate Refines(mem: Mem, role: Roles, flat: Flat) {
    forall r: nat, v: nat :: RefinesAt(mem, role, flat, r, v)
  }

  ghost predicate InRange(role: Roles, lo: nat, hi: nat) {
    forall c: nat :: ManagedAt(role, lo, hi, c)
  }

  ghost predicate ManagedAt(role: Roles, lo: nat, hi: nat, c: nat) {
    c in role ==> lo <= c < hi
  }

  /** A page keeps its contents. */
  ghost predicate SameRow(mem: Mem, mem': Mem, c: nat) {
    c in mem && c in mem' && mem'[c] == mem[c]
  }

  /** The page is a user page or allocated to become one. */
  ghost predicate InUse(role: Roles, c: nat) {
    c in role && (role[c].User? || role[c].Held?)
  }

  /** Pages in use keep their contents. */
  ghost predicate DataKept(mem: Mem, mem': Mem, role: Roles) {
    forall c: nat :: DataAt(mem, mem', role, c)
  }

  ghost predicate DataAt(mem: Mem, mem': Mem, role: Roles, c: nat) {
    InUse(role, c) ==> SameRow(mem, mem', c)
  }

  /** Some free pages have become inner tables; no other role has changed, except that of x. */
  ghost predicate OnlyTablesBut(role: Roles, role': Roles, x: nat) {
    forall c: nat :: c == x || TabledAt(role, role', c)
  }

  ghost predicate OnlyTables(role: Roles, role': Roles) {
    forall c: nat :: TabledAt(role, role', c)
  }

  ghost predicate TabledAt(role: Roles, role': Roles, c: nat) {
    (c in role' <==> c in role) && (c in role ==> Tabled(role[c], role'[c]))
  }

  /** New inner tables are all that has changed. */
  ghost predicate Grew(mem: Mem, role: Roles, mem': Mem, role': Roles) {
    OnlyTables(role, role') && DataKept(mem, mem', role)
  }

  lemma GrewThen(mem: Mem, role: Roles, mem1: Mem, role1: Roles, mem2: Mem, role2: Roles)
    requires Grew(mem, role, mem1, role1) && Grew(mem1, role1, mem2, role2)
    ensures Grew(mem, role, mem2, role2)
  {
    forall c: nat ensures TabledAt(role, role2, c) { assert TabledAt(role, role1, c) && TabledAt(role1, role2, c); }
    forall c: nat ensures DataAt(mem, mem2, role, c) {
      assert TabledAt(role, role1, c) && DataAt(mem, mem1, role, c) && DataAt(mem1, mem2, role1, c);
    }
  }

  lemma SameManaged(role: Roles, role': Roles, lo: nat, hi: nat)
    requires InRange(role, lo, hi) && forall c: nat :: c in role' ==> c in role
    ensures InRange(role', lo, hi)
  {
    forall c: nat ensures ManagedAt(role', lo, hi, c) { assert ManagedAt(role, lo, hi, c); }
  }

  ghost predicate Tabled(a: Role, b: Role) {
    b == a || (a == Free && b.Table? && b.lvl < 2)
  }

  ghost predicate StartsAs(role: Roles, lo: nat, hi: nat, x: nat) {
    (x in role <==> lo <= x < hi) && (x in role ==> role[x] == Held)
  }

  ghost function AllHeld(lo: nat, hi: nat): (role: Roles)
    requires lo <= hi
    ensures forall x: nat :: x in role <==> lo <= x < hi
    ensures forall x: nat :: x in role ==> role[x] == Held
    decreases hi
  {
    if lo == hi then map[] else AllHeld(lo, hi - 1)[hi - 1 := Held]
  }

  function Rows(lo: nat, hi: nat): (mem: Mem)
    requires lo <= hi
    ensures forall x: nat :: x in mem <==> lo <= x < hi
    ensures forall x: nat :: x in mem ==> |mem[x]| == NPTE
    decreases hi
  {
    if lo == hi then map[] else Rows(lo, hi - 1)[hi - 1 := Filled(ZERO)]
  }

  class Memory {
    const lo: nat                 // the first page the allocator manages
    const hi: nat                 // one past the last
    var mem: Mem
    var free: seq<nat>            // kmem.freelist
    ghost var role: Roles
    ghost var flat: Flat

    /** The pages are in order, except for entries in holes. */
    ghost predicate ValidBut(hole: set<Slot>)
      reads this
    {
      Inv(mem, free, role, hole) && 0 < lo && InRange(role, lo, hi)
    }

    ghost predicate Valid()
      reads this
    {
      ValidBut({}) && Refines(mem, role, flat)
    }

    /** Before kinit: all pages from lo to hi are in use and the free list is empty. */
    constructor (first: nat, stop: nat)
      requires 0 < first <= stop
      ensures Valid() && lo == first && hi == stop && free == [] && forall x: nat :: StartsAs(role, first, stop, x)
    {
      lo, hi := first, stop;
      mem, free := Rows(first, stop), [];
      role, flat := AllHeld(first, stop), imap[];
      new;
      forall x: nat ensures StartsAs(role, first, stop, x) { }
      forall c: nat ensures PageOk(mem, role, {}, c) { assert StartsAs(role, first, stop, c); }
      forall s ensures EntryOk(mem, role, {}, s) { assert StartsAs(role, first, stop, s.page); }
      forall p: nat ensures Listed(free, role, p) { assert StartsAs(role, first, stop, p); }
      forall c: nat ensures ManagedAt(role, lo, hi, c) { assert StartsAs(role, first, stop, c); }
      forall r: nat, v: nat ensures RefinesAt(mem, role, flat, r, v) { assert StartsAs(role, first, stop, r); }
    }

    /** kalloc: a page from the free list, or 0. */
    method Kalloc() returns (c: nat)
      requires Valid()
      modifies this`mem, this`free, this`role
      ensures Valid() && (c == 0 <==> old(free) == [])
      ensures c == 0 ==> unchanged(this)
      ensures c != 0 ==>
        c in old(role) && old(role)[c] == Free && role == old(role)[c := Held] && mem == old(mem)[c := Filled(JUNK_NEW)]
        && old(free) == [c] + free
    {
      if free == [] {
        return 0;
      }
      KallocKeeps(mem, free, role, {}, Filled(JUNK_NEW));
      c := free[0];
      assert ManagedAt(role, lo, hi, c);
      free := free[1..];
      role := role[c := Held];
      mem := mem[c := Filled(JUNK_NEW)];
      SameManaged(old(role), role, lo, hi);
      RefinesKept(old(mem), old(free), old(role), mem, role, flat);
    }

    /** kfree panics on an address that starts no page of the allocator. */
    predicate BadFree(pa: nat) {
      pa % PGSIZE != 0 || pa / PGSIZE < lo || pa / PGSIZE >= hi
    }

    /** kfree: a page that nothing maps goes back to the free list. */
    method Kfree(pa: nat, ghost hole: set<Slot>) returns (panicked: bool)
      requires ValidBut(hole) && (BadFree(pa) || (pa / PGSIZE in role && role[pa / PGSIZE] == Held))
      modifies this`mem, this`free, this`role
      ensures ValidBut(hole) && (panicked <==> BadFree(pa))
      ensures panicked ==> unchanged(this)
      ensures !panicked ==>
        role == old(role)[pa / PGSIZE := Free] && mem == old(mem)[pa / PGSIZE := Filled(JUNK_FREE)]
        && free == [pa / PGSIZE] + old(free)
    {
      if pa % PGSIZE != 0 || pa / PGSIZE < lo || pa / PGSIZE >= hi {
        return true;
      }
      var c := pa / PGSIZE;
      KfreeKeeps(mem, free, role, hole, c, Filled(JUNK_FREE));
      mem := mem[c := Filled(JUNK_FREE)];
      free := [c] + free;
      role := role[c := Free];
      SameManaged(old(role), role, lo, hi);
      return false;
    }

    /** kfree of a page that the allocator manages. */
    method FreePage(c: nat, ghost hole: set<Slot>) returns (panicked: bool)
      requires ValidBut(hole) && c in role && role[c] == Held
      modifies this`mem, this`free, this`role
      ensures ValidBut(hole) && !panicked && role == old(role)[c := Free] && mem == old(mem)[c := Filled(JUNK_FREE)]
        && free == [c] + old(free)
    {
      assert ManagedAt(role, lo, hi, c);
      PageOf(PGSIZE * c, c);
      panicked := Kfree(PGSIZE * c, hole);
    }

    /** kfree of a page that was allocated and not used. */
    method GiveBack(c: nat)
      requires Valid() && c in role && role[c] == Held
      modifies this`mem, this`free, this`role
      ensures Valid() && role == old(role)[c := Free] && mem == old(mem)[c := Filled(JUNK_FREE)]
        && free == [c] + old(free)
    {
      var bad := FreePage(c, {});
      RefinesKept(old(mem), old(free), old(role), mem, role, flat);
    }

    /** memset or memmove of a page that nothing maps. */
    method Fill(c: nat, row: seq<Word>)
      requires Valid() && c in role && role[c] == Held && |row| == NPTE
      modifies this`mem
      ensures Valid() && mem == old(mem)[c := row]
    {
      FillHeld(mem, free, role, c, row);
      mem := mem[c := row];
      RefinesKept(old(mem), free, role, mem, role, flat);
    }

    /** A new page becomes an empty table below slot s. */
    method Hang(s: Slot, c: nat)
      requires Valid() && IsTable(role, s.page) && role[s.page].lvl > 0 && s.i < NPTE && Get(mem, s) == ZERO
      requires role[s.page].lvl == 2 ==> s.i < NPTE / 2
      requires c in role && role[c] == Held
      modifies this`mem, this`role
      ensures Valid() && role == old(role)[c := Table(old(role)[s.page].lvl - 1, s, Below(old(role), s))]
      ensures AgreeBut(old(mem), mem, old(role), s) && Get(mem, s) == Word(c, JUST_V)
        && DataKept(old(mem), mem, old(role)[c := Free])
      ensures c in mem && IsZero(mem[c])
    {
      HangAll(mem, free, role, flat, s, c);
      mem := mem[c := Filled(ZERO)];
      mem := Put(mem, s, Word(c, JUST_V));
      role := role[c := Table(role[s.page].lvl - 1, s, Below(role, s))];
      SameManaged(old(role), role, lo, hi);
    }

    /** A new empty table below slot s, or 0. */
    method Extend(s: Slot) returns (c: nat)
      requires Valid() && IsTable(role, s.page) && role[s.page].lvl > 0 && s.i < NPTE && Get(mem, s) == ZERO
      requires role[s.page].lvl == 2 ==> s.i < NPTE / 2
      modifies this`mem, this`free, this`role
      ensures Valid() && Grew(old(mem), old(role), mem, role)
      ensures c == 0 ==> unchanged(this) && free == []
      ensures c != 0 ==> AgreeBut(old(mem), mem, old(role), s) && Get(mem, s) == Word(c, JUST_V)
      ensures c != 0 ==> old(free) == [c] + free && c in mem && IsZero(mem[c])
    {
      SelfGrew(mem, free, role);
      c := Kalloc();
      if c != 0 {
        Hang(s, c);
        assert old(role)[c := Held][c := Free] == old(role);
        ExtendGrew(old(mem), old(role), mem, role, c);
      }
    }

    /** One level of walk: the page below slot s, made if need be and asked for. */
    method Descend(s: Slot, alloc: bool, ghost r: nat, ghost x: Vpn, ghost level: nat) returns (next: nat)
      requires Valid() && Root(role, r) && 0 < level <= 2 && Reaches(mem, r, x, level) && s == SlotAt(mem, r, x, level)
        && GoodVpn(x)
      modifies this`mem, this`free, this`role
      ensures Valid() && Grew(old(mem), old(role), mem, role)
      ensures next != 0 ==>
        Reaches(mem, r, x, level - 1) && SlotAt(mem, r, x, level - 1) == Slot(next, PX(level - 1, x))
      ensures next == 0 ==> unchanged(this) && !Reaches(mem, r, x, level - 1) && (alloc ==> free == [])
      ensures !alloc ==> unchanged(this)
      ensures next != 0 ==>
        Laid(old(mem), mem, r, x, level - 1)
        && |free| == |old(free)| - (if Reaches(old(mem), r, x, level - 1) then 0 else 1)
    {
      OnPath(mem, free, role, r, x, level);
      SelfGrew(mem, free, role);
      assert PageOk(mem, role, {}, s.page) && EntryOk(mem, role, {}, s);
      var e := Get(mem, s);
      if V(e) {
        assert ManagedAt(role, lo, hi, e.ppn);
        LaidAlready(mem, r, x, level - 1);
        return e.ppn;
      }
      if !alloc {
        return 0;
      }
      next := Extend(s);
      if next == 0 {
        return 0;
      }
      PathKept(old(mem), old(free), old(role), mem, s, r, x, level);
      HangLays(old(mem), old(free), old(role), mem, s, next, r, x, level);
    }

    /** walk: the slot of the leaf entry for va.  Tables it makes change no translation. */
    method Walk(r: nat, va: nat, alloc: bool) returns (found: bool, s: Slot, panicked: bool)
      requires Valid() && Root(role, r)
      modifies this`mem, this`free, this`role
      ensures Valid() && Grew(old(mem), old(role), mem, role)
      ensures panicked <==> va >= MAXVA
      ensures !panicked && found ==>
        Reaches(mem, r, Split(va / PGSIZE), 0) && s == SlotAt(mem, r, Split(va / PGSIZE), 0)
      ensures !panicked && !found ==> !Reaches(mem, r, Split(va / PGSIZE), 0) && (alloc ==> free == [])
      ensures !alloc ==> unchanged(this)
      ensures alloc && !panicked ==> (found <==> Missing(old(mem), r, Split(va / PGSIZE), 0) <= |old(free)|)
      ensures !panicked && found ==>
        Laid(old(mem), mem, r, Split(va / PGSIZE), 0)
        && |free| == |old(free)| - Missing(old(mem), r, Split(va / PGSIZE), 0)
    {
      SelfGrew(mem, free, role);
      if va >= MAXVA {
        return false, Slot(0, 0), true;
      }
      SplitJoin(va / PGSIZE);
      var x := Split(va / PGSIZE);
      var page, level := r, 2;
      LaidAlready(mem, r, x, 2);
      while level > 0
        invariant 0 <= level <= 2 && Valid() && Root(role, r) && Reaches(mem, r, x, level)
        invariant Slot(page, PX(level, x)) == SlotAt(mem, r, x, level)
        invariant Grew(old(mem), old(role), mem, role)
        invariant !alloc ==> unchanged(this)
        invariant Laid(old(mem), mem, r, x, level) && |free| == |old(free)| - Missing(old(mem), r, x, level)
      {
        ghost var mem1, role1 := mem, role;
        assert LaidAt(old(mem), mem, r, x, level, x, level - 1);
        page := Descend(Slot(page, PX(level, x)), alloc, r, x, level);
        GrewThen(old(mem), old(role), mem1, role1, mem, role);
        assert TabledAt(role1, role, r);
        if page == 0 {
          MissingMore(old(mem), r, x, level);
          NotBelow(mem, r, x, level - 1);
          return false, Slot(0, 0), false;
        }
        LaidThen(old(mem), mem1, mem, r, x, level, level - 1);
        level := level - 1;
      }
      return true, Slot(page, PX(0, x)), false;
    }

    /** The leaf entry in slot s is stored. */
    method StoreLeaf(s: Slot, ghost r: nat, ghost v: nat, c: nat, perm: Flags)
      requires Valid() && Root(role, r) && v < MAXVPN && Reaches(mem, r, Split(v), 0)
        && s == SlotAt(mem, r, Split(v), 0) && Get(mem, s) == ZERO
      requires Leaf(perm) && Mappable(role, c)
      modifies this`mem, this`role, this`flat
      ensures Valid() && flat == old(flat)[(r, v) := Word(c, perm.(v := true))] && DataKept(old(mem), mem, old(role))
      ensures Mapped(old(role), role, c) && SameReach(old(mem), mem, r)
    {
      StoreAll(mem, free, role, flat, s, r, v, c, perm);
      LeafReach(mem, free, role, Put(mem, s, Word(c, perm.(v := true))), s, r);
      mem := Put(mem, s, Word(c, perm.(v := true)));
      role := if c in role && role[c] == Held then role[c := User(s, Below(role, s))] else role;
      flat := flat[(r, v) := Word(c, perm.(v := true))];
      SameManaged(old(role), role, lo, hi);
    }

    /** One round of mappages: page c at va. */
    method MapPage(r: nat, va: nat, c: nat, perm: Flags) returns (rc: int, panicked: bool)
      requires Valid() && Root(role, r) && Leaf(perm) && Mappable(role, c)
      modifies this
      ensures Valid() && DataKept(old(mem), mem, old(role))
      ensures panicked <==> va >= MAXVA || At(old(flat), r, va / PGSIZE) != ZERO
      ensures !panicked ==> rc == 0 || (rc == -1 && free == [])
      ensures !panicked && rc == -1 ==> flat == old(flat) && OnlyTables(old(role), role)
      ensures !panicked && rc == 0 ==> flat == old(flat)[(r, va / PGSIZE) := Word(c, perm.(v := true))]
      ensures !panicked && rc == 0 ==> Mapped(old(role), role, c)
      ensures !panicked ==> (rc == 0 <==> Missing(old(mem), r, Split(va / PGSIZE), 0) <= |old(free)|)
      ensures !panicked && rc == 0 ==>
        Laid(old(mem), mem, r, Split(va / PGSIZE), 0)
        && |free| == |old(free)| - Missing(old(mem), r, Split(va / PGSIZE), 0)
    {
      var found, s;
      found, s, panicked := Walk(r, va, true);
      if panicked {
        return -1, true;
      }
      ghost var v := va / PGSIZE;
      StillMappable(old(role), role, c, r);
      assert RefinesAt(mem, role, flat, r, v);
      if !found {
        return -1, false;
      }
      LeafSlot(mem, free, role, r, v);
      if V(Get(mem, s)) {
        return -1, true;
      }
      ghost var mem1, role1 := mem, role;
      StoreLeaf(s, r, v, c, perm);
      MappedThen(old(role), role1, role, c);
      TablesUsers(old(role), role1);
      DataThen(old(mem), mem1, mem, old(role), role1);
      ReachSelf(old(mem), r);
      LaidBetween(old(mem), old(mem), mem1, mem, r, Split(v));
      return 0, false;
    }

    /** Page k of a call of mappages. */
    method MapNext(r: nat, a: nat, c: nat, perm: Flags, ghost flat0: Flat, ghost role0: Roles, ghost first: nat,
        ghost k: nat, ghost c0: nat, ghost mem0: Mem)
      returns (rc: int, panicked: bool)
      requires Valid() && Root(role0, r) && Leaf(perm) && a / PGSIZE == first + k && c == c0 + k && Mappable(role0, c)
      requires Paved(mem0, mem, r, first, k)
      requires MapsRun(flat0, role0, flat, role, r, first, k, c0, perm.(v := true))
      modifies this
      ensures Valid() && DataKept(old(mem), mem, old(role))
      ensures panicked <==> a >= MAXVA || At(flat0, r, first + k) != ZERO
      ensures !panicked && rc != 0 ==>
        rc == -1 && free == [] && MapsRun(flat0, role0, flat, role, r, first, k, c0, perm.(v := true))
      ensures !panicked && rc == 0 ==> MapsRun(flat0, role0, flat, role, r, first, k + 1, c0, perm.(v := true))
      ensures !panicked ==> (rc == 0 <==> NewTables(mem0, r, first, k + 1) <= |old(free)|)
      ensures !panicked && rc == 0 ==>
        Paved(mem0, mem, r, first, k + 1) && |free| == |old(free)| - NewTables(mem0, r, first, k + 1)
    {
      RunStart(flat0, role0, flat, role, r, first, k, c0, perm.(v := true));
      rc, panicked := MapPage(r, a, c, perm);
      if !panicked {
        if rc < 0 {
          RunKept(flat0, role0, flat, old(role), role, r, first, k, c0, perm.(v := true));
        } else {
          RunNext(flat0, role0, old(flat), old(role), flat, role, r, first, k, c0, perm.(v := true));
          PavedNext(mem0, old(mem), mem, r, first, k);
        }
        MissingNext(mem0, old(mem), r, first, k);
      }
    }

    /** mappages: the pages from va to va + size - 1 map to those from pa on.  It stops after
        k pages if tables run out, and panics exactly if there are no pages to map, or the
        next page is already mapped or too high. */
    method Mappages(r: nat, va: nat, size: nat, pa: nat, perm: Flags) returns (rc: int, panicked: bool, ghost k: nat)
      requires Valid() && Root(role, r) && Leaf(perm)
      requires forall x :: pa / PGSIZE <= x < pa / PGSIZE + PageSpan(va, size) ==> Mappable(role, x)
      modifies this
      ensures Valid() && DataKept(old(mem), mem, old(role))
      ensures k <= PageSpan(va, size) && Unmapped(old(flat), r, va / PGSIZE, k)
      ensures panicked <==> size == 0 || (k < PageSpan(va, size) && CannotMap(old(flat), r, va / PGSIZE + k))
      ensures !panicked ==> MapsRun(old(flat), old(role), flat, role, r, va / PGSIZE, k, pa / PGSIZE, perm.(v := true))
      ensures !panicked && rc == 0 ==> k == PageSpan(va, size)
      ensures !panicked && rc != 0 ==> rc == -1 && k < PageSpan(va, size) && free == []
      ensures !panicked ==> (rc == 0 <==> TablesFor(old(mem), r, va / PGSIZE, PageSpan(va, size)) <= |old(free)|)
      ensures !panicked && rc == 0 ==>
        Paved(old(mem), mem, r, va / PGSIZE, k) && |free| == |old(free)| - TablesFor(old(mem), r, va / PGSIZE, k)
    {
      k := 0;
      SelfKept(mem, free, role);
      if size == 0 {
        return -1, true, k;
      }
      var a := va / PGSIZE * PGSIZE;
      var last := (va + size - 1) / PGSIZE * PGSIZE;
      rc, panicked, k := MapFrom(r, a, last, pa / PGSIZE, perm, va / PGSIZE, PageSpan(va, size));
    }

    /** The loop of mappages. */
    method MapFrom(r: nat, a0: nat, last: nat, c0: nat, perm: Flags, ghost first: nat, ghost n: nat)
        returns (rc: int, panicked: bool, ghost k: nat)
      requires Valid() && Root(role, r) && Leaf(perm) && n > 0 && a0 == PGSIZE * first
        && last == PGSIZE * (first + n - 1)
      requires forall x :: c0 <= x < c0 + n ==> Mappable(role, x)
      modifies this
      ensures Valid() && DataKept(old(mem), mem, old(role))
      ensures k <= n && Unmapped(old(flat), r, first, k) && (panicked <==> k < n && CannotMap(old(flat), r, first + k))
      ensures !panicked ==> MapsRun(old(flat), old(role), flat, role, r, first, k, c0, perm.(v := true))
      ensures !panicked && rc == 0 ==> k == n
      ensures !panicked && rc != 0 ==> rc == -1 && k < n && free == []
      ensures !panicked ==> (rc == 0 <==> TablesFor(old(mem), r, first, n) <= |old(free)|)
      ensures !panicked && rc == 0 ==>
        Paved(old(mem), mem, r, first, k) && |free| == |old(free)| - TablesFor(old(mem), r, first, k)
    {
      k := 0;
      PavedNone(mem, r, first);
      SelfKept(mem, free, role);
      var a, c := a0, c0;
      RunEmpty(flat, role, r, first, c0, perm.(v := true));
      while true
        invariant Valid() && DataKept(old(mem), mem, old(role))
        invariant k < n && a == PGSIZE * (first + k) && c == c0 + k && Unmapped(old(flat), r, first, k)
        invariant MapsRun(old(flat), old(role), flat, role, r, first, k, c0, perm.(v := true))
        invariant Paved(old(mem), mem, r, first, k) && |free| == |old(free)| - TablesFor(old(mem), r, first, k)
        decreases n - k
      {
        PageOf(a, first + k);
        ghost var mem1, role1, flat1 := mem, role, flat;
        rc, panicked := MapNext(r, a, c, perm, old(flat), old(role), first, k, c0, old(mem));
        MapsRunUsers(old(flat), old(role), flat1, role1, r, first, k, c0, perm.(v := true));
        DataThen(old(mem), mem1, mem, old(role), role1);
        if panicked {
          return -1, true, k;
        }
        TablesGrow(old(mem), r, first, k + 1, n);
        if rc < 0 {
          return -1, false, k;
        }
        k := k + 1;
        if a == last {
          return 0, false, k;
        }
        a := a + PGSIZE;
        c := c + 1;
      }
    }

    /** The leaf entry in slot s is cleared, and its page freed if asked. */
    method ClearLeaf(s: Slot, ghost r: nat, ghost v: nat, doFree: bool)
      requires Valid() && Root(role, r) && v < MAXVPN && Reaches(mem, r, Split(v), 0)
        && s == SlotAt(mem, r, Split(v), 0) && Get(mem, s) != ZERO
      requires doFree <==> Owned(role, Get(mem, s))
      modifies this
      ensures Valid() && flat == old(flat)[(r, v) := ZERO] && role == FreedOne(old(role), old(Get(mem, s)))
        && DataKept(old(mem), mem, role)
    {
      ghost var hole := LeafHole(mem, free, role, s, r, v);
      if doFree {
        var c := Get(mem, s).ppn;
        role := role[c := Held];
        SameManaged(old(role), role, lo, hi);
        var bad := FreePage(c, hole);
      }
      ClearAll(old(mem), old(free), old(role), flat, mem, free, role, hole, s, r, v);
      mem := Put(mem, s, ZERO);
      flat := flat[(r, v) := ZERO];
    }

    /** One round of uvmunmap: the mapping of va is removed, and its page freed if asked. */
    method UnmapPage(r: nat, va: nat, doFree: bool) returns (panicked: bool)
      requires Valid() && Root(role, r)
      requires va < MAXVA && At(flat, r, va / PGSIZE) != ZERO ==> (doFree <==> Owned(role, At(flat, r, va / PGSIZE)))
      modifies this
      ensures Valid() && (panicked <==> va >= MAXVA || At(old(flat), r, va / PGSIZE) == ZERO)
      ensures !panicked ==>
        flat == old(flat)[(r, va / PGSIZE) := ZERO] && role == FreedOne(old(role), At(old(flat), r, va / PGSIZE))
      ensures !panicked ==> DataKept(old(mem), mem, role)
    {
      var found, s;
      found, s, panicked := Walk(r, va, false);
      ghost var v := va / PGSIZE;
      if panicked {
        return true;
      }
      assert RefinesAt(mem, role, flat, r, v);
      if !found {
        return true;
      }
      LeafSlot(mem, free, role, r, v);
      var e := Get(mem, s);
      if !V(e) || e.flags == JUST_V {
        return true;
      }
      ClearLeaf(s, r, v, doFree);
      return false;
    }

    /** Page k of a call of uvmunmap. */
    method UnmapNext(r: nat, a: nat, doFree: bool, ghost flat0: Flat, ghost role0: Roles, ghost first: nat,
        ghost k: nat) returns (panicked: bool)
      requires Valid() && Root(role0, r) && a / PGSIZE == first + k && UnmapsRun(flat0, role0, flat, role, r, first, k)
      requires a < MAXVA && At(flat0, r, first + k) != ZERO ==> (doFree <==> Owned(role, At(flat0, r, first + k)))
      modifies this
      ensures Valid() && (panicked <==> a >= MAXVA || At(flat0, r, first + k) == ZERO)
      ensures !panicked ==> UnmapsRun(flat0, role0, flat, role, r, first, k + 1) && DataKept(old(mem), mem, role)
    {
      FreedOnlyUsers(flat0, role0, r, first, k);
      panicked := UnmapPage(r, a, doFree);
      if !panicked {
        UnmapRunNext(flat0, role0, old(flat), flat, r, first, k);
      }
    }

    /** uvmunmap: removes exactly npages mappings from va on, and frees their pages if asked.
        It panics unless va is aligned and all of them exist. */
    method Uvmunmap(r: nat, va: nat, npages: nat, doFree: bool) returns (panicked: bool)
      requires Valid() && Root(role, r) && OwnedIff(flat, role, r, va / PGSIZE, npages, doFree)
      modifies this
      ensures Valid()
      ensures panicked <==>
        va % PGSIZE != 0 || (va + npages * PGSIZE > MAXVA && npages > 0)
        || !AllMapped(old(flat), r, va / PGSIZE, npages)
      ensures !panicked ==>
        UnmapsRun(old(flat), old(role), flat, role, r, va / PGSIZE, npages) && DataKept(old(mem), mem, role)
    {
      if va % PGSIZE != 0 {
        return true;
      }
      ghost var first, k := va / PGSIZE, 0;
      var a := va;
      SelfKept(mem, free, role);
      while a < va + npages * PGSIZE
        invariant Valid() && k <= npages && a == PGSIZE * (first + k) && (k > 0 ==> a <= MAXVA)
        invariant UnmapsRun(old(flat), old(role), flat, role, r, first, k) && AllMapped(old(flat), r, first, k)
        invariant DataKept(old(mem), mem, role)
        decreases npages - k
      {
        StillOwned(old(mem), old(free), old(role), old(flat), role, r, first, npages, doFree, k);
        ghost var mem1 := mem;
        panicked := UnmapNext(r, a, doFree, old(flat), old(role), first, k);
        if panicked {
          return true;
        }
        DataWas(old(mem), mem1, mem, old(flat), old(role), role, r, first, k);
        k := k + 1;
        a := a + PGSIZE;
      }
      assert k == npages;
      return false;
    }
  }

  /** The mapped pages among n are all owned, or none is. */
  ghost predicate OwnedIff(flat: Flat, role: Roles, r: nat, first: nat, n: nat, own: bool) {
    forall w: nat :: first <= w < first + n && At(flat, r, w) != ZERO ==> (own <==> Owned(role, At(flat, r, w)))
  }

  ghost predicate AllMapped(flat: Flat, r: nat, first: nat, n: nat) {
    forall w: nat :: first <= w < first + n ==> At(flat, r, w) != ZERO
  }

  /** The pages of n mappings that the table owns become free. */
  ghost function FreedRun(role: Roles, flat: Flat, r: nat, first: nat, n: nat): Roles {
    if n == 0 then role else FreedOne(FreedRun(role, flat, r, first, n - 1), At(flat, r, first + n - 1))
  }

  ghost predicate UnmapsRun(flat: Flat, role: Roles, flat': Flat, role': Roles, r: nat, first: nat, k: nat) {
    && (forall r': nat, w: nat ::
        At(flat', r', w) == if r' == r && first <= w < first + k then ZERO else At(flat, r', w))
    && role' == FreedRun(role, flat, r, first, k)
  }

  lemma UnmapRunNext(flat: Flat, role: Roles, flat1: Flat, flat2: Flat, r: nat, first: nat, k: nat)
    requires UnmapsRun(flat, role, flat1, FreedRun(role, flat, r, first, k), r, first, k)
      && flat2 == flat1[(r, first + k) := ZERO]
    ensures UnmapsRun(flat, role, flat2, FreedRun(role, flat, r, first, k + 1), r, first, k + 1)
  {
    forall r': nat, w: nat ensures At(flat2, r', w) == if r' == r && first <= w < first + k + 1 then ZERO
      else At(flat, r', w) {
      assert At(flat2, r', w) == if r' == r && w == first + k then ZERO else At(flat1, r', w);
    }
  }

  lemma {:induction false} FreedOnlyUsers(flat: Flat, role: Roles, r: nat, first: nat, k: nat)
    ensures var role' := FreedRun(role, flat, r, first, k);
      role'.Keys == role.Keys && forall x :: x in role ==> role'[x] == role[x] || (role[x].User? && role'[x] == Free)
    decreases k
  {
    if k > 0 { FreedOnlyUsers(flat, role, r, first, k - 1); }
  }

  /** No page is owned through two mappings. */
  lemma OwnedDistinct(mem: Mem, free: seq<nat>, role: Roles, flat: Flat, r: nat, v: nat, r': nat, w: nat)
    requires Inv(mem, free, role, {}) && Refines(mem, role, flat)
    requires Root(role, r) && Root(role, r') && v < MAXVPN && w < MAXVPN && (r != r' || v != w)
    requires Owned(role, At(flat, r, v)) && Owned(role, At(flat, r', w))
    ensures At(flat, r, v).ppn != At(flat, r', w).ppn
  {
    assert RefinesAt(mem, role, flat, r, v) && RefinesAt(mem, role, flat, r', w);
    OnPath(mem, free, role, r, Split(v), 0);
    OnPath(mem, free, role, r', Split(w), 0);
    assert EntryOk(mem, role, {}, SlotAt(mem, r, Split(v), 0)) && EntryOk(mem, role, {}, SlotAt(mem, r', Split(w), 0));
    SplitJoin(v);
    SplitJoin(w);
    DistinctLeaves(mem, free, role, r, Split(v), r', Split(w));
  }

  /** An entry whose page is none of those freed keeps its owner. */
  lemma {:induction false} FreedOthers(role: Roles, flat: Flat, r: nat, first: nat, k: nat, e: Word)
    requires Owned(role, e) && forall w: nat :: first <= w < first + k && Owned(role, At(flat, r, w)) ==>
      At(flat, r, w).ppn != e.ppn
    ensures Owned(FreedRun(role, flat, r, first, k), e)
    decreases k
  {
    if k > 0 {
      FreedOthers(role, flat, r, first, k - 1, e);
      FreedOnlyUsers(flat, role, r, first, k - 1);
    }
  }

  /** Freeing the pages of some mappings leaves the ownership of the others. */
  lemma FreedKeeps(mem: Mem, free: seq<nat>, role: Roles, flat: Flat, r: nat, first: nat, k: nat, r': nat, w: nat)
    requires Inv(mem, free, role, {}) && Refines(mem, role, flat)
    requires Root(role, r) && Root(role, r') && w < MAXVPN && first + k <= MAXVPN
      && (r' != r || w < first || first + k <= w)
    ensures Owned(FreedRun(role, flat, r, first, k), At(flat, r', w)) <==> Owned(role, At(flat, r', w))
  {
    FreedOnlyUsers(flat, role, r, first, k);
    var e := At(flat, r', w);
    if Owned(role, e) {
      forall x: nat | first <= x < first + k && Owned(role, At(flat, r, x)) ensures At(flat, r, x).ppn != e.ppn {
        OwnedDistinct(mem, free, role, flat, r, x, r', w);
      }
      FreedOthers(role, flat, r, first, k, e);
    }
  }

  lemma StillOwned(mem: Mem, free: seq<nat>, role: Roles, flat: Flat, role': Roles, r: nat, first: nat, n: nat,
      own: bool, k: nat)
    requires Inv(mem, free, role, {}) && Refines(mem, role, flat) && Root(role, r)
      && OwnedIff(flat, role, r, first, n, own) && k < n
    requires role' == FreedRun(role, flat, r, first, k) && (k > 0 ==> first + k <= MAXVPN)
    ensures first + k < MAXVPN && At(flat, r, first + k) != ZERO ==> (own <==> Owned(role', At(flat, r, first + k)))
  {
    FreedOnlyUsers(flat, role, r, first, k);
    if first + k < MAXVPN { FreedKeeps(mem, free, role, flat, r, first, k, r, first + k); }
  }

  lemma DataWas(mem: Mem, mem1: Mem, mem2: Mem, flat: Flat, role: Roles, role': Roles, r: nat, first: nat, k: nat)
    requires DataKept(mem, mem1, FreedRun(role, flat, r, first, k)) && DataKept(mem1, mem2, role')
      && role' == FreedRun(role, flat, r, first, k + 1)
    ensures DataKept(mem, mem2, role')
  {
    forall c: nat ensures DataAt(mem, mem2, role', c) {
      assert DataAt(mem1, mem2, role', c) && DataAt(mem, mem1, FreedRun(role, flat, r, first, k), c);
    }
  }

  /** The table owns the page that the entry names. */
  ghost predicate Owned(role: Roles, e: Word) {
    e != ZERO && e.ppn in role && role[e.ppn].User?
  }

  ghost function FreedOne(role: Roles, e: Word): Roles {
    if Owned(role, e) then role[e.ppn := Free] else role
  }

  /** Before its page is freed, a leaf slot becomes a hole. */
  lemma LeafHole(mem: Mem, free: seq<nat>, role: Roles, s: Slot, r: nat, v: nat) returns (hole: set<Slot>)
    requires Inv(mem, free, role, {}) && Root(role, r) && Reaches(mem, r, Split(v), 0)
      && s == SlotAt(mem, r, Split(v), 0) && Get(mem, s) != ZERO
    ensures hole == (if Owned(role, Get(mem, s)) then {s} else {}) && s.page in mem && |mem[s.page]| == NPTE
    ensures IsTable(role, s.page) && role[s.page].lvl == 0
    ensures var c := Get(mem, s).ppn;
      if Owned(role, Get(mem, s)) then Inv(mem, free, role[c := Held], {s}) && Orphan(role[c := Free], s)
        else Orphan(role, s)
  {
    OnPath(mem, free, role, r, Split(v), 0);
    assert PageOk(mem, role, {}, s.page) && EntryOk(mem, role, {}, s);
    if Owned(role, Get(mem, s)) {
      hole := {s};
      TakeUser(mem, free, role, s, Get(mem, s).ppn);
    } else {
      hole := {};
      NotOwned(mem, free, role, s);
    }
  }

  /** An entry for a page of the kernel is no page's holder. */
  lemma NotOwned(mem: Mem, free: seq<nat>, role: Roles, s: Slot)
    requires Inv(mem, free, role, {}) && IsTable(role, s.page) && role[s.page].lvl == 0 && s.i < NPTE
      && !Owned(role, Get(mem, s))
    ensures Orphan(role, s)
  {
    forall x: nat ensures NotHeldBy(role, s, x) { assert PageOk(mem, role, {}, x); }
  }

  /** Clearing the slot completes the removal of a mapping. */
  lemma ClearAll(mem: Mem, free: seq<nat>, role: Roles, flat: Flat, mem1: Mem, free1: seq<nat>, role1: Roles,
      hole: set<Slot>, s: Slot, r: nat, v: nat)
    requires Inv(mem, free, role, {}) && Refines(mem, role, flat)
    requires Root(role, r) && v < MAXVPN && Reaches(mem, r, Split(v), 0) && s == SlotAt(mem, r, Split(v), 0)
      && Get(mem, s) != ZERO
    requires s.page in mem && |mem[s.page]| == NPTE && IsTable(role, s.page) && role[s.page].lvl == 0
    requires Inv(mem1, free1, role1, hole) && hole <= {s} && role1 == FreedOne(role, Get(mem, s)) && Orphan(role1, s)
    requires mem1 == mem || (Owned(role, Get(mem, s)) && mem1 == mem[Get(mem, s).ppn := Filled(JUNK_FREE)])
    ensures s.page in mem1 && s.i < |mem1[s.page]|
    ensures Inv(Put(mem1, s, ZERO), free1, role1, {}) && Refines(Put(mem1, s, ZERO), role1, flat[(r, v) := ZERO])
      && DataKept(mem, Put(mem1, s, ZERO), role1)
  {
    var mem', flat' := Put(mem1, s, ZERO), flat[(r, v) := ZERO];
    ClearKeeps(mem1, free1, role1, hole, s);
    assert hole - {s} == {};
    assert AgreeBut(mem, mem', role, s);
    forall r': nat, w: nat ensures RefinesAt(mem', role1, flat', r', w) {
      assert RefinesAt(mem, role, flat, r', w);
      if Root(role1, r') && w < MAXVPN { SetOne(mem, free, role, mem', s, ZERO, r, v, r', w); }
    }
    forall c: nat ensures DataAt(mem, mem', role1, c) { assert PageOk(mem, role, {}, c); }
  }

  lemma PageOf(a: nat, q: nat)
    requires a == PGSIZE * q
    ensures a / PGSIZE == q && a % PGSIZE == 0 && (a < MAXVA <==> q < MAXVPN)
  {
  }

  /** The number of pages that [va, va + size) touches. */
  function PageSpan(va: nat, size: nat): nat {
    if size == 0 then 0 else (va + size - 1) / PGSIZE - va / PGSIZE + 1
  }

  /** Page w of r is mapped, or no virtual address is that high. */
  ghost predicate CannotMap(flat: Flat, r: nat, w: nat) {
    w >= MAXVPN || At(flat, r, w) != ZERO
  }

  ghost predicate Unmapped(flat: Flat, r: nat, first: nat, n: nat) {
    forall w: nat :: first <= w < first + n ==> At(flat, r, w) == ZERO
  }

  /** Pages first .. first + k - 1 of r map to pages c .. c + k - 1, and own those that were
      just allocated; all else is as before, up to new inner tables. */
  ghost predicate MapsRun(flat: Flat, role: Roles, flat': Flat, role': Roles, r: nat, first: nat, k: nat, c: nat,
      flags: Flags)
  {
    && (forall r': nat, w: nat ::
        At(flat', r', w) == if r' == r && first <= w < first + k then Word(c + (w - first), flags) else At(flat, r', w))
    && forall x: nat :: RoleStep(role, role', c, k, x)
  }

  ghost predicate RoleStep(role: Roles, role': Roles, c: nat, k: nat, x: nat) {
    && (x in role' <==> x in role)
    && (x in role ==> if c <= x < c + k && role[x] == Held then role'[x].User? else Tabled(role[x], role'[x]))
  }

  lemma RunEmpty(flat: Flat, role: Roles, r: nat, first: nat, c: nat, flags: Flags)
    ensures MapsRun(flat, role, flat, role, r, first, 0, c, flags)
  {
    forall x: nat ensures RoleStep(role, role, c, 0, x) { }
  }

  lemma MapsRunUsers(flat: Flat, role: Roles, flat': Flat, role': Roles, r: nat, first: nat, k: nat, c: nat,
      flags: Flags)
    requires MapsRun(flat, role, flat', role', r, first, k, c, flags)
    ensures UsersStay(role, role')
  {
    forall x: nat ensures UserStays(role, role', x) { assert RoleStep(role, role', c, k, x); }
  }

  lemma RunStart(flat: Flat, role: Roles, flat': Flat, role': Roles, r: nat, first: nat, k: nat, c: nat, flags: Flags)
    requires MapsRun(flat, role, flat', role', r, first, k, c, flags) && Root(role, r) && Mappable(role, c + k)
    ensures Root(role', r) && Mappable(role', c + k) && At(flat', r, first + k) == At(flat, r, first + k)
  {
    assert RoleStep(role, role', c, k, r);
    assert RoleStep(role, role', c, k, c + k);
  }

  lemma RunKept(flat: Flat, role: Roles, flat': Flat, role1: Roles, role2: Roles, r: nat, first: nat, k: nat, c: nat,
      flags: Flags)
    requires MapsRun(flat, role, flat', role1, r, first, k, c, flags) && OnlyTables(role1, role2)
    ensures MapsRun(flat, role, flat', role2, r, first, k, c, flags)
  {
    forall x: nat ensures RoleStep(role, role2, c, k, x) {
      assert RoleStep(role, role1, c, k, x) && TabledAt(role1, role2, x);
    }
  }

  lemma RunNext(flat: Flat, role: Roles, flat1: Flat, role1: Roles, flat2: Flat, role2: Roles, r: nat, first: nat,
      k: nat, c: nat, flags: Flags)
    requires MapsRun(flat, role, flat1, role1, r, first, k, c, flags) && Mapped(role1, role2, c + k)
    requires flat2 == flat1[(r, first + k) := Word(c + k, flags)] && Mappable(role, c + k)
    ensures MapsRun(flat, role, flat2, role2, r, first, k + 1, c, flags)
  {
    forall r': nat, w: nat
      ensures At(flat2, r', w) == if r' == r && first <= w < first + k + 1 then Word(c + (w - first), flags)
        else At(flat, r', w)
    {
      assert At(flat2, r', w) == if r' == r && w == first + k then Word(c + k, flags) else At(flat1, r', w);
    }
    var k' := k + 1;
    forall x: nat ensures RoleStep(role, role2, c, k', x) {
      assert RoleStep(role, role1, c, k, x) && (x == c + k || TabledAt(role1, role2, x));
    }
  }

  ghost predicate UsersStay(role: Roles, role': Roles) {
    forall c: nat :: UserStays(role, role', c)
  }

  ghost predicate UserStays(role: Roles, role': Roles, c: nat) {
    (InUse(role, c) ==> InUse(role', c)) && (Root(role, c) ==> Root(role', c))
  }

  lemma TablesUsers(role: Roles, role': Roles)
    requires OnlyTables(role, role')
    ensures UsersStay(role, role')
  {
    forall c: nat ensures UserStays(role, role', c) { assert TabledAt(role, role', c); }
  }

  lemma DataThen(mem: Mem, mem1: Mem, mem2: Mem, role: Roles, role1: Roles)
    requires DataKept(mem, mem1, role) && DataKept(mem1, mem2, role1)
    requires UsersStay(role, role1)
    ensures DataKept(mem, mem2, role)
  {
    forall c: nat ensures DataAt(mem, mem2, role, c) {
      assert DataAt(mem, mem1, role, c) && DataAt(mem1, mem2, role1, c) && UserStays(role, role1, c);
    }
  }

  ghost predicate GoodVpn(x: Vpn) { x.i2 < NPTE / 2 && x.i1 < NPTE && x.i0 < NPTE }

  lemma ExtendGrew(mem: Mem, role: Roles, mem': Mem, role': Roles, c: nat)
    requires c in role && role[c] == Free && c in role' && role' == role[c := role'[c]] && role'[c].Table?
      && role'[c].lvl < 2
    requires DataKept(mem[c := Filled(JUNK_NEW)], mem', role) && DataKept(mem, mem, role)
    ensures Grew(mem, role, mem', role')
  {
    var mem1 := mem[c := Filled(JUNK_NEW)];
    forall x: nat ensures TabledAt(role, role', x) { }
    forall x: nat ensures DataAt(mem, mem', role, x) {
      assert DataAt(mem1, mem', role, x) && DataAt(mem, mem, role, x);
    }
  }

  lemma SelfGrew(mem: Mem, free: seq<nat>, role: Roles)
    requires Inv(mem, free, role, {})
    ensures Grew(mem, role, mem, role)
  {
    SelfKept(mem, free, role);
    forall x: nat ensures TabledAt(role, role, x) { }
  }

  /** A page that may be mapped: one just allocated, or one of the kernel. */
  ghost predicate Mappable(role: Roles, c: nat) {
    c in role ==> role[c] == Held || role[c] == Lent
  }

  /** Page c is mapped, and owned if it was just allocated. */
  ghost predicate Mapped(role: Roles, role': Roles, c: nat) {
    && OnlyTablesBut(role, role', c)
    && (c in role' <==> c in role) && (c in role ==> if role[c] == Held then role'[c].User? else role'[c] == role[c])
  }

  lemma MappedThen(role: Roles, role1: Roles, role2: Roles, c: nat)
    requires OnlyTables(role, role1) && Mapped(role1, role2, c) && Mappable(role, c)
    ensures Mapped(role, role2, c)
  {
    forall x: nat ensures x == c || TabledAt(role, role2, x) {
      assert TabledAt(role, role1, x) && (x == c || TabledAt(role1, role2, x));
    }
    assert TabledAt(role, role1, c);
  }

  lemma StillMappable(role: Roles, role1: Roles, c: nat, r: nat)
    requires OnlyTables(role, role1) && Mappable(role, c)
    ensures Mappable(role1, c) && (Root(role, r) ==> Root(role1, r))
  {
    assert TabledAt(role, role1, c) && TabledAt(role, role1, r);
  }

  lemma SelfKept(mem: Mem, free: seq<nat>, role: Roles)
    requires Inv(mem, free, role, {})
    ensures DataKept(mem, mem, role)
  {
    forall c: nat ensures DataAt(mem, mem, role, c) { assert PageOk(mem, role, {}, c); }
  }

  /** Rows change only in two pages that are no user pages. */
  lemma RowsKept(mem: Mem, free: seq<nat>, role: Roles, mem': Mem, p: nat, q: nat)
    requires Inv(mem, free, role, {}) && forall c :: c in mem && c != p && c != q ==> c in mem' && mem'[c] == mem[c]
    requires p in role && role[p].Table? && q in role && role[q].Table?
    ensures DataKept(mem, mem', role)
  {
    forall c: nat ensures DataAt(mem, mem', role, c) { assert PageOk(mem, role, {}, c); }
  }

  /** Pages that are no tables do not matter for translation. */
  lemma RefinesKept(mem: Mem, free: seq<nat>, role: Roles, mem': Mem, role': Roles, flat: Flat)
    requires Inv(mem, free, role, {}) && SameTables(mem, mem', role) && Refines(mem, role, flat)
    requires forall r :: Root(role', r) ==> Root(role, r)
    ensures Refines(mem', role', flat)
  {
    forall r: nat, v: nat ensures RefinesAt(mem', role', flat, r, v) {
      assert RefinesAt(mem, role, flat, r, v);
      if Root(role', r) { SameTablesLookup(mem, free, role, mem', r, Split(v)); }
    }
  }

  /** A page in use that nothing maps may have any contents. */
  lemma FillHeld(mem: Mem, free: seq<nat>, role: Roles, c: nat, row: seq<Word>)
    requires Inv(mem, free, role, {}) && c in role && role[c] == Held && |row| == NPTE
    ensures Inv(mem[c := row], free, role, {})
  {
    var mem' := mem[c := row];
    forall x: nat ensures PageOk(mem', role, {}, x) {
      assert PageOk(mem, role, {}, x);
      if x in role { PageFrame(mem, role, {}, mem', role, {}, x); }
    }
    forall t ensures EntryOk(mem', role, {}, t) {
      assert EntryOk(mem, role, {}, t);
      EntryFrame(mem, role, {}, mem', role, {}, t);
    }
  }

  lemma HangRefines(mem: Mem, free: seq<nat>, role: Roles, mem': Mem, flat: Flat, s: Slot, c: nat)
    requires Inv(mem, free, role, {}) && IsTable(role, s.page) && role[s.page].lvl > 0 && Get(mem, s) == ZERO
      && Refines(mem, role, flat)
    requires AgreeBut(mem, mem', role, s) && Get(mem', s) == Word(c, JUST_V) && c in mem' && IsZero(mem'[c])
      && c in role && role[c] == Held
    ensures Refines(mem', role[c := Table(role[s.page].lvl - 1, s, Below(role, s))], flat)
  {
    var role' := role[c := Table(role[s.page].lvl - 1, s, Below(role, s))];
    assert PageOk(mem, role, {}, s.page);
    forall r: nat, v: nat ensures RefinesAt(mem', role', flat, r, v) {
      assert RefinesAt(mem, role, flat, r, v);
      if Root(role', r) { HangTableLookup(mem, free, role, mem', s, c, r, Split(v)); }
    }
  }

  lemma StoreRefines(mem: Mem, free: seq<nat>, role: Roles, flat: Flat, s: Slot, r: nat, v: nat, c: nat, perm: Flags)
    requires Inv(mem, free, role, {}) && Root(role, r) && v < MAXVPN && Reaches(mem, r, Split(v), 0)
      && s == SlotAt(mem, r, Split(v), 0)
    requires s.page in mem && |mem[s.page]| == NPTE && Get(mem, s) == ZERO && IsTable(role, s.page)
      && role[s.page].lvl == 0
    requires Leaf(perm) && Mappable(role, c) && Refines(mem, role, flat)
    ensures var mem' := Put(mem, s, Word(c, perm.(v := true)));
      var role' := if c in role && role[c] == Held then role[c := User(s, Below(role, s))] else role;
      Inv(mem', free, role', {}) && Refines(mem', role', flat[(r, v) := Word(c, perm.(v := true))])
  {
    var e := Word(c, perm.(v := true));
    var mem', role' := Put(mem, s, e), if c in role && role[c] == Held then role[c := User(s, Below(role, s))]
      else role;
    var flat' := flat[(r, v) := e];
    MapKeeps(mem, free, role, s, e, role');
    forall r': nat, w: nat ensures RefinesAt(mem', role', flat', r', w) {
      assert RefinesAt(mem, role, flat, r', w);
      if Root(role', r') && w < MAXVPN { SetOne(mem, free, role, mem', s, e, r, v, r', w); }
    }
  }

  lemma SetOne(mem: Mem, free: seq<nat>, role: Roles, mem': Mem, s: Slot, e: Word, r: nat, v: nat, r': nat, w: nat)
    requires Inv(mem, free, role, {}) && Root(role, r) && v < MAXVPN && Reaches(mem, r, Split(v), 0)
      && s == SlotAt(mem, r, Split(v), 0)
    requires IsTable(role, s.page) && role[s.page].lvl == 0 && AgreeBut(mem, mem', role, s) && Get(mem', s) == e
    requires Root(role, r') && w < MAXVPN
    ensures Lookup(mem', r', Split(w)) == if r' == r && w == v then e else Lookup(mem, r', Split(w))
  {
    SetLeafLookup(mem, free, role, mem', s, e, r', Split(w));
    SplitJoin(v);
    SplitJoin(w);
    if Reaches(mem, r', Split(w), 0) && (r' != r || w != v) {
      DistinctLeaves(mem, free, role, r, Split(v), r', Split(w));
    }
  }

  lemma HangAll(mem: Mem, free: seq<nat>, role: Roles, flat: Flat, s: Slot, c: nat)
    requires Inv(mem, free, role, {}) && IsTable(role, s.page) && role[s.page].lvl > 0 && s.i < NPTE
      && Get(mem, s) == ZERO
    requires (role[s.page].lvl == 2 ==> s.i < NPTE / 2) && c in role && role[c] == Held && Refines(mem, role, flat)
    ensures s.page in mem && |mem[s.page]| == NPTE && s.page != c
    ensures var mem', role' := Put(mem[c := Filled(ZERO)], s, Word(c, JUST_V)),
      role[c := Table(role[s.page].lvl - 1, s, Below(role, s))];
      && Inv(mem', free, role', {}) && Refines(mem', role', flat) && AgreeBut(mem, mem', role, s)
      && Get(mem', s) == Word(c, JUST_V) && DataKept(mem, mem', role[c := Free])
  {
    assert PageOk(mem, role, {}, c) && PageOk(mem, role, {}, s.page);
    var mem1 := mem[c := Filled(ZERO)];
    FillHeld(mem, free, role, c, Filled(ZERO));
    RefinesKept(mem, free, role, mem1, role, flat);
    HangKeeps(mem1, free, role, s, c);
    var mem' := Put(mem1, s, Word(c, JUST_V));
    HangRefines(mem1, free, role, mem', flat, s, c);
    var role1 := role[c := Free];
    forall x: nat ensures DataAt(mem, mem', role1, x) { assert PageOk(mem, role, {}, x); }
  }

  lemma StoreAll(mem: Mem, free: seq<nat>, role: Roles, flat: Flat, s: Slot, r: nat, v: nat, c: nat, perm: Flags)
    requires Inv(mem, free, role, {}) && Root(role, r) && v < MAXVPN && Reaches(mem, r, Split(v), 0)
      && s == SlotAt(mem, r, Split(v), 0)
    requires Get(mem, s) == ZERO && Leaf(perm) && Mappable(role, c) && Refines(mem, role, flat)
    ensures s.page in mem && |mem[s.page]| == NPTE && IsTable(role, s.page)
    ensures var mem' := Put(mem, s, Word(c, perm.(v := true)));
      var role' := if c in role && role[c] == Held then role[c := User(s, Below(role, s))] else role;
      && Inv(mem', free, role', {}) && Refines(mem', role', flat[(r, v) := Word(c, perm.(v := true))])
      && DataKept(mem, mem', role)
      && Mapped(role, role', c)
  {
    OnPath(mem, free, role, r, Split(v), 0);
    assert PageOk(mem, role, {}, s.page);
    assert c in role ==> PageOk(mem, role, {}, c);
    RowsKept(mem, free, role, Put(mem, s, Word(c, perm.(v := true))), s.page, s.page);
    var role' := if c in role && role[c] == Held then role[c := User(s, Below(role, s))] else role;
    forall x: nat ensures x == c || TabledAt(role, role', x) { }
    StoreRefines(mem, free, role, flat, s, r, v, c, perm);
  }

  /** A leaf slot is empty or holds a valid leaf entry. */
  lemma LeafSlot(mem: Mem, free: seq<nat>, role: Roles, r: nat, v: nat)
    requires Inv(mem, free, role, {}) && Root(role, r) && Reaches(mem, r, Split(v), 0)
    ensures var e := Get(mem, SlotAt(mem, r, Split(v), 0));
      e == Lookup(mem, r, Split(v)) && (e == ZERO || (V(e) && Leaf(e.flags)))
  {
    OnPath(mem, free, role, r, Split(v), 0);
    assert EntryOk(mem, role, {}, SlotAt(mem, r, Split(v), 0));
  }
}
