/**
  The user-level allocator of user/umalloc.c.  Addresses count units of one header.  The
  free blocks form a circular list in address order that starts at the empty block `base`,
  which lies below the heap.
 */
module Umalloc {

  const BASE: nat := 1
  const HEADER := 16      // bytes in a unit
  const MIN_CORE := 4096  // units asked for at least

  // ----- the circular list

  /** The successor of position k, around the end. */
  function Next(list: seq<nat>, k: nat): nat
    requires k < |list|
  {
    if k + 1 < |list| then list[k + 1] else list[0]
  }

  ghost predicate Ascending(list: seq<nat>) {
    forall j, k :: 0 <= j < k < |list| ==> list[j] < list[k]
  }

  ghost predicate Ring(list: seq<nat>, ptr: map<nat, nat>) {
    && |list| > 0 && list[0] == BASE && Ascending(list)
    && forall k :: 0 <= k < |list| ==> Linked(list, ptr, k)
  }

  ghost predicate Linked(list: seq<nat>, ptr: map<nat, nat>, k: nat)
    requires k < |list|
  {
    list[k] in ptr && ptr[list[k]] == Next(list, k)
  }

  /** Free block k does not end where the next one starts. */
  ghost predicate Gap(list: seq<nat>, size: map<nat, nat>, k: nat)
    requires k < |list|
  {
    list[k] in size && (k + 1 < |list| ==> list[k] + size[list[k]] < list[k + 1])
  }

  /** base is empty, and no two free blocks are adjacent, except maybe block e and the next. */
  ghost predicate Gaps(list: seq<nat>, size: map<nat, nat>, e: nat) {
    && |list| > 0 && list[0] in size && size[list[0]] == 0
    && forall k :: 1 <= k < |list| && k != e ==> Gap(list, size, k)
  }

  // ----- who holds each unit

  /** Block a has units, and they are its own. */
  ghost predicate Whole(size: map<nat, nat>, home: map<nat, nat>, a: nat) {
    && a in size && size[a] > 0
    && forall u :: a <= u < a + size[a] ==> u in home && home[u] == a
  }

  ghost predicate Housed(blocks: set<nat>, size: map<nat, nat>, home: map<nat, nat>, u: nat) {
    u in home ==> home[u] in blocks && home[u] in size && home[u] <= u < home[u] + size[home[u]]
  }

  /** Each unit obtained from sbrk lies in exactly one block, and blocks have no others. */
  ghost predicate Homes(blocks: set<nat>, size: map<nat, nat>, home: map<nat, nat>) {
    && (forall a :: a in blocks ==> Whole(size, home, a))
    && (forall u: nat :: Housed(blocks, size, home, u))
  }

  lemma Disjoint(blocks: set<nat>, size: map<nat, nat>, home: map<nat, nat>, a: nat, b: nat)
    requires Homes(blocks, size, home) && a in blocks && b in blocks && a < b
    ensures Whole(size, home, a) && Whole(size, home, b) && a + size[a] <= b
  {
    assert Whole(size, home, a) && Whole(size, home, b);
    assert b in home && home[b] == b;
  }

  /** Move the units [lo, hi) to block a. */
  ghost function Rehome(home: map<nat, nat>, lo: nat, hi: nat, a: nat): map<nat, nat> {
    map u | u in home :: if lo <= u < hi then a else home[u]
  }

  /** Two adjacent blocks become one. */
  lemma MergeHomes(blocks: set<nat>, size: map<nat, nat>, home: map<nat, nat>, a: nat, b: nat)
    requires Homes(blocks, size, home) && a in blocks && b in blocks && a in size && b in size && a + size[a] == b
    ensures Homes(blocks - {b}, size[a := size[a] + size[b]], Rehome(home, b, b + size[b], a))
  {
    assert Whole(size, home, a) && Whole(size, home, b);
    var size', home' := size[a := size[a] + size[b]], Rehome(home, b, b + size[b], a);
    forall x | x in blocks - {b} ensures Whole(size', home', x) {
      assert Whole(size, home, x);
      if x != a { Apart(size, home, x, b); }
    }
    forall u: nat ensures Housed(blocks - {b}, size', home', u) {
      assert Housed(blocks, size, home, u);
    }
  }

  lemma Apart(size: map<nat, nat>, home: map<nat, nat>, a: nat, b: nat)
    requires Whole(size, home, a) && Whole(size, home, b) && a != b
    ensures a + size[a] <= b || b + size[b] <= a
  {
    assert home[a] == a && home[b] == b;
  }

  /** A block gives its last n units away as a block of their own. */
  lemma SplitHomes(blocks: set<nat>, size: map<nat, nat>, home: map<nat, nat>, a: nat, n: nat)
    requires Homes(blocks, size, home) && a in blocks && a in size && 0 < n < size[a]
    ensures var b := a + size[a] - n;
      b !in blocks && Homes(blocks + {b}, size[a := size[a] - n][b := n], Rehome(home, b, b + n, b))
  {
    var b := a + size[a] - n;
    assert Whole(size, home, a) && home[b] == a;
    assert b in blocks ==> Whole(size, home, b);
    var size', home' := size[a := size[a] - n][b := n], Rehome(home, b, b + n, b);
    forall x | x in blocks + {b} ensures Whole(size', home', x) {
      if x != b {
        assert Whole(size, home, x);
        if x != a { Apart(size, home, x, a); }
      }
    }
    forall u: nat ensures Housed(blocks + {b}, size', home', u) {
      assert Housed(blocks, size, home, u);
    }
  }

  /** sbrk brings a block of new units. */
  lemma GrowHomes(blocks: set<nat>, size: map<nat, nat>, home: map<nat, nat>, b: nat, n: nat)
    requires Homes(blocks, size, home) && n > 0 && forall u :: b <= u < b + n ==> u !in home
    ensures b !in blocks && Homes(blocks + {b}, size[b := n], Grown(home, b, n))
  {
    var size', home' := size[b := n], Grown(home, b, n);
    assert b in blocks ==> Whole(size, home, b);
    forall x | x in blocks + {b} ensures Whole(size', home', x) {
      if x != b {
        assert Whole(size, home, x);
        forall u | x <= u < x + size[x] ensures u in home' && home'[u] == x { assert u in home; }
      }
    }
    forall u: nat ensures Housed(blocks + {b}, size', home', u) {
      assert Housed(blocks, size, home, u);
      assert u in home' ==> b <= u < b + n || (u in home && home'[u] == home[u]);
    }
  }

  ghost function Grown(home: map<nat, nat>, b: nat, n: nat): (r: map<nat, nat>)
    ensures forall u :: u in r <==> u in home || b <= u < b + n
    ensures forall u :: u in r ==> r[u] == if b <= u < b + n then b else home[u]
  {
    if n == 0 then home else Grown(home, b, n - 1)[b + n - 1 := b]
  }

  // ----- changes of the list

  /** Position t is where address b belongs. */
  ghost predicate Place(list: seq<nat>, b: nat, t: nat) {
    t < |list| && list[t] < b && (t + 1 < |list| ==> b < list[t + 1])
  }

  /** Insert b after position t, dropping `skip` elements that follow. */
  function Inserted(list: seq<nat>, t: nat, b: nat, skip: nat): seq<nat>
    requires t + 1 + skip <= |list|
  {
    list[..t + 1] + [b] + list[t + 1 + skip..]
  }

  lemma InsertAscending(list: seq<nat>, t: nat, b: nat, skip: nat)
    requires Ascending(list) && Place(list, b, t) && t + 1 + skip <= |list|
    ensures Ascending(Inserted(list, t, b, skip))
  {
    var list' := Inserted(list, t, b, skip);
    forall j, k | 0 <= j < k < |list'| ensures list'[j] < list'[k] {
      var x := if j <= t then list[j] else if j == t + 1 then b else list[j - 1 + skip];
      assert list'[j] == x;
    }
  }

  lemma InsertLinked(list: seq<nat>, ptr: map<nat, nat>, t: nat, b: nat, skip: nat, k: nat)
    requires Ascending(list) && Place(list, b, t) && skip <= 1 && t + 1 + skip <= |list|
      && k < |Inserted(list, t, b, skip)|
    requires k <= t ==> Linked(list, ptr, k)
    requires k > t + 1 ==> Linked(list, ptr, k - 1 + skip)
    ensures Linked(Inserted(list, t, b, skip), ptr[b := Next(list, t + skip)][list[t] := b], k)
  {
    var list' := Inserted(list, t, b, skip);
    if k < t {
      assert list'[k] == list[k] && list'[k + 1] == list[k + 1];
    } else if k > t + 1 {
      assert list'[k] == list[k - 1 + skip];
      assert k + 1 < |list'| ==> list'[k + 1] == list[k + skip];
    } else if k == t + 1 && k + 1 < |list'| {
      assert list'[k + 1] == list[t + 1 + skip];
    }
    assert list'[0] == list[0];
  }

  lemma InsertRing(list: seq<nat>, ptr: map<nat, nat>, t: nat, b: nat, skip: nat)
    requires Ring(list, ptr) && Place(list, b, t) && skip <= 1 && t + 1 + skip <= |list|
    ensures Ring(Inserted(list, t, b, skip), ptr[b := Next(list, t + skip)][list[t] := b])
  {
    var list' := Inserted(list, t, b, skip);
    var ptr' := ptr[b := Next(list, t + skip)][list[t] := b];
    InsertAscending(list, t, b, skip);
    forall k | 0 <= k < |list'| ensures Linked(list', ptr', k) {
      assert k <= t ==> Linked(list, ptr, k);
      assert k > t + 1 ==> Linked(list, ptr, k - 1 + skip);
      InsertLinked(list, ptr, t, b, skip, k);
    }
  }

  function Without(list: seq<nat>, k: nat): seq<nat>
    requires k < |list|
  {
    list[..k] + list[k + 1..]
  }

  lemma RemoveLinked(list: seq<nat>, ptr: map<nat, nat>, t: nat, k: nat)
    requires Ascending(list) && t + 1 < |list| && k < |list| - 1 && Linked(list, ptr, t + 1)
    requires Linked(list, ptr, if k <= t then k else k + 1)
    ensures Linked(Without(list, t + 1), ptr[list[t] := ptr[list[t + 1]]], k)
  {
    var list' := Without(list, t + 1);
    if k > t { assert list'[k] == list[k + 1]; }
    if k + 1 < |list'| { assert list'[k + 1] == list[if k < t then k + 1 else k + 2]; }
    assert list'[0] == list[0];
  }

  lemma RemoveAscending(list: seq<nat>, t: nat)
    requires Ascending(list) && t + 1 < |list|
    ensures Ascending(Without(list, t + 1))
  {
    var list' := Without(list, t + 1);
    forall j, k | 0 <= j < k < |list'| ensures list'[j] < list'[k] {
      assert list'[j] == list[if j <= t then j else j + 1];
    }
  }

  lemma RemoveRing(list: seq<nat>, ptr: map<nat, nat>, t: nat)
    requires Ring(list, ptr) && t + 1 < |list|
    ensures list[t + 1] in ptr && Ring(Without(list, t + 1), ptr[list[t] := ptr[list[t + 1]]])
  {
    assert Linked(list, ptr, t + 1);
    var list' := Without(list, t + 1);
    var ptr' := ptr[list[t] := ptr[list[t + 1]]];
    RemoveAscending(list, t);
    forall k | 0 <= k < |list'| ensures Linked(list', ptr', k) {
      assert Linked(list, ptr, if k <= t then k else k + 1);
      RemoveLinked(list, ptr, t, k);
    }
  }

  // ----- the whole state

  ghost function Blocks(list: seq<nat>): set<nat> {
    set k | 1 <= k < |list| :: list[k]
  }

  /** With e == 0: an address-ordered, fully coalesced circular list whose blocks are
      disjoint from each other and from the live blocks. */
  ghost predicate Heaped(list: seq<nat>, live: set<nat>, ptr: map<nat, nat>, size: map<nat, nat>, home: map<nat, nat>,
      e: nat)
  {
    && Ring(list, ptr) && Gaps(list, size, e)
    && Homes(Blocks(list) + live, size, home)
    && Blocks(list) !! live && forall a :: a in live ==> a > BASE
  }

  /** That, folded until a proof names StateIs; n only counts. */
  ghost predicate State(list: seq<nat>, live: set<nat>, ptr: map<nat, nat>, size: map<nat, nat>, home: map<nat, nat>,
      e: nat)
  {
    StateAt(list, live, ptr, size, home, e, |list|)
  }

  ghost predicate StateAt(list: seq<nat>, live: set<nat>, ptr: map<nat, nat>, size: map<nat, nat>, home: map<nat, nat>,
      e: nat, n: nat)
    decreases n, 2
  {
    StateNow(list, live, ptr, size, home, e, n)
  }

  ghost predicate StateNow(list: seq<nat>, live: set<nat>, ptr: map<nat, nat>, size: map<nat, nat>, home: map<nat, nat>,
      e: nat, n: nat)
    decreases n, 1
  {
    StateHere(list, live, ptr, size, home, e, n) && (n > 0 ==> StateAt(list, live, ptr, size, home, e, n - 1))
  }

  ghost predicate StateHere(list: seq<nat>, live: set<nat>, ptr: map<nat, nat>, size: map<nat, nat>,
      home: map<nat, nat>, e: nat, n: nat)
    decreases n, 0
  {
    (n > 0 ==> StateNow(list, live, ptr, size, home, e, n - 1)) && Heaped(list, live, ptr, size, home, e)
  }

  lemma {:induction false} StateUnfolds(list: seq<nat>, live: set<nat>, ptr: map<nat, nat>, size: map<nat, nat>,
      home: map<nat, nat>, e: nat, n: nat)
    ensures StateAt(list, live, ptr, size, home, e, n) <==> Heaped(list, live, ptr, size, home, e)
    decreases n
  {
    if n > 0 {
      StateUnfolds(list, live, ptr, size, home, e, n - 1);
      assert StateAt(list, live, ptr, size, home, e, n - 1) <==> StateNow(list, live, ptr, size, home, e, n - 1);
    }
    assert StateNow(list, live, ptr, size, home, e, n) <==>
      StateHere(list, live, ptr, size, home, e, n) && (n > 0 ==> StateAt(list, live, ptr, size, home, e, n - 1));
  }

  lemma StateIs(list: seq<nat>, live: set<nat>, ptr: map<nat, nat>, size: map<nat, nat>, home: map<nat, nat>, e: nat)
    ensures State(list, live, ptr, size, home, e) <==> Heaped(list, live, ptr, size, home, e)
  {
    StateUnfolds(list, live, ptr, size, home, e, |list|);
  }

  /** Live blocks have a size, and are above base. */
  lemma LiveSized(list: seq<nat>, live: set<nat>, ptr: map<nat, nat>, size: map<nat, nat>, home: map<nat, nat>, e: nat)
    requires State(list, live, ptr, size, home, e)
    ensures forall a :: a in live ==> a in size && a > BASE
  {
    StateIs(list, live, ptr, size, home, e);
    forall a | a in live ensures a in size { assert a in Blocks(list) + live && Whole(size, home, a); }
  }

  /** What is known of the k-th block of the list. */
  lemma ListedBlock(list: seq<nat>, live: set<nat>, ptr: map<nat, nat>, size: map<nat, nat>, home: map<nat, nat>,
      e: nat, k: nat)
    requires State(list, live, ptr, size, home, e) && k < |list|
    ensures list[k] in ptr && ptr[list[k]] == Next(list, k) && list[k] in size && list[0] == BASE
      && (k > 0 ==> list[k] > BASE && list[k] !in live)
    ensures list[k] >= BASE && (size[list[k]] > 0 <==> k > 0)
  {
    StateIs(list, live, ptr, size, home, e);
    assert Linked(list, ptr, k);
    if k > 0 { assert list[k] in Blocks(list) && Whole(size, home, list[k]) && list[0] < list[k]; }
  }

  lemma InsertKeepsBlock(list: seq<nat>, t: nat, b: nat, skip: nat, k: nat)
    requires t + 1 + skip <= |list| && skip <= 1 && 1 <= k < |list| && (skip == 1 ==> k != t + 1)
    ensures list[k] in Blocks(Inserted(list, t, b, skip))
  {
    var list' := Inserted(list, t, b, skip);
    if k <= t { assert list'[k] == list[k]; } else { assert list'[k + 1 - skip] == list[k]; }
  }

  lemma InsertBlocks(list: seq<nat>, t: nat, b: nat, skip: nat)
    requires Ascending(list) && t + 1 + skip <= |list| && skip <= 1 && b !in list
    ensures Blocks(Inserted(list, t, b, skip)) == Blocks(list) + {b} - (if skip == 1 then {list[t + 1]} else {})
  {
    var list' := Inserted(list, t, b, skip);
    forall x | x in Blocks(list) && (skip == 1 ==> x != list[t + 1]) ensures x in Blocks(list') {
      var k :| 1 <= k < |list| && list[k] == x;
      InsertKeepsBlock(list, t, b, skip, k);
    }
    forall k | 1 <= k < |list'| && k != t + 1
      ensures list'[k] in Blocks(list) && (skip == 1 ==> list'[k] != list[t + 1]) {
      assert list'[k] == list[if k <= t then k else k - 1 + skip];
    }
    assert list'[t + 1] == b;
  }

  lemma RemoveBlocks(list: seq<nat>, t: nat)
    requires Ascending(list) && t + 1 < |list|
    ensures Blocks(Without(list, t + 1)) == Blocks(list) - {list[t + 1]}
  {
    var list' := Without(list, t + 1);
    forall k | 1 <= k < |list| && k != t + 1 ensures list[k] in Blocks(list') {
      WithoutAt(list, t, if k <= t then k else k - 1);
    }
    forall k | 1 <= k < |list'| ensures list'[k] in Blocks(list) && list'[k] != list[t + 1] {
      WithoutAt(list, t, k);
    }
  }

  lemma WithoutAt(list: seq<nat>, t: nat, k: nat)
    requires t + 1 < |list| && k < |list| - 1
    ensures |Without(list, t + 1)| == |list| - 1 && Without(list, t + 1)[k] == list[if k <= t then k else k + 1]
  {
  }

  /** Whether block b reaches the free block after position t. */
  ghost predicate Touches(list: seq<nat>, size: map<nat, nat>, t: nat, b: nat)
    requires t < |list| && b in size
  {
    t + 1 < |list| && b + size[b] == list[t + 1]
  }

  lemma InsertGap(list: seq<nat>, size: map<nat, nat>, size': map<nat, nat>, t: nat, b: nat, skip: nat, k: nat)
    requires Ascending(list) && Place(list, b, t) && skip <= 1 && t + 1 + skip <= |list| && 1 <= k < |list| + 1 - skip
      && k != t
    requires k < t ==> Gap(list, size, k)
    requires k > t + 1 ==> Gap(list, size, k - 1 + skip)
    requires b in size' && (t + 1 + skip < |list| ==> b + size'[b] < list[t + 1 + skip])
    requires forall x :: x in size && x != b ==> x in size' && size'[x] == size[x]
    ensures k < |Inserted(list, t, b, skip)| && Gap(Inserted(list, t, b, skip), size', k)
  {
    var list' := Inserted(list, t, b, skip);
    if k < t {
      assert list'[k] == list[k] && list'[k + 1] == list[k + 1] && list[k] < list[t];
    } else if k == t + 1 {
      assert list'[k] == b;
      assert k + 1 < |list'| ==> list'[k + 1] == list[t + 1 + skip];
    } else {
      assert list'[k] == list[k - 1 + skip] && list[k - 1 + skip] >= list[t + 1];
      assert k + 1 < |list'| ==> list'[k + 1] == list[k + skip];
    }
  }

  /** A live block becomes free, joined with the free block after it if they touch. */
  lemma InsertState(list: seq<nat>, live: set<nat>, ptr: map<nat, nat>, size: map<nat, nat>, home: map<nat, nat>,
      t: nat, b: nat)
    requires State(list, live, ptr, size, home, 0) && b in live && Place(list, b, t) && b in size
      && !Touches(list, size, t, b)
    ensures State(Inserted(list, t, b, 0), live - {b}, ptr[b := Next(list, t)][list[t] := b], size, home, t)
  {
    StateIs(list, live, ptr, size, home, 0);
    var list', ptr' := Inserted(list, t, b, 0), ptr[b := Next(list, t)][list[t] := b];
    NotFree(list, live, b);
    InsertRing(list, ptr, t, b, 0);
    InsertBlocks(list, t, b, 0);
    assert Blocks(list') + (live - {b}) == Blocks(list) + live;
    FollowerApart(list, live, size, home, t, b);
    forall k | 1 <= k < |list'| && k != t ensures Gap(list', size, k) {
      assert k < t ==> Gap(list, size, k);
      assert k > t + 1 ==> Gap(list, size, k - 1);
      InsertGap(list, size, size, t, b, 0, k);
    }
    assert list'[0] == list[0];
    StateIs(list', live - {b}, ptr', size, home, t);
  }

  lemma InsertMergeState(list: seq<nat>, live: set<nat>, ptr: map<nat, nat>, size: map<nat, nat>, home: map<nat, nat>,
      t: nat, b: nat)
    requires State(list, live, ptr, size, home, 0) && b in live && Place(list, b, t) && b in size
      && Touches(list, size, t, b)
    ensures list[t + 1] in size
    ensures var q := list[t + 1];
      State(Inserted(list, t, b, 1), live - {b}, ptr[b := Next(list, t + 1)][list[t] := b],
        size[b := size[b] + size[q]],
            Rehome(home, q, q + size[q], b), t)
  {
    StateIs(list, live, ptr, size, home, 0);
    var q := list[t + 1];
    assert q in Blocks(list) && Whole(size, home, q);
    var list', size', ptr' := Inserted(list, t, b, 1), size[b := size[b] + size[q]],
      ptr[b := Next(list, t + 1)][list[t] := b];
    NotFree(list, live, b);
    InsertRing(list, ptr, t, b, 1);
    InsertBlocks(list, t, b, 1);
    assert Blocks(list') + (live - {b}) == Blocks(list) + live - {q};
    MergeHomes(Blocks(list) + live, size, home, b, q);
    assert Gap(list, size, t + 1);
    forall k | 1 <= k < |list'| && k != t ensures Gap(list', size', k) {
      assert k < t ==> Gap(list, size, k);
      assert k > t + 1 ==> Gap(list, size, k);
      InsertGap(list, size, size', t, b, 1, k);
    }
    assert list'[0] == list[0];
    StateIs(list', live - {b}, ptr', size', Rehome(home, q, q + size[q], b), t);
  }

  lemma NotFree(list: seq<nat>, live: set<nat>, b: nat)
    requires b in live && Blocks(list) !! live && |list| > 0 && list[0] == BASE && b > BASE
    ensures b !in list
  {
    forall k | 0 <= k < |list| ensures list[k] != b { assert k > 0 ==> list[k] in Blocks(list); }
  }

  lemma FollowerApart(list: seq<nat>, live: set<nat>, size: map<nat, nat>, home: map<nat, nat>, t: nat, b: nat)
    requires Homes(Blocks(list) + live, size, home) && b in live && Place(list, b, t) && b in size
      && !Touches(list, size, t, b)
    ensures t + 1 < |list| ==> b + size[b] < list[t + 1]
  {
    if t + 1 < |list| {
      assert list[t + 1] in Blocks(list);
      Disjoint(Blocks(list) + live, size, home, b, list[t + 1]);
    }
  }

  /** The blocks at t and t + 1 are not adjacent after all. */
  lemma NoMerge(list: seq<nat>, live: set<nat>, ptr: map<nat, nat>, size: map<nat, nat>, home: map<nat, nat>, t: nat)
    requires State(list, live, ptr, size, home, t) && t + 1 < |list| && list[t] in size
      && list[t] + size[list[t]] != list[t + 1]
    ensures State(list, live, ptr, size, home, 0)
  {
    StateIs(list, live, ptr, size, home, t);
    if t > 0 {
      assert list[t] in Blocks(list) && list[t + 1] in Blocks(list);
      Disjoint(Blocks(list) + live, size, home, list[t], list[t + 1]);
      assert Gap(list, size, t);
    }
    forall k | 1 <= k < |list| ensures Gap(list, size, k) { }
    StateIs(list, live, ptr, size, home, 0);
  }

  lemma MergeState(list: seq<nat>, live: set<nat>, ptr: map<nat, nat>, size: map<nat, nat>, home: map<nat, nat>, t: nat)
    requires State(list, live, ptr, size, home, t) && t + 1 < |list| && list[t] in size
      && list[t] + size[list[t]] == list[t + 1]
    ensures t > 0 && list[t + 1] in size && list[t + 1] in ptr
    ensures var b := list[t + 1];
      State(Without(list, t + 1), live, ptr[list[t] := ptr[b]], size[list[t] := size[list[t]] + size[b]],
            Rehome(home, b, b + size[b], list[t]), 0)
  {
    StateIs(list, live, ptr, size, home, t);
    var a, b := list[t], list[t + 1];
    assert a < b;
    assert a in Blocks(list) && b in Blocks(list) && Whole(size, home, b) && Linked(list, ptr, t + 1);
    var list', size', ptr' := Without(list, t + 1), size[a := size[a] + size[b]], ptr[a := ptr[b]];
    RemoveRing(list, ptr, t);
    RemoveBlocks(list, t);
    assert Blocks(list') + live == Blocks(list) + live - {b};
    MergeHomes(Blocks(list) + live, size, home, a, b);
    assert Gap(list, size, t + 1);
    forall k | 1 <= k < |list'| ensures Gap(list', size', k) {
      var x := if k <= t then k else k + 1;
      assert x != t ==> Gap(list, size, x);
      assert list'[k] == list[x] && (k + 1 < |list'| ==> list'[k + 1] == list[if k < t then k + 1 else k + 2]);
    }
    assert list'[0] == list[0];
    StateIs(list', live, ptr', size', Rehome(home, b, b + size[b], a), 0);
  }

  /** A free block is handed out whole. */
  lemma RemoveState(list: seq<nat>, live: set<nat>, ptr: map<nat, nat>, size: map<nat, nat>, home: map<nat, nat>,
      t: nat)
    requires State(list, live, ptr, size, home, 0) && t + 1 < |list|
    ensures list[t + 1] in ptr && list[t + 1] !in live
    ensures State(Without(list, t + 1), live + {list[t + 1]}, ptr[list[t] := ptr[list[t + 1]]], size, home, 0)
  {
    StateIs(list, live, ptr, size, home, 0);
    var b, list' := list[t + 1], Without(list, t + 1);
    assert b in Blocks(list) && list[0] < b && Linked(list, ptr, t + 1);
    RemoveRing(list, ptr, t);
    RemoveBlocks(list, t);
    assert Blocks(list') + (live + {b}) == Blocks(list) + live;
    forall k | 1 <= k < |list'| ensures Gap(list', size, k) {
      var x := if k <= t then k else k + 1;
      assert Gap(list, size, x);
      assert list'[k] == list[x] && (k + 1 < |list'| ==> list'[k + 1] == list[if k < t then k + 1 else k + 2]);
    }
    assert list'[0] == list[0];
    StateIs(list', live + {b}, ptr[list[t] := ptr[b]], size, home, 0);
  }

  /** Blocks that shrink stay apart. */
  lemma SmallerGaps(list: seq<nat>, size: map<nat, nat>, size': map<nat, nat>)
    requires Gaps(list, size, 0) && forall k :: 0 <= k < |list| ==>
      list[k] in size && list[k] in size' && size'[list[k]] <= size[list[k]]
    ensures Gaps(list, size', 0)
  {
    forall k | 1 <= k < |list| ensures Gap(list, size', k) { assert Gap(list, size, k); }
  }

  lemma SplitGaps(list: seq<nat>, size: map<nat, nat>, a: nat, b: nat, n: nat)
    requires Gaps(list, size, 0) && a in size && n <= size[a]
    requires forall k :: 0 <= k < |list| ==> list[k] in size && list[k] != b
    ensures Gaps(list, size[a := size[a] - n][b := n], 0)
  {
    SmallerGaps(list, size, size[a := size[a] - n][b := n]);
  }

  /** The last n units of a free block are handed out. */
  lemma SplitState(list: seq<nat>, live: set<nat>, ptr: map<nat, nat>, size: map<nat, nat>, home: map<nat, nat>, t: nat,
      n: nat)
    requires State(list, live, ptr, size, home, 0) && t + 1 < |list| && list[t + 1] in size && 0 < n < size[list[t + 1]]
    ensures var a := list[t + 1]; var b := a + size[a] - n;
      b !in live && State(list, live + {b}, ptr, size[a := size[a] - n][b := n], Rehome(home, b, b + n, b), 0)
  {
    StateIs(list, live, ptr, size, home, 0);
    var a := list[t + 1];
    var b := a + size[a] - n;
    assert a in Blocks(list) && list[0] < a;
    SplitHomes(Blocks(list) + live, size, home, a, n);
    assert Blocks(list) + (live + {b}) == Blocks(list) + live + {b};
    var size' := size[a := size[a] - n][b := n];
    forall k | 0 <= k < |list| ensures list[k] in size && list[k] != b {
      assert k > 0 ==> list[k] in Blocks(list) && Gap(list, size, k);
    }
    SplitGaps(list, size, a, b, n);
    StateIs(list, live + {b}, ptr, size', Rehome(home, b, b + n, b), 0);
  }

  // ----- conservation

  ghost function Pick(blocks: set<nat>): (a: nat)
    requires blocks != {}
    ensures a in blocks
  {
    var a :| a in blocks; a
  }

  /** The units in a set of blocks. */
  ghost function Total(blocks: set<nat>, size: map<nat, nat>): nat
    requires blocks <= size.Keys
  {
    if blocks == {} then 0 else size[Pick(blocks)] + Total(blocks - {Pick(blocks)}, size)
  }

  ghost function Restrict(home: map<nat, nat>, blocks: set<nat>): map<nat, nat> {
    map u | u in home && home[u] in blocks :: home[u]
  }

  lemma RestrictHomes(blocks: set<nat>, part: set<nat>, size: map<nat, nat>, home: map<nat, nat>)
    requires Homes(blocks, size, home) && part <= blocks
    ensures Homes(part, size, Restrict(home, part))
  {
    forall a | a in part ensures Whole(size, Restrict(home, part), a) { assert Whole(size, home, a); }
    forall u: nat ensures Housed(part, size, Restrict(home, part), u) { assert Housed(blocks, size, home, u); }
  }

  ghost function Range(a: nat, n: nat): (r: set<nat>)
    ensures forall u :: u in r <==> a <= u < a + n
    ensures |r| == n
  {
    if n == 0 then {} else Range(a, n - 1) + {a + n - 1}
  }

  lemma SplitUnits(blocks: set<nat>, size: map<nat, nat>, home: map<nat, nat>, a: nat)
    requires Homes(blocks, size, home) && a in blocks && Whole(size, home, a)
    ensures |home| == |Restrict(home, blocks - {a})| + size[a]
  {
    var rest, own := Restrict(home, blocks - {a}), Range(a, size[a]);
    forall u | u in home ensures u in rest.Keys + own { assert Housed(blocks, size, home, u); }
    assert home.Keys == rest.Keys + own && rest.Keys !! own;
    assert |home| == |home.Keys| && |rest| == |rest.Keys|;
  }

  lemma {:induction false} CountUnits(blocks: set<nat>, size: map<nat, nat>, home: map<nat, nat>)
    requires Homes(blocks, size, home) && blocks <= size.Keys
    ensures |home| == Total(blocks, size)
    decreases blocks
  {
    if blocks == {} {
      forall u: nat ensures u !in home { assert Housed(blocks, size, home, u); }
      assert home == map[];
    } else {
      var a := Pick(blocks);
      var rest := Restrict(home, blocks - {a});
      RestrictHomes(blocks, blocks - {a}, size, home);
      assert Whole(size, home, a);
      CountUnits(blocks - {a}, size, rest);
      SplitUnits(blocks, size, home, a);
    }
  }

  lemma CountParts(free: set<nat>, live: set<nat>, size: map<nat, nat>, home: map<nat, nat>)
    requires Homes(free + live, size, home) && free !! live
    ensures |home| == |Restrict(home, free)| + |Restrict(home, live)|
  {
    var inFree, inLive := Restrict(home, free), Restrict(home, live);
    forall u | u in home ensures u in inFree.Keys + inLive.Keys { assert Housed(free + live, size, home, u); }
    assert home.Keys == inFree.Keys + inLive.Keys && inFree.Keys !! inLive.Keys;
    assert |home| == |home.Keys| && |inFree| == |inFree.Keys| && |inLive| == |inLive.Keys|;
  }

  /** Free plus live units are the units obtained from sbrk. */
  lemma Conservation(list: seq<nat>, live: set<nat>, ptr: map<nat, nat>, size: map<nat, nat>, home: map<nat, nat>)
    requires State(list, live, ptr, size, home, 0)
    ensures Blocks(list) + live <= size.Keys
    ensures Total(Blocks(list), size) + Total(live, size) == |home|
  {
    StateIs(list, live, ptr, size, home, 0);
    CountAll(Blocks(list), live, size, home);
  }

  lemma CountAll(free: set<nat>, live: set<nat>, size: map<nat, nat>, home: map<nat, nat>)
    requires Homes(free + live, size, home) && free !! live
    ensures free + live <= size.Keys
    ensures Total(free, size) + Total(live, size) == |home|
  {
    forall a | a in free + live ensures a in size { assert Whole(size, home, a); }
    RestrictHomes(free + live, free, size, home);
    RestrictHomes(free + live, live, size, home);
    CountUnits(free, size, Restrict(home, free));
    CountUnits(live, size, Restrict(home, live));
    CountParts(free, live, size, home);
  }

  /** Positions count around the ring: Wrap brings one below 2n back below n. */
  function Wrap(x: nat, n: nat): nat {
    if x < n then x else if x < 2 * n then x - n else 0
  }

  /** Free block k is too small for nunits. */
  ghost predicate Small(list: seq<nat>, size: map<nat, nat>, k: nat, nunits: nat) {
    k < |list| && list[k] in size && size[list[k]] < nunits
  }

  /** So is the one m blocks after the next of block f. */
  ghost predicate SmallAfter(list: seq<nat>, size: map<nat, nat>, f: nat, m: nat, nunits: nat) {
    Small(list, size, Wrap(f + m + 1, |list|), nunits)
  }

  /** Of the free blocks after freep, at position f, the first d are too small; the next one is
      not, h is where its last nunits units start, and fp is the block before it. */
  ghost predicate FitAt(list: seq<nat>, size: map<nat, nat>, freep: nat, nunits: nat, f: nat, d: nat, h: int, fp: nat) {
    && f < |list| && d < |list| && list[f] == freep && fp == list[Wrap(f + d, |list|)]
    && (forall m: nat :: m < d ==> SmallAfter(list, size, f, m, nunits))
    && var p := list[Wrap(f + d + 1, |list|)]; p in size && size[p] >= nunits && h == p + size[p] - nunits
  }

  /** The first free block after freep that is large enough ends with the nunits units from h,
      and fp is the block before it. */
  ghost predicate NextFit(list: seq<nat>, size: map<nat, nat>, freep: nat, nunits: nat, h: int, fp: nat) {
    exists f: nat, d: nat :: FitAt(list, size, freep, nunits, f, d, h, fp)
  }

  class Heap {
    var freep: nat                // 0 before the first call
    var ptr: map<nat, nat>
    var size: map<nat, nat>
    ghost var list: seq<nat>      // the free blocks, from base, in address order
    ghost var live: set<nat>      // the blocks handed out
    ghost var home: map<nat, nat> // the block that each unit from sbrk lies in

    ghost predicate Valid()
      reads this
    {
      if freep == 0 then live == {} && home == map[]
      else State(list, live, ptr, size, home, 0) && freep in list
    }

    constructor ()
      ensures Valid() && live == {} && home == map[]
    {
      freep, ptr, size := 0, map[], map[];
      list, live, home := [], {}, map[];
    }

    /** free's search: the free block after which b belongs.  It ends wherever it starts. */
    method Find(b: nat) returns (p: nat, ghost t: nat)
      requires Valid() && freep != 0 && b in live
      ensures Place(list, b, t) && p == list[t]
    {
      StateIs(list, live, ptr, size, home, 0);
      NotFree(list, live, b);
      ghost var target := PlaceOf(list, b, |list| - 1);
      p := freep;
      ghost var i :| 0 <= i < |list| && list[i] == freep;
      assert Linked(list, ptr, i);
      while !(b > p && b < ptr[p])
        invariant i < |list| && p == list[i] && p in ptr
        decreases Wrap(target + |list| - i, |list|)
      {
        assert Linked(list, ptr, i);
        if p >= ptr[p] && (b > p || b < ptr[p]) {
          break;
        }
        p := ptr[p];
        i := if i + 1 < |list| then i + 1 else 0;
        assert Linked(list, ptr, i);
      }
      assert Linked(list, ptr, i);
      t := i;
    }

    /** The first half of free: block b goes after position t, joined with what follows. */
    method Attach(b: nat, p: nat, ghost t: nat)
      requires State(list, live, ptr, size, home, 0) && b in live && Place(list, b, t) && p == list[t]
      modifies this`ptr, this`size, this`list, this`live, this`home
      ensures t + 1 < |list| && list[t] == p && list[t + 1] == b && live == old(live) - {b}
        && home.Keys == old(home).Keys
      ensures State(list, live, ptr[p := b], size, home, t)
      ensures b in ptr && b in old(size) && b in size && size[b] >= old(size)[b] && size == old(size)[b := size[b]]
      ensures p in ptr && p in size
    {
      LiveSized(list, live, ptr, size, home, 0);
      ListedBlock(list, live, ptr, size, home, 0, t);
      ListedBlock(list, live, ptr, size, home, 0, 0);
      var q := ptr[p];
      if b + size[b] == q {
        assert Touches(list, size, t, b);
        ListedBlock(list, live, ptr, size, home, 0, t + 1);
        InsertMergeState(list, live, ptr, size, home, t, b);
        home := Rehome(home, q, q + size[q], b);
        list := Inserted(list, t, b, 1);
        size := size[b := size[b] + size[q]];
        ptr := ptr[b := ptr[q]];
      } else {
        InsertState(list, live, ptr, size, home, t, b);
        list := Inserted(list, t, b, 0);
        ptr := ptr[b := q];
        assert size == size[b := size[b]];
      }
      live := live - {b};
    }

    /** The second half of free: block b, at position t + 1, is joined with what precedes. */
    method Join(b: nat, p: nat, ghost t: nat)
      requires t + 1 < |list| && list[t] == p && list[t + 1] == b && p in ptr && b in ptr && p in size && b in size
      requires State(list, live, ptr[p := b], size, home, t)
      modifies this`ptr, this`size, this`list, this`home
      ensures State(list, live, ptr, size, home, 0) && t < |list| && list[t] == p && home.Keys == old(home).Keys
      ensures forall a :: a in live ==> a in size && a in old(size) && size[a] == old(size)[a]
      ensures InFreeBlock(b, old(size)[b])
      ensures p in ptr && p in size && (ptr[p] == b || p + size[p] >= b + old(size)[b])
    {
      LiveSized(list, live, ptr[p := b], size, home, t);
      ListedBlock(list, live, ptr[p := b], size, home, t, t);
      ListedBlock(list, live, ptr[p := b], size, home, t, t + 1);
      if p + size[p] == b {
        MergeState(list, live, ptr[p := b], size, home, t);
        assert ptr[p := b][p := ptr[b]] == ptr[p := ptr[b]];
        home := Rehome(home, b, b + size[b], p);
        list := Without(list, t + 1);
        size := size[p := size[p] + size[b]];
        ptr := ptr[p := ptr[b]];
        assert list[t] == p;
      } else {
        NoMerge(list, live, ptr[p := b], size, home, t);
        ptr := ptr[p := b];
        assert list[t + 1] == b;
      }
    }

    /** free of a block that was handed out: its units become free, joined with the free
        blocks on either side; nothing else changes. */
    method Free(b: nat)
      requires Valid() && freep != 0 && b in live
      modifies this
      ensures Valid() && freep != 0 && live == old(live) - {b} && home.Keys == old(home).Keys
      ensures forall a :: a in live ==> a in size && a in old(size) && size[a] == old(size)[a]
      ensures b in old(size) && InFreeBlock(b, old(size)[b])
      ensures freep < b && freep in ptr && freep in size
        && (ptr[freep] == b || freep + size[freep] >= b + old(size)[b])
    {
      var p; ghost var t;
      p, t := Find(b);
      LiveSized(list, live, ptr, size, home, 0);
      Attach(b, p, t);
      Join(b, p, t);
      ListedBlock(list, live, ptr, size, home, 0, t);
      freep := p;
    }

    /** The units [b, b + n) lie in one free block. */
    ghost predicate InFreeBlock(b: nat, n: nat)
      reads this
    {
      exists k :: 1 <= k < |list| && list[k] in size && list[k] <= b && b + n <= list[k] + size[list[k]]
    }

    /** Some free block has n units. */
    ghost predicate Fits(n: nat)
      reads this
    {
      exists k :: 1 <= k < |list| && !TooSmall(k, n)
    }

    /** morecore: a new block from sbrk, which returns brk, joins the free list; 0 if sbrk
        fails. */
    method Morecore(nunits: nat, brk: int) returns (p: nat)
      requires Valid() && freep != 0 && (brk == -1 || NewCore(home, nunits, brk))
      modifies this
      ensures Valid() && freep != 0 && live == old(live)
      ensures forall a :: a in live ==> a in size && a in old(size) && size[a] == old(size)[a]
      ensures brk == -1 ==> p == 0 && unchanged(this)
      ensures brk != -1 ==> p == freep && home.Keys == Grown(old(home), brk, Core(nunits)).Keys && Fits(nunits)
    {
      var nu := nunits;
      if nu < MIN_CORE {
        nu := MIN_CORE;
      }
      LiveSized(list, live, ptr, size, home, 0);
      if brk == -1 {
        return 0;
      }
      GrowState(list, live, ptr, size, home, brk, nu);
      size := size[brk := nu];
      live, home := live + {brk as nat}, Grown(home, brk, nu);
      Free(brk);
      assert live == old(live);
      ghost var k :| 1 <= k < |list| && list[k] in size && list[k] <= brk && brk + nu <= list[k] + size[list[k]];
      assert !TooSmall(k, nunits);
      return freep;
    }

    /** malloc's choice: block p0, which follows prevp, is handed out, or its tail. */
    method Carve(prevp: nat, p0: nat, nunits: nat, ghost t: nat) returns (p: nat)
      requires State(list, live, ptr, size, home, 0) && t + 1 < |list| && list[t] == prevp && list[t + 1] == p0
      requires p0 in size && 0 < nunits <= size[p0] && p0 in ptr
      modifies this
      ensures Valid() && freep != 0 && p !in old(live) && live == old(live) + {p} && p in size && size[p] == nunits
      ensures forall a :: a in old(live) ==> a in size && a in old(size) && size[a] == old(size)[a]
      ensures home.Keys == old(home).Keys
      ensures freep == prevp && p == p0 + old(size)[p0] - nunits
    {
      LiveSized(list, live, ptr, size, home, 0);
      ListedBlock(list, live, ptr, size, home, 0, t + 1);
      if size[p0] == nunits {
        p := p0;
        RemoveState(list, live, ptr, size, home, t);
        ptr := ptr[prevp := ptr[p]];
        list := Without(list, t + 1);
        live := live + {p};
      } else {
        p := CutTail(p0, nunits, t);
      }
      ListedBlock(list, live, ptr, size, home, 0, t);
      freep := prevp;
    }

    method CutTail(p0: nat, nunits: nat, ghost t: nat) returns (p: nat)
      requires State(list, live, ptr, size, home, 0) && t + 1 < |list| && list[t + 1] == p0
      requires p0 in size && 0 < nunits < size[p0]
      modifies this`size, this`live, this`home
      ensures State(list, live, ptr, size, home, 0) && p !in old(live) && live == old(live) + {p}
      ensures size == old(size)[p0 := old(size)[p0] - nunits][p := nunits] && home.Keys == old(home).Keys
      ensures p == p0 + old(size)[p0] - nunits
    {
      SplitState(list, live, ptr, size, home, t, nunits);
      size := size[p0 := size[p0] - nunits];
      p := p0 + size[p0];
      size := size[p := nunits];
      home := Rehome(home, p, p + nunits, p);
      live := live + {p};
    }

    /** The first call of malloc makes a list of base alone. */
    method Init()
      requires Valid() && freep == 0
      modifies this
      ensures Valid() && freep == BASE && list == [BASE] && live == {} && home == map[]
    {
      freep := BASE;
      ptr := ptr[BASE := BASE];
      size := size[BASE := 0];
      list := [BASE];
      assert Linked(list, ptr, 0);
      StateIs(list, live, ptr, size, home, 0);
    }

    /** Live blocks keep their size; unless sbrk was called, the units are the same, and so is
        whether one of the free blocks fits. */
    ghost predicate Kept(live0: set<nat>, size0: map<nat, nat>, home0: map<nat, nat>, grown: bool, brk: int,
        nunits: nat, fit: bool)
      reads this
    {
      && live == live0 && (forall a :: a in live ==> a in size && a in size0 && size[a] == size0[a])
      && if grown then !fit && brk >= 0 && home.Keys == Grown(home0, brk, Core(nunits)).Keys && Fits(nunits)
         else home == home0 && (fit <==> Fits(nunits))
    }

    /** malloc's call of morecore. */
    method Refill(nunits: nat, brk: int, ghost live0: set<nat>, ghost size0: map<nat, nat>, ghost home0: map<nat, nat>,
        ghost fit: bool) returns (p: nat)
      requires Valid() && freep != 0 && !Fits(nunits) && Kept(live0, size0, home0, false, brk, nunits, fit)
        && (brk == -1 || NewCore(home, nunits, brk))
      modifies this
      ensures Valid() && freep != 0
      ensures p == 0 ==> brk == -1 && unchanged(this)
      ensures p != 0 ==> p == freep && Kept(live0, size0, home0, true, brk, nunits, fit)
    {
      p := Morecore(nunits, brk);
    }

    /** malloc: room for nbytes that no other live block shares.  It asks sbrk exactly if no
        free block is large enough, and fails exactly if sbrk is asked and fails.  Else it takes
        the end of the first one after freep that is, and the next search starts there. */
    method Malloc(nbytes: nat, brk: int) returns (r: nat)
      requires Valid() && Units(nbytes) * HEADER < 0x8000_0000
      requires brk == -1 || NewCore(home, Units(nbytes), brk)
      modifies this
      ensures Valid() && freep != 0
      ensures forall a :: a in old(live) ==> a in size && a in old(size) && size[a] == old(size)[a]
      ensures r == 0 <==> !old(HasFit(nbytes)) && brk == -1
      ensures r == 0 ==> live == old(live) && home == old(home) && !Fits(Units(nbytes))
      ensures r != 0 ==>
        r - 1 !in old(live) && live == old(live) + {r - 1} && r - 1 in size && size[r - 1] == Units(nbytes)
      ensures old(HasFit(nbytes)) ==> NextFit(old(list), old(size), old(freep), Units(nbytes), r - 1, freep)
      ensures home.Keys == if old(HasFit(nbytes)) || brk == -1 then old(home).Keys
        else Grown(old(home), brk, Core(Units(nbytes))).Keys
    {
      var nunits := (nbytes + HEADER - 1) / HEADER + 1;
      if freep == 0 {
        Init();
      }
      LiveSized(list, live, ptr, size, home, 0);
      r := Search(nunits, brk, old(live), old(size), old(home), old(HasFit(nbytes)));
    }

    /** A free block is large enough for nbytes. */
    ghost predicate HasFit(nbytes: nat)
      reads this
    {
      freep != 0 && Fits(Units(nbytes))
    }

    /** What malloc leaves: r is 0, or one past the header of a new live block. */
    ghost predicate Granted(r: nat, live0: set<nat>, size0: map<nat, nat>, home0: map<nat, nat>, brk: int, nunits: nat,
        fit: bool)
      reads this
    {
      && Valid() && freep != 0
      && (forall a :: a in live0 ==> a in size && a in size0 && size[a] == size0[a])
      && (r == 0 <==> !fit && brk == -1)
      && (r == 0 ==> live == live0 && home == home0 && !Fits(nunits))
      && (r != 0 ==> r - 1 !in live0 && live == live0 + {r - 1} && r - 1 in size && size[r - 1] == nunits)
      && (fit || brk == -1 ==> home.Keys == home0.Keys)
      && (!fit && brk != -1 ==> brk >= 0 && home.Keys == Grown(home0, brk, Core(nunits)).Keys)
    }

    /** malloc's loop. */
    method Search(nunits: nat, brk: int, ghost live0: set<nat>, ghost size0: map<nat, nat>, ghost home0: map<nat, nat>,
        ghost fit: bool) returns (r: nat)
      requires Valid() && freep != 0 && nunits > 0 && Kept(live0, size0, home0, false, brk, nunits, fit)
      requires brk == -1 || NewCore(home, nunits, brk)
      modifies this
      ensures Granted(r, live0, size0, home0, brk, nunits, fit)
      ensures fit ==> NextFit(old(list), old(size), old(freep), nunits, r - 1, freep)
    {
      ghost var f := Start(nunits);
      var prevp := freep;
      var p := ptr[prevp];
      ghost var d, grown := 0, false;
      while true
        invariant Valid() && freep != 0 && Scanning(f, d, prevp, p, nunits)
        invariant Kept(live0, size0, home0, grown, brk, nunits, fit)
        invariant fit ==> list == old(list) && size == old(size) && freep == old(freep)
        decreases if grown then 0 else 1, |list| - d
      {
        At(f, d, prevp, p, nunits);
        if size[p] >= nunits {
          Chosen(f, d, prevp, p, nunits);
          r := Grant(prevp, p, nunits, Wrap(f + d, |list|), live0, size0, home0, grown, brk, fit);
          return;
        }
        if p == freep {
          NoneFits(f, d, prevp, p, nunits);
          p := Refill(nunits, brk, live0, size0, home0, fit);
          if p == 0 {
            return 0;
          }
          grown, d := true, 0;
          f := Start(nunits);
        } else {
          Onward(f, d, prevp, p, nunits);
          d := d + 1;
        }
        prevp := p;
        p := ptr[p];
      }
    }

    method Grant(prevp: nat, p: nat, nunits: nat, ghost t: nat, ghost live0: set<nat>, ghost size0: map<nat, nat>,
        ghost home0: map<nat, nat>,
                 ghost grown: bool, ghost brk: int, ghost fit: bool) returns (r: nat)
      requires Valid() && freep != 0 && Kept(live0, size0, home0, grown, brk, nunits, fit)
      requires t + 1 < |list| && list[t] == prevp && list[t + 1] == p && p in size && 0 < nunits <= size[p] && p in ptr
      modifies this
      ensures r != 0 && Granted(r, live0, size0, home0, brk, nunits, fit)
      ensures freep == prevp && r - 1 == p + old(size)[p] - nunits
    {
      assert !TooSmall(t + 1, nunits);
      var h := Carve(prevp, p, nunits, t);
      return h + 1;
    }

    /** malloc has looked at d blocks after freep, at position f, and found none large enough. */
    ghost predicate Scanning(f: nat, d: nat, prevp: nat, p: nat, nunits: nat)
      reads this
    {
      && f < |list| && d < |list| && list[f] == freep
      && prevp == list[Wrap(f + d, |list|)] && p == list[Wrap(f + d + 1, |list|)]
      && forall m :: 0 <= m < d ==> Passed(f, m, nunits)
    }

    ghost predicate Passed(f: nat, m: nat, nunits: nat)
      reads this
    {
      TooSmall(Wrap(f + m + 1, |list|), nunits)
    }

    ghost predicate TooSmall(k: nat, nunits: nat)
      reads this
    {
      Small(list, size, k, nunits)
    }

    lemma At(f: nat, d: nat, prevp: nat, p: nat, nunits: nat)
      requires Valid() && freep != 0 && Scanning(f, d, prevp, p, nunits) && nunits > 0
      ensures p in size && p in ptr
      ensures size[p] >= nunits ==> var t := Wrap(f + d, |list|); t + 1 < |list| && list[t] == prevp && list[t + 1] == p
      ensures size[p] < nunits ==> Passed(f, d, nunits)
    {
      ListedBlock(list, live, ptr, size, home, 0, Wrap(f + d + 1, |list|));
    }

    lemma Chosen(f: nat, d: nat, prevp: nat, p: nat, nunits: nat)
      requires Scanning(f, d, prevp, p, nunits) && p in size && size[p] >= nunits
      ensures NextFit(list, size, freep, nunits, p + size[p] - nunits, prevp)
    {
      forall m: nat | m < d ensures SmallAfter(list, size, f, m, nunits) {
        assert Passed(f, m, nunits);
      }
      assert FitAt(list, size, freep, nunits, f, d, p + size[p] - nunits, prevp);
    }

    lemma Start(nunits: nat) returns (f: nat)
      requires Valid() && freep != 0
      ensures freep in ptr && Scanning(f, 0, freep, ptr[freep], nunits)
    {
      f :| 0 <= f < |list| && list[f] == freep;
      ListedBlock(list, live, ptr, size, home, 0, f);
    }

    lemma Onward(f: nat, d: nat, prevp: nat, p: nat, nunits: nat)
      requires Valid() && freep != 0 && Scanning(f, d, prevp, p, nunits) && Passed(f, d, nunits) && p != freep
      ensures p in ptr && Scanning(f, d + 1, p, ptr[p], nunits)
    {
      ListedBlock(list, live, ptr, size, home, 0, Wrap(f + d + 1, |list|));
      StateIs(list, live, ptr, size, home, 0);
    }

    /** Back at freep, every block has been looked at. */
    lemma NoneFits(f: nat, d: nat, prevp: nat, p: nat, nunits: nat)
      requires Valid() && freep != 0 && Scanning(f, d, prevp, p, nunits) && p == freep && Passed(f, d, nunits)
      ensures !Fits(nunits)
    {
      StateIs(list, live, ptr, size, home, 0);
      assert d + 1 == |list|;
      forall k | 1 <= k < |list| ensures TooSmall(k, nunits) {
        var m := if k > f then k - f - 1 else k + |list| - f - 1;
        assert Wrap(f + m + 1, |list|) == k;
        assert Passed(f, m, nunits);
      }
    }
  }

  function Core(nunits: nat): nat {
    if nunits < MIN_CORE then MIN_CORE else nunits
  }

  /** The units that hold a header and nbytes bytes. */
  function Units(nbytes: nat): (n: nat)
    ensures n > 0 && (n - 1) * HEADER >= nbytes > (n - 2) * HEADER
  {
    (nbytes + HEADER - 1) / HEADER + 1
  }

  /** What sbrk returns for nunits: memory above base that it has not returned before. */
  ghost predicate NewCore(home: map<nat, nat>, nunits: nat, brk: int) {
    brk > BASE && forall u :: brk <= u < brk + Core(nunits) ==> u !in home
  }

  lemma GrowState(list: seq<nat>, live: set<nat>, ptr: map<nat, nat>, size: map<nat, nat>, home: map<nat, nat>, b: nat,
      n: nat)
    requires State(list, live, ptr, size, home, 0) && n > 0 && b > BASE && forall u :: b <= u < b + n ==> u !in home
    ensures b !in live && State(list, live + {b}, ptr, size[b := n], Grown(home, b, n), 0)
  {
    StateIs(list, live, ptr, size, home, 0);
    GrowHomes(Blocks(list) + live, size, home, b, n);
    assert Blocks(list) + (live + {b}) == Blocks(list) + live + {b};
    var size' := size[b := n];
    forall k | 1 <= k < |list| ensures Gap(list, size', k) { assert Gap(list, size, k) && list[k] in Blocks(list); }
    StateIs(list, live + {b}, ptr, size', Grown(home, b, n), 0);
  }

  /** Where b belongs, at or before position k. */
  ghost function PlaceOf(list: seq<nat>, b: nat, k: nat): (t: nat)
    requires |list| > 0 && list[0] < b && Ascending(list) && k < |list| && b !in list
      && (k + 1 < |list| ==> b < list[k + 1])
    ensures Place(list, b, t)
  {
    if list[k] < b then k else PlaceOf(list, b, k - 1)
  }
}
