/**
  The buffer cache of kernel/bio.c: NBUF buffers on one circular doubly linked list, most
  recently moved first.  Buffer HEAD is the list's sentinel.
 */
module BufferCache {

  const NBUF := 30
  const HEAD := 30

  type Block = seq<int>

  datatype Buf = Buf(dev: nat, blockno: nat, refcnt: nat, valid: bool, data: Block)

  // ----- the circular list

  function Succ(ring: seq<nat>, k: nat): nat
    requires k < |ring|
  {
    if k + 1 < |ring| then ring[k + 1] else ring[0]
  }

  ghost predicate Distinct(ring: seq<nat>) {
    forall j, k :: 0 <= j < k < |ring| ==> ring[j] != ring[k]
  }

  /** The links between position k and the next one, in both directions. */
  ghost predicate LinkedAt(ring: seq<nat>, next: seq<nat>, prev: seq<nat>, k: nat) {
    k < |ring| ==>
      ring[k] < |next| && Succ(ring, k) < |prev| && next[ring[k]] == Succ(ring, k) && prev[Succ(ring, k)] == ring[k]
  }

  ghost predicate Ring(ring: seq<nat>, next: seq<nat>, prev: seq<nat>) {
    && |next| == |prev| == NBUF + 1 && |ring| > 0 && ring[0] == HEAD && Distinct(ring)
    && forall k: nat :: LinkedAt(ring, next, prev, k)
  }

  function Without(ring: seq<nat>, t: nat): seq<nat>
    requires t < |ring|
  {
    ring[..t] + ring[t + 1..]
  }

  /** Unlinking the buffer at position t. */
  lemma Unlinked(ring: seq<nat>, next: seq<nat>, prev: seq<nat>, t: nat)
    requires Ring(ring, next, prev) && 1 <= t < |ring|
    ensures var b := ring[t];
      && b < NBUF + 1 && next[b] < NBUF + 1 && prev[b] < NBUF + 1 && next[b] != b
      && Ring(Without(ring, t), next[prev[b] := next[b]], prev[next[b] := prev[b]])
  {
    var b := ring[t];
    assert LinkedAt(ring, next, prev, t) && LinkedAt(ring, next, prev, t - 1);
    var ring' := Without(ring, t);
    var next', prev' := next[prev[b] := next[b]], prev[next[b] := prev[b]];
    forall j, k | 0 <= j < k < |ring'| ensures ring'[j] != ring'[k] {
      assert ring'[j] == ring[if j < t then j else j + 1] && ring'[k] == ring[if k < t then k else k + 1];
    }
    forall k: nat ensures LinkedAt(ring', next', prev', k) {
      if k < |ring'| {
        assert LinkedAt(ring, next, prev, if k < t then k else k + 1);
        UnlinkedAt(ring, t, k);
      }
    }
  }

  lemma UnlinkedAt(ring: seq<nat>, t: nat, k: nat)
    requires Distinct(ring) && 1 <= t < |ring| && k < |ring| - 1
    ensures var ring' := Without(ring, t); var x := if k < t then k else k + 1;
      && ring'[k] == ring[x] && Succ(ring', k) == (if k == t - 1 then Succ(ring, t) else Succ(ring, x))
      && (k != t - 1 ==> ring[x] != ring[t - 1] && Succ(ring, x) != Succ(ring, t))
  {
    var ring' := Without(ring, t);
    assert ring'[0] == ring[0];
    if k + 1 < |ring'| { assert ring'[k + 1] == ring[if k + 1 < t then k + 1 else k + 2]; }
  }

  /** Linking buffer b in behind the head. */
  lemma Pushed(ring: seq<nat>, next: seq<nat>, prev: seq<nat>, b: nat)
    requires Ring(ring, next, prev) && b < NBUF + 1 && b !in ring
    ensures HEAD < NBUF + 1 && next[HEAD] < NBUF + 1
    ensures Ring([HEAD, b] + ring[1..], next[b := next[HEAD]][HEAD := b], prev[b := HEAD][next[HEAD] := b])
  {
    assert LinkedAt(ring, next, prev, 0);
    var ring' := [HEAD, b] + ring[1..];
    var next', prev' := next[b := next[HEAD]][HEAD := b], prev[b := HEAD][next[HEAD] := b];
    forall j, k | 0 <= j < k < |ring'| ensures ring'[j] != ring'[k] {
      if j > 1 { assert ring'[j] == ring[j - 1]; }
      if k > 1 { assert ring'[k] == ring[k - 1]; }
    }
    forall k: nat ensures LinkedAt(ring', next', prev', k) {
      if 1 < k < |ring'| {
        assert LinkedAt(ring, next, prev, k - 1) && ring'[k] == ring[k - 1];
        assert Succ(ring', k) == Succ(ring, k - 1) && (|ring| > 1 ==> ring[1] != Succ(ring, k - 1));
      }
    }
  }

  // ----- the blocks

  /** A plain block map; what was never stored reads as an empty block. */
  type BlockMap = map<(nat, nat), Block>

  function Stored(m: BlockMap, dev: nat, n: nat): Block {
    if (dev, n) in m then m[(dev, n)] else []
  }

  predicate Holds(buf: Buf, dev: nat, n: nat) { buf.dev == dev && buf.blockno == n }

  ghost predicate UniqueAt(bufs: seq<Buf>, a: nat, b: nat) {
    a < b < |bufs| && bufs[a].dev != 0 ==> !Holds(bufs[a], bufs[b].dev, bufs[b].blockno)
  }

  /** A valid buffer has the last stored contents of its block. */
  ghost predicate BufOk(bufs: seq<Buf>, view: BlockMap, b: nat) {
    b < |bufs| && bufs[b].dev != 0 && bufs[b].valid ==> bufs[b].data == Stored(view, bufs[b].dev, bufs[b].blockno)
  }

  ghost predicate KeptIn(bufs: seq<Buf>, dev: nat, n: nat, b: nat) {
    b < |bufs| && Holds(bufs[b], dev, n) && bufs[b].valid && bufs[b].refcnt > 0
  }

  /** A block whose last stored contents are not on disk is in a buffer that is in use. */
  ghost predicate BlockOk(bufs: seq<Buf>, disk: BlockMap, view: BlockMap, dev: nat, n: nat) {
    dev != 0 ==> Stored(disk, dev, n) == Stored(view, dev, n) || exists b: nat :: KeptIn(bufs, dev, n, b)
  }

  ghost predicate Agree(bufs: seq<Buf>, disk: BlockMap, view: BlockMap) {
    && (forall a: nat, b: nat :: UniqueAt(bufs, a, b))
    && (forall b: nat :: BufOk(bufs, view, b))
    && (forall dev: nat, n: nat :: BlockOk(bufs, disk, view, dev, n))
  }

  /** A change of one buffer that keeps its block, or recycles an unused buffer for a block
      that no buffer holds. */
  lemma AgreeKept(bufs: seq<Buf>, disk: BlockMap, view: BlockMap, disk': BlockMap, view': BlockMap, b: nat, buf: Buf)
    requires Agree(bufs, disk, view) && b < |bufs|
    requires Holds(buf, bufs[b].dev, bufs[b].blockno)
      || (bufs[b].refcnt == 0 && forall a: nat :: NotHeldBy(bufs, buf.dev, buf.blockno, a))
    requires forall dev: nat, n: nat ::
      Holds(buf, dev, n)
      || (Stored(disk', dev, n) == Stored(disk, dev, n) && Stored(view', dev, n) == Stored(view, dev, n))
    requires buf.dev != 0 && buf.valid ==> buf.data == Stored(view', buf.dev, buf.blockno)
    requires buf.dev != 0 ==>
      Stored(disk', buf.dev, buf.blockno) == Stored(view', buf.dev, buf.blockno) || (buf.valid && buf.refcnt > 0)
    ensures Agree(bufs[b := buf], disk', view')
  {
    var bufs' := bufs[b := buf];
    forall x: nat, y: nat ensures UniqueAt(bufs', x, y) {
      assert UniqueAt(bufs, x, y);
      if !Holds(buf, bufs[b].dev, bufs[b].blockno) {
        assert NotHeldBy(bufs, buf.dev, buf.blockno, x) && NotHeldBy(bufs, buf.dev, buf.blockno, y);
      }
    }
    forall x: nat ensures BufOk(bufs', view', x) {
      assert BufOk(bufs, view, x) && UniqueAt(bufs, x, b) && UniqueAt(bufs, b, x);
      if !Holds(buf, bufs[b].dev, bufs[b].blockno) { assert NotHeldBy(bufs, buf.dev, buf.blockno, x); }
    }
    forall dev: nat, n: nat ensures BlockOk(bufs', disk', view', dev, n) {
      assert BlockOk(bufs, disk, view, dev, n);
      if Holds(buf, dev, n) {
        assert buf.valid && buf.refcnt > 0 ==> KeptIn(bufs', dev, n, b);
      } else if dev != 0 && Stored(disk, dev, n) != Stored(view, dev, n) {
        var a: nat :| KeptIn(bufs, dev, n, a);
        assert KeptIn(bufs', dev, n, a);
      }
    }
  }

  ghost predicate NotHeldBy(bufs: seq<Buf>, dev: nat, n: nat, a: nat) {
    a < |bufs| ==> !Holds(bufs[a], dev, n)
  }

  // ----- order of use

  ghost predicate NewerAt(ring: seq<nat>, stamp: seq<nat>, j: nat, k: nat) {
    1 <= j < k < |ring| ==> ring[j] < |stamp| && ring[k] < |stamp| && stamp[ring[j]] > stamp[ring[k]]
  }

  /** The list is in order of the last move to the head, which stamp records. */
  ghost predicate ByUse(ring: seq<nat>, stamp: seq<nat>, clock: nat) {
    && (forall j: nat, k: nat :: NewerAt(ring, stamp, j, k))
    && (forall b: nat :: StampOk(stamp, clock, b))
  }

  ghost predicate StampOk(stamp: seq<nat>, clock: nat, b: nat) { b < |stamp| ==> stamp[b] <= clock }

  /** Every buffer is on the list. */
  ghost predicate OnList(ring: seq<nat>, b: nat) { b < NBUF ==> b in ring }

  ghost predicate IsBuffer(ring: seq<nat>, k: nat) { 1 <= k < |ring| ==> ring[k] < NBUF }

  ghost predicate AllListed(ring: seq<nat>) {
    (forall b: nat :: OnList(ring, b)) && forall k: nat :: IsBuffer(ring, k)
  }

  function ToFront(ring: seq<nat>, t: nat): seq<nat>
    requires 1 <= t < |ring|
  {
    [HEAD, ring[t]] + Without(ring, t)[1..]
  }

  lemma FrontAt(ring: seq<nat>, t: nat, k: nat)
    requires 1 <= t < |ring| && 2 <= k < |ring|
    ensures |ToFront(ring, t)| == |ring| && ToFront(ring, t)[k] == ring[if k - 1 < t then k - 1 else k]
      && ToFront(ring, t)[1] == ring[t]
  {
  }

  lemma FrontListed(ring: seq<nat>, t: nat)
    requires AllListed(ring) && 1 <= t < |ring| && ring[0] == HEAD
    ensures |ToFront(ring, t)| == |ring| && AllListed(ToFront(ring, t))
  {
    var ring' := ToFront(ring, t);
    forall b: nat ensures OnList(ring', b) {
      assert OnList(ring, b);
      if b < NBUF {
        var k :| 0 <= k < |ring| && ring[k] == b;
        if k == t { assert ring'[1] == b; }
        else if k < t { FrontAt(ring, t, k + 1); assert ring'[k + 1] == b; }
        else { FrontAt(ring, t, k); assert ring'[k] == b; }
      }
    }
    forall k: nat ensures IsBuffer(ring', k) {
      assert IsBuffer(ring, t) && IsBuffer(ring, k) && (k >= 1 ==> IsBuffer(ring, k - 1));
      if 2 <= k < |ring| { FrontAt(ring, t, k); }
    }
  }

  lemma FrontByUse(ring: seq<nat>, stamp: seq<nat>, clock: nat, t: nat)
    requires ByUse(ring, stamp, clock) && AllListed(ring) && Distinct(ring) && 1 <= t < |ring| && |stamp| == NBUF
    ensures ring[t] < NBUF && ByUse(ToFront(ring, t), stamp[ring[t] := clock + 1], clock + 1)
  {
    assert IsBuffer(ring, t);
    var ring', stamp', clock' := ToFront(ring, t), stamp[ring[t] := clock + 1], clock + 1;
    forall j: nat, k: nat ensures NewerAt(ring', stamp', j, k) {
      if 1 <= j < k < |ring'| {
        FrontAt(ring, t, k);
        var y := if k - 1 < t then k - 1 else k;
        assert IsBuffer(ring, y) && StampOk(stamp, clock, ring[y]);
        if j > 1 {
          FrontAt(ring, t, j);
          var x := if j - 1 < t then j - 1 else j;
          assert NewerAt(ring, stamp, x, y) && IsBuffer(ring, x);
        }
      }
    }
    forall b: nat ensures StampOk(stamp', clock', b) { assert StampOk(stamp, clock, b); }
  }

  class Cache {
    var bufs: seq<Buf>
    var next: seq<nat>
    var prev: seq<nat>
    var disk: BlockMap
    ghost var ring: seq<nat>      // HEAD, then the buffers from head.next on
    ghost var stamp: seq<nat>     // when each buffer was last moved to the head
    ghost var clock: nat
    ghost var view: BlockMap      // the last stored contents of each block

    ghost predicate ListOk()
      reads this
    {
      |ring| == |bufs| + 1 && |bufs| == |stamp| == NBUF && Ring(ring, next, prev) && AllListed(ring)
        && ByUse(ring, stamp, clock)
    }

    ghost predicate Valid()
      reads this
    {
      ListOk() && Agree(bufs, disk, view)
    }

    /** binit: the buffers, none in use, in one list. */
    constructor (blocks: BlockMap)
      ensures Valid() && disk == view == blocks && forall b :: 0 <= b < NBUF ==> bufs[b].refcnt == 0 && bufs[b].dev == 0
    {
      bufs := seq(NBUF, _ => Buf(0, 0, 0, false, []));
      next, prev := seq(NBUF + 1, _ => HEAD), seq(NBUF + 1, _ => HEAD);
      disk, view := blocks, blocks;
      ring, stamp, clock := [HEAD], seq(NBUF, b => b + 1), NBUF;
      new;
      var b := 0;
      forall k: nat ensures LinkedAt(ring, next, prev, k) { }
      while b < NBUF
        invariant 0 <= b <= NBUF && Ring(ring, next, prev) && |ring| == b + 1
        invariant forall k :: 1 <= k <= b ==> ring[k] == b - k
        invariant bufs == seq(NBUF, _ => Buf(0, 0, 0, false, [])) && disk == view == blocks
        invariant stamp == seq(NBUF, b => b + 1) && clock == NBUF
      {
        Pushed(ring, next, prev, b);
        var first := next[HEAD];
        next := next[b := first];
        prev := prev[b := HEAD];
        prev := prev[first := b];
        next := next[HEAD := b];
        ring := [HEAD, b as nat] + ring[1..];
        b := b + 1;
      }
      forall x: nat ensures OnList(ring, x) { if x < NBUF { assert ring[NBUF - x] == x; } }
      forall k: nat ensures IsBuffer(ring, k) { }
      forall j: nat, k: nat ensures NewerAt(ring, stamp, j, k) { }
      forall x: nat ensures StampOk(stamp, clock, x) { }
      forall x: nat, y: nat ensures UniqueAt(bufs, x, y) { }
      forall x: nat ensures BufOk(bufs, view, x) { }
      forall dev: nat, n: nat ensures BlockOk(bufs, disk, view, dev, n) { }
    }

    /** The buffer is moved to the head of the list. */
    method MoveToHead(b: nat)
      requires ListOk() && b < NBUF
      modifies this`next, this`prev, this`ring, this`stamp, this`clock
      ensures ListOk() && ring[1] == b && clock == old(clock) + 1 && stamp == old(stamp)[b := clock]
    {
      assert OnList(ring, b);
      ghost var t :| 0 <= t < |ring| && ring[t] == b;
      Unlinked(ring, next, prev, t);
      prev := prev[next[b] := prev[b]];
      next := next[prev[b] := next[b]];
      ghost var rest := Without(ring, t);
      NotInRest(ring, t);
      Pushed(rest, next, prev, b);
      var first := next[HEAD];
      next := next[b := first];
      prev := prev[b := HEAD];
      prev := prev[first := b];
      next := next[HEAD := b];
      FrontListed(ring, t);
      FrontByUse(ring, stamp, clock, t);
      ring, stamp, clock := ToFront(ring, t), stamp[b := clock + 1], clock + 1;
    }

    /** bget's first loop: the buffer that holds the block, or HEAD. */
    method Find(dev: nat, n: nat) returns (b: nat)
      requires ListOk()
      ensures b <= NBUF && (b < NBUF ==> Holds(bufs[b], dev, n))
      ensures b == HEAD ==> forall a: nat :: NotHeldBy(bufs, dev, n, a)
    {
      assert LinkedAt(ring, next, prev, 0);
      b := next[HEAD];
      ghost var k := 1;
      while b != HEAD
        invariant 1 <= k <= |ring| && b == (if k < |ring| then ring[k] else HEAD)
        invariant forall j: nat :: 1 <= j < k ==> NotHeldBy(bufs, dev, n, ring[j])
        decreases |ring| - k
      {
        assert IsBuffer(ring, k) && LinkedAt(ring, next, prev, k);
        if Holds(bufs[b], dev, n) {
          return;
        }
        b := next[b];
        k := k + 1;
      }
      forall a: nat ensures NotHeldBy(bufs, dev, n, a) {
        assert OnList(ring, a);
        if a < NBUF {
          var j :| 0 <= j < |ring| && ring[j] == a;
          assert k == |ring| && NotHeldBy(bufs, dev, n, ring[j]);
        }
      }
    }

    /** bget's second loop: the least recently moved buffer that is not in use, or HEAD. */
    method FindUnused() returns (b: nat)
      requires ListOk()
      ensures b <= NBUF && (b < NBUF ==> bufs[b].refcnt == 0 && forall a: nat :: NotOlder(bufs, stamp, b, a))
      ensures b == HEAD ==> forall a: nat :: InUse(bufs, a)
    {
      assert LinkedAt(ring, next, prev, |ring| - 1);
      b := prev[HEAD];
      ghost var k := |ring| - 1;
      while b != HEAD
        invariant 0 <= k < |ring| && b == ring[k]
        invariant forall j: nat :: k < j < |ring| ==> InUse(bufs, ring[j])
        decreases k
      {
        assert IsBuffer(ring, k) && LinkedAt(ring, next, prev, k - 1);
        if bufs[b].refcnt == 0 {
          forall a: nat ensures NotOlder(bufs, stamp, b, a) { OldestAt(bufs, ring, stamp, clock, k, a); }
          return;
        }
        b := prev[b];
        k := k - 1;
      }
      forall a: nat ensures InUse(bufs, a) {
        assert OnList(ring, a);
        if a < NBUF {
          var j :| 0 <= j < |ring| && ring[j] == a;
          assert InUse(bufs, ring[j]);
        }
      }
    }

    /** bget: the buffer of the block, with one more reference; if there is none, the least
        recently moved unused buffer is given to the block.  Panics if all are in use. */
    method Bget(dev: nat, n: nat) returns (b: nat, panicked: bool)
      requires Valid() && dev != 0
      modifies this`bufs
      ensures Valid()
      ensures panicked <==> (forall a: nat :: InUse(old(bufs), a)) && (forall a: nat :: NotHeldBy(old(bufs), dev, n, a))
      ensures panicked ==> bufs == old(bufs)
      ensures !panicked ==>
        b < NBUF && Holds(bufs[b], dev, n) && bufs[b].refcnt == old(bufs)[b].refcnt + 1
        && bufs == old(bufs)[b := bufs[b]]
      ensures !panicked && Holds(old(bufs)[b], dev, n) ==> bufs[b] == old(bufs)[b].(refcnt := bufs[b].refcnt)
      ensures !panicked && !Holds(old(bufs)[b], dev, n) ==>
        && old(bufs)[b].refcnt == 0 && !bufs[b].valid
        && (forall a: nat :: NotOlder(old(bufs), stamp, b, a)) && forall a: nat :: NotHeldBy(old(bufs), dev, n, a)
    {
      b := Find(dev, n);
      if b != HEAD {
        assert BufOk(bufs, view, b) && BlockOk(bufs, disk, view, dev, n);
        StillKept(bufs, disk, view, b);
        AgreeKept(bufs, disk, view, disk, view, b, bufs[b].(refcnt := bufs[b].refcnt + 1));
        bufs := bufs[b := bufs[b].(refcnt := bufs[b].refcnt + 1)];
        assert !NotHeldBy(old(bufs), dev, n, b);
        return b, false;
      }
      b := FindUnused();
      if b == HEAD {
        return b, true;
      }
      assert !InUse(bufs, b) && NotHeldBy(bufs, dev, n, b);
      assert BlockOk(bufs, disk, view, dev, n);
      NotKept(bufs, dev, n);
      AgreeKept(bufs, disk, view, disk, view, b, Buf(dev, n, 1, false, bufs[b].data));
      bufs := bufs[b := Buf(dev, n, 1, false, bufs[b].data)];
      return b, false;
    }

    /** bread: the buffer has the last stored contents of the block. */
    method Bread(dev: nat, n: nat) returns (b: nat, panicked: bool)
      requires Valid() && dev != 0
      modifies this`bufs
      ensures Valid()
      ensures panicked <==> (forall a: nat :: InUse(old(bufs), a)) && (forall a: nat :: NotHeldBy(old(bufs), dev, n, a))
      ensures panicked ==> bufs == old(bufs)
      ensures !panicked ==>
        b < NBUF && Holds(bufs[b], dev, n) && bufs[b].valid && bufs[b].refcnt == old(bufs)[b].refcnt + 1
      ensures !panicked ==> bufs[b].data == Stored(view, dev, n) && bufs == old(bufs)[b := bufs[b]]
    {
      b, panicked := Bget(dev, n);
      if panicked {
        return;
      }
      assert BufOk(bufs, view, b) && BlockOk(bufs, disk, view, dev, n);
      if !bufs[b].valid {
        OnDisk(bufs, disk, view, b);
        AgreeKept(bufs, disk, view, disk, view, b, bufs[b].(valid := true, data := Stored(disk, dev, n)));
        bufs := bufs[b := bufs[b].(valid := true, data := Stored(disk, dev, n))];
      }
    }

    /** The holder of a buffer changes its contents. */
    method Store(b: nat, data: Block)
      requires Valid() && b < NBUF && bufs[b].valid && bufs[b].refcnt > 0 && bufs[b].dev != 0
      modifies this`bufs, this`view
      ensures Valid() && bufs == old(bufs)[b := old(bufs)[b].(data := data)]
        && view == old(view)[(bufs[b].dev, bufs[b].blockno) := data]
    {
      ghost var view' := view[(bufs[b].dev, bufs[b].blockno) := data];
      AgreeKept(bufs, disk, view, disk, view', b, bufs[b].(data := data));
      bufs := bufs[b := bufs[b].(data := data)];
      view := view';
    }

    /** bwrite. */
    method Bwrite(b: nat)
      requires Valid() && b < NBUF && bufs[b].valid && bufs[b].dev != 0
      modifies this`disk
      ensures Valid() && disk == old(disk)[(bufs[b].dev, bufs[b].blockno) := bufs[b].data]
    {
      var disk' := disk[(bufs[b].dev, bufs[b].blockno) := bufs[b].data];
      assert BufOk(bufs, view, b);
      AgreeKept(bufs, disk, view, disk', view, b, bufs[b]);
      assert bufs[b := bufs[b]] == bufs;
      disk := disk';
    }

    /** A buffer may be let go of if it stays in use or its contents are on disk. */
    ghost predicate Releasable(b: nat)
      requires b < |bufs|
      reads this
    {
      bufs[b].refcnt > 1 || bufs[b].dev == 0
        || Stored(disk, bufs[b].dev, bufs[b].blockno) == Stored(view, bufs[b].dev, bufs[b].blockno)
    }

    /** One reference less.  Agreement is kept exactly if the buffer may be let go of. */
    method Drop(b: nat)
      requires Valid() && b < NBUF && bufs[b].refcnt > 0
      modifies this`bufs
      ensures ListOk() && bufs == old(bufs)[b := old(bufs)[b].(refcnt := old(bufs)[b].refcnt - 1)]
      ensures Agree(bufs, disk, view) <==> old(Releasable(b))
    {
      assert BufOk(bufs, view, b) && BlockOk(bufs, disk, view, bufs[b].dev, bufs[b].blockno);
      StillKept(bufs, disk, view, b);
      if bufs[b].refcnt > 1 || bufs[b].dev == 0
        || Stored(disk, bufs[b].dev, bufs[b].blockno) == Stored(view, bufs[b].dev, bufs[b].blockno) {
        AgreeKept(bufs, disk, view, disk, view, b, bufs[b].(refcnt := bufs[b].refcnt - 1));
      } else {
        DroppedIsLost(bufs, disk, view, b);
      }
      bufs := bufs[b := bufs[b].(refcnt := bufs[b].refcnt - 1)];
    }

    /** brelse: the last release moves the buffer to the head. */
    method Brelse(b: nat)
      requires Valid() && b < NBUF && bufs[b].refcnt > 0
      modifies this`bufs, this`next, this`prev, this`ring, this`stamp, this`clock
      ensures ListOk() && bufs == old(bufs)[b := old(bufs)[b].(refcnt := old(bufs)[b].refcnt - 1)]
      ensures Valid() <==> old(Releasable(b))
      ensures if bufs[b].refcnt == 0 then ring[1] == b && stamp == old(stamp)[b := old(clock) + 1]
        else ring == old(ring) && stamp == old(stamp)
    {
      Drop(b);
      if bufs[b].refcnt == 0 {
        MoveToHead(b);
      }
    }

    /** bpin. */
    method Bpin(b: nat)
      requires Valid() && b < NBUF
      modifies this`bufs
      ensures Valid() && bufs == old(bufs)[b := old(bufs)[b].(refcnt := old(bufs)[b].refcnt + 1)]
    {
      assert BufOk(bufs, view, b) && BlockOk(bufs, disk, view, bufs[b].dev, bufs[b].blockno);
      StillKept(bufs, disk, view, b);
      AgreeKept(bufs, disk, view, disk, view, b, bufs[b].(refcnt := bufs[b].refcnt + 1));
      bufs := bufs[b := bufs[b].(refcnt := bufs[b].refcnt + 1)];
    }

    /** bunpin. */
    method Bunpin(b: nat)
      requires Valid() && b < NBUF && bufs[b].refcnt > 0
      modifies this`bufs
      ensures ListOk() && (Valid() <==> old(Releasable(b)))
        && bufs == old(bufs)[b := old(bufs)[b].(refcnt := old(bufs)[b].refcnt - 1)]
    {
      Drop(b);
    }
  }

  /** Buffer a is in use or was moved to the head after b. */
  ghost predicate NotOlder(bufs: seq<Buf>, stamp: seq<nat>, b: nat, a: nat) {
    a < |bufs| && b < |bufs| && |stamp| == |bufs| && bufs[a].refcnt == 0 && a != b ==> stamp[a] > stamp[b]
  }

  ghost predicate InUse(bufs: seq<Buf>, a: nat) { a < |bufs| ==> bufs[a].refcnt > 0 }

  lemma NotInRest(ring: seq<nat>, t: nat)
    requires Distinct(ring) && t < |ring|
    ensures ring[t] !in Without(ring, t)
  {
    var rest := Without(ring, t);
    forall k | 0 <= k < |rest| ensures rest[k] != ring[t] { assert rest[k] == ring[if k < t then k else k + 1]; }
  }

  lemma OldestAt(bufs: seq<Buf>, ring: seq<nat>, stamp: seq<nat>, clock: nat, k: nat, a: nat)
    requires AllListed(ring) && ByUse(ring, stamp, clock) && 1 <= k < |ring| && |bufs| == |stamp| == NBUF
      && ring[k] < NBUF && ring[0] == HEAD
    requires forall j: nat :: k < j < |ring| ==> InUse(bufs, ring[j])
    ensures a < |bufs| && bufs[a].refcnt == 0 && a != ring[k] ==> stamp[a] > stamp[ring[k]]
  {
    assert OnList(ring, a);
    if a < |bufs| && bufs[a].refcnt == 0 && a != ring[k] {
      var j :| 0 <= j < |ring| && ring[j] == a;
      assert NewerAt(ring, stamp, j, k);
    }
  }

  /** If a block is not as stored on disk, its one buffer is valid and in use. */
  lemma StillKept(bufs: seq<Buf>, disk: BlockMap, view: BlockMap, b: nat)
    requires Agree(bufs, disk, view) && b < |bufs|
    ensures
      (bufs[b].dev != 0 && Stored(disk, bufs[b].dev, bufs[b].blockno) != Stored(view, bufs[b].dev, bufs[b].blockno)) ==>
      bufs[b].valid && bufs[b].refcnt > 0
  {
    var dev, n := bufs[b].dev, bufs[b].blockno;
    assert BlockOk(bufs, disk, view, dev, n);
    if dev != 0 && Stored(disk, dev, n) != Stored(view, dev, n) {
      var a: nat :| KeptIn(bufs, dev, n, a);
      assert UniqueAt(bufs, a, b) && UniqueAt(bufs, b, a);
    }
  }

  /** The last reference to a buffer whose contents are not on disk must not go. */
  lemma DroppedIsLost(bufs: seq<Buf>, disk: BlockMap, view: BlockMap, b: nat)
    requires Agree(bufs, disk, view) && b < |bufs| && bufs[b].dev != 0 && bufs[b].refcnt == 1
    requires Stored(disk, bufs[b].dev, bufs[b].blockno) != Stored(view, bufs[b].dev, bufs[b].blockno)
    ensures !Agree(bufs[b := bufs[b].(refcnt := 0)], disk, view)
  {
    var bufs', dev, n := bufs[b := bufs[b].(refcnt := 0)], bufs[b].dev, bufs[b].blockno;
    forall a: nat ensures !KeptIn(bufs', dev, n, a) { assert UniqueAt(bufs, a, b) && UniqueAt(bufs, b, a); }
    assert !BlockOk(bufs', disk, view, dev, n);
  }

  lemma NotKept(bufs: seq<Buf>, dev: nat, n: nat)
    requires forall a: nat :: NotHeldBy(bufs, dev, n, a)
    ensures !exists a: nat :: KeptIn(bufs, dev, n, a)
  {
    forall a: nat ensures !KeptIn(bufs, dev, n, a) { assert NotHeldBy(bufs, dev, n, a); }
  }

  /** A buffer that is not valid has its block on disk. */
  lemma OnDisk(bufs: seq<Buf>, disk: BlockMap, view: BlockMap, b: nat)
    requires Agree(bufs, disk, view) && b < |bufs| && bufs[b].dev != 0 && !bufs[b].valid
    ensures Stored(disk, bufs[b].dev, bufs[b].blockno) == Stored(view, bufs[b].dev, bufs[b].blockno)
  {
    StillKept(bufs, disk, view, b);
  }
}
