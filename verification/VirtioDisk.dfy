/**
  The virtio block driver of kernel/virtio_disk.c and its device, over one split virtqueue
  (section 2.6 of Virtio 1.1; block requests, section 5.2).  Each method is one stretch of
  the driver under vdisk_lock, or one step of the device.
 */
module VirtioDisk {

  const NUM := 8
  const IDX_RANGE := 65536

  type Buf = nat
  type Block = seq<int>

  datatype Addr = Null | Op(i: nat) | Data(b: Buf) | Status(i: nat)

  datatype Desc = Desc(addr: Addr, hasNext: bool, deviceWrites: bool, next: nat)

  /** The first descriptor of a request points to this. */
  datatype BlkReq = BlkReq(write: bool, sector: nat)

  /** Where a request is: in the avail ring at position j, with the device, in the used ring
      at position j, or finished. */
  datatype Phase = Avail(j: nat) | Device | Used(j: nat) | Done

  datatype Req = Req(buf: Buf, write: bool, sector: nat, i1: nat, i2: nat, phase: Phase)

  const EMPTY := Desc(Null, false, false, 0)

  lemma RingPlace(x: nat)
    ensures x % IDX_RANGE % NUM == x % NUM && (x % IDX_RANGE + 1) % IDX_RANGE == (x + 1) % IDX_RANGE
  {
    var q := x / IDX_RANGE;
    assert x == NUM * (8192 * q) + x % IDX_RANGE;
    ModShift(x % IDX_RANGE, 8192 * q);
  }

  lemma ModShift(x: nat, k: nat)
    ensures (NUM * k + x) % NUM == x % NUM
  {
    assert NUM * k + x == NUM * (k + x / NUM) + x % NUM;
  }

  lemma RingDistinct(j: nat, k: nat)
    requires j < k < j + NUM
    ensures j % NUM != k % NUM
  {
  }

  lemma IdxDistance(x: nat, y: nat)
    requires x <= y < x + IDX_RANGE
    ensures x % IDX_RANGE == y % IDX_RANGE <==> x == y
  {
  }

  // ----- requests and their descriptors

  function Chain(h: nat, r: Req): set<nat> { {h, r.i1, r.i2} }

  ghost predicate ChainOk(free: seq<bool>, desc: seq<Desc>, ops: seq<BlkReq>, bufOf: seq<Buf>, h: nat, r: Req) {
    && |free| == |desc| == |ops| == |bufOf| == NUM
    && h < NUM && r.i1 < NUM && r.i2 < NUM && h != r.i1 && h != r.i2 && r.i1 != r.i2
    && !free[h] && !free[r.i1] && !free[r.i2]
    && desc[h] == Desc(Op(h), true, false, r.i1)
    && desc[r.i1] == Desc(Data(r.buf), true, !r.write, r.i2)
    && desc[r.i2] == Desc(Status(h), false, true, 0)
    && ops[h] == BlkReq(r.write, r.sector) && bufOf[h] == r.buf
  }

  ghost predicate ChainAt(free: seq<bool>, desc: seq<Desc>, ops: seq<BlkReq>, bufOf: seq<Buf>, reqs: map<nat, Req>,
      h: nat)
  {
    h in reqs ==> ChainOk(free, desc, ops, bufOf, h, reqs[h])
  }

  /** Two requests share no descriptor and no buffer. */
  ghost predicate ApartAt(reqs: map<nat, Req>, h: nat, g: nat) {
    h in reqs && g in reqs && h != g ==> Chain(h, reqs[h]) !! Chain(g, reqs[g]) && reqs[h].buf != reqs[g].buf
  }

  ghost predicate NotFor(reqs: map<nat, Req>, b: Buf, g: nat) { g in reqs ==> reqs[g].buf != b }

  /** No request for the buffer is under way. */
  ghost predicate Idle(reqs: map<nat, Req>, b: Buf) { forall g: nat :: NotFor(reqs, b, g) }

  /** A descriptor belongs to a request, or is free and empty. */
  ghost predicate InChain(free: seq<bool>, desc: seq<Desc>, reqs: map<nat, Req>, i: nat) {
    i < |free| == |desc| ==> if free[i] then desc[i] == EMPTY else exists h :: h in reqs && i in Chain(h, reqs[h])
  }

  ghost predicate Chains(free: seq<bool>, desc: seq<Desc>, ops: seq<BlkReq>, bufOf: seq<Buf>, reqs: map<nat, Req>) {
    && |free| == |desc| == |ops| == |bufOf| == NUM
    && (forall h: nat :: ChainAt(free, desc, ops, bufOf, reqs, h))
    && (forall h: nat, g: nat :: ApartAt(reqs, h, g))
    && (forall i: nat :: InChain(free, desc, reqs, i))
  }

  /** Three requests would need nine descriptors. */
  lemma AtMostTwo(free: seq<bool>, desc: seq<Desc>, ops: seq<BlkReq>, bufOf: seq<Buf>, reqs: map<nat, Req>)
    requires Chains(free, desc, ops, bufOf, reqs)
    ensures |reqs| <= 2
  {
    if |reqs.Keys| > 2 {
      var a :| a in reqs.Keys;
      assert |reqs.Keys - {a}| == |reqs.Keys| - 1;
      var b :| b in reqs.Keys - {a};
      assert |reqs.Keys - {a} - {b}| > 0;
      var c :| c in reqs.Keys - {a} - {b};
      ThreeChains(free, desc, ops, bufOf, reqs, a, b, c);
    }
    assert |reqs| == |reqs.Keys|;
  }

  lemma ThreeChains(free: seq<bool>, desc: seq<Desc>, ops: seq<BlkReq>, bufOf: seq<Buf>, reqs: map<nat, Req>, a: nat,
      b: nat, c: nat)
    requires Chains(free, desc, ops, bufOf, reqs) && a in reqs && b in reqs && c in reqs
    ensures a == b || b == c || a == c
  {
    assert ChainAt(free, desc, ops, bufOf, reqs, a) && ChainAt(free, desc, ops, bufOf, reqs, b)
      && ChainAt(free, desc, ops, bufOf, reqs, c);
    assert ApartAt(reqs, a, b) && ApartAt(reqs, b, c) && ApartAt(reqs, a, c);
    if a != b && b != c && a != c {
      var all := Chain(a, reqs[a]) + Chain(b, reqs[b]) + Chain(c, reqs[c]);
      assert |Chain(a, reqs[a]) + Chain(b, reqs[b])| == 6;
      assert |all| == 9;
      BelowNum(all, NUM);
    }
  }

  lemma {:induction false} BelowNum(s: set<nat>, n: nat)
    requires forall x :: x in s ==> x < n
    ensures |s| <= n
    decreases n
  {
    if n > 0 { BelowNum(s - {n - 1}, n - 1); } else { assert s == {}; }
  }

  // ----- rings

  ghost predicate PhaseAt(reqs: map<nat, Req>, availed: seq<nat>, took: nat, atDevice: set<nat>, used: seq<nat>,
      handled: nat,
                          inDisk: set<Buf>, status: seq<nat>, h: nat) {
    h in reqs && h < |status| ==>
      && (reqs[h].buf in inDisk <==> reqs[h].phase != Done)
      && (h in atDevice <==> reqs[h].phase == Device)
      && match reqs[h].phase
         case Avail(j) => took <= j < |availed| && availed[j] == h
         case Device => true
         case Used(j) => handled <= j < |used| && used[j] == h
         case Done => true
  }

  /** Entry j of the avail ring, not yet taken, is intact and belongs to a request. */
  ghost predicate AvailAt(reqs: map<nat, Req>, availed: seq<nat>, took: nat, ring: seq<nat>, j: nat) {
    took <= j < |availed| ==>
      |ring| == NUM && availed[j] in reqs && reqs[availed[j]].phase == Avail(j) && ring[j % NUM] == availed[j]
  }

  ghost predicate UsedAt(reqs: map<nat, Req>, used: seq<nat>, handled: nat, ring: seq<nat>, j: nat) {
    handled <= j < |used| ==>
      |ring| == NUM && used[j] in reqs && reqs[used[j]].phase == Used(j) && ring[j % NUM] == used[j]
  }

  ghost predicate RingsOk(reqs: map<nat, Req>, availed: seq<nat>, took: nat, availRing: seq<nat>, atDevice: set<nat>,
                          used: seq<nat>, handled: nat, usedRing: seq<nat>, inDisk: set<Buf>, status: seq<nat>)
  {
    && (forall h: nat :: PhaseAt(reqs, availed, took, atDevice, used, handled, inDisk, status, h))
    && (forall j: nat :: AvailAt(reqs, availed, took, availRing, j))
    && (forall j: nat :: UsedAt(reqs, used, handled, usedRing, j))
    && atDevice <= reqs.Keys
  }

  /** At most two entries of the avail ring wait for the device. */
  lemma AvailFew(free: seq<bool>, desc: seq<Desc>, ops: seq<BlkReq>, bufOf: seq<Buf>, reqs: map<nat, Req>,
      availed: seq<nat>, took: nat, ring: seq<nat>)
    requires Chains(free, desc, ops, bufOf, reqs) && took <= |availed|
      && forall j: nat :: AvailAt(reqs, availed, took, ring, j)
    ensures |availed| <= took + 2
  {
    if |availed| > took + 2 {
      assert AvailAt(reqs, availed, took, ring, took) && AvailAt(reqs, availed, took, ring, took + 1)
        && AvailAt(reqs, availed, took, ring, took + 2);
      ThreeChains(free, desc, ops, bufOf, reqs, availed[took], availed[took + 1], availed[took + 2]);
    }
  }

  lemma UsedFew(free: seq<bool>, desc: seq<Desc>, ops: seq<BlkReq>, bufOf: seq<Buf>, reqs: map<nat, Req>,
      used: seq<nat>, handled: nat, ring: seq<nat>)
    requires Chains(free, desc, ops, bufOf, reqs) && handled <= |used|
      && forall j: nat :: UsedAt(reqs, used, handled, ring, j)
    ensures |used| <= handled + 2
  {
    if |used| > handled + 2 {
      assert UsedAt(reqs, used, handled, ring, handled) && UsedAt(reqs, used, handled, ring, handled + 1)
        && UsedAt(reqs, used, handled, ring, handled + 2);
      ThreeChains(free, desc, ops, bufOf, reqs, used[handled], used[handled + 1], used[handled + 2]);
    }
  }

  /** A request that starts: its descriptors were free. */
  lemma ChainsAdd(free: seq<bool>, desc: seq<Desc>, ops: seq<BlkReq>, bufOf: seq<Buf>, reqs: map<nat, Req>, h: nat,
      r: Req)
    requires Chains(free, desc, ops, bufOf, reqs) && h < NUM && r.i1 < NUM && r.i2 < NUM && h != r.i1 && h != r.i2
      && r.i1 != r.i2
    requires free[h] && free[r.i1] && free[r.i2] && Idle(reqs, r.buf)
    ensures h !in reqs
    ensures var free' := free[h := false][r.i1 := false][r.i2 := false];
      var desc' := desc[h := Desc(Op(h), true, false, r.i1)]
        [r.i1 := Desc(Data(r.buf), true, !r.write, r.i2)][r.i2 := Desc(Status(h), false, true, 0)];
      Chains(free', desc', ops[h := BlkReq(r.write, r.sector)], bufOf[h := r.buf], reqs[h := r])
  {
    var free' := free[h := false][r.i1 := false][r.i2 := false];
    var desc' := desc[h := Desc(Op(h), true, false, r.i1)]
        [r.i1 := Desc(Data(r.buf), true, !r.write, r.i2)][r.i2 := Desc(Status(h), false, true, 0)];
    var ops', bufOf', reqs' := ops[h := BlkReq(r.write, r.sector)], bufOf[h := r.buf], reqs[h := r];
    assert ChainAt(free, desc, ops, bufOf, reqs, h);
    forall g: nat ensures ChainAt(free', desc', ops', bufOf', reqs', g) {
      assert ChainAt(free, desc, ops, bufOf, reqs, g);
    }
    forall g: nat, k: nat ensures ApartAt(reqs', g, k) {
      assert ApartAt(reqs, g, k) && ChainAt(free, desc, ops, bufOf, reqs, g)
        && ChainAt(free, desc, ops, bufOf, reqs, k);
      assert NotFor(reqs, r.buf, g) && NotFor(reqs, r.buf, k);
    }
    forall i: nat ensures InChain(free', desc', reqs', i) {
      assert InChain(free, desc, reqs, i);
      if i < NUM && !free'[i] {
        if i in Chain(h, r) { assert h in reqs' && i in Chain(h, reqs'[h]); }
        else { var g :| g in reqs && i in Chain(g, reqs[g]); assert g in reqs' && i in Chain(g, reqs'[g]); }
      }
    }
  }

  /** A request that ends: its descriptors become free and empty. */
  lemma ChainsRemove(free: seq<bool>, desc: seq<Desc>, ops: seq<BlkReq>, bufOf: seq<Buf>, reqs: map<nat, Req>, h: nat,
      b: Buf)
    requires Chains(free, desc, ops, bufOf, reqs) && h in reqs
    ensures ChainOk(free, desc, ops, bufOf, h, reqs[h])
    ensures var r := reqs[h];
      Chains(free[h := true][r.i1 := true][r.i2 := true], desc[h := EMPTY][r.i1 := EMPTY][r.i2 := EMPTY], ops,
        bufOf[h := b], reqs - {h})
  {
    assert ChainAt(free, desc, ops, bufOf, reqs, h);
    var r := reqs[h];
    var free', desc' := free[h := true][r.i1 := true][r.i2 := true], desc[h := EMPTY][r.i1 := EMPTY][r.i2 := EMPTY];
    var reqs' := reqs - {h};
    var bufOf' := bufOf[h := b];
    forall g: nat ensures ChainAt(free', desc', ops, bufOf', reqs', g) {
      assert ChainAt(free, desc, ops, bufOf, reqs, g) && ApartAt(reqs, h, g);
    }
    forall g: nat, k: nat ensures ApartAt(reqs', g, k) { assert ApartAt(reqs, g, k); }
    forall i: nat ensures InChain(free', desc', reqs', i) {
      assert InChain(free, desc, reqs, i);
      if i < NUM && !free'[i] {
        var g :| g in reqs && i in Chain(g, reqs[g]);
        assert g in reqs' && i in Chain(g, reqs'[g]);
      }
    }
  }

  /** Moving a request to another phase leaves the chains. */
  lemma ChainsPhase(free: seq<bool>, desc: seq<Desc>, ops: seq<BlkReq>, bufOf: seq<Buf>, reqs: map<nat, Req>, h: nat,
      phase: Phase)
    requires Chains(free, desc, ops, bufOf, reqs) && h in reqs
    ensures Chains(free, desc, ops, bufOf, reqs[h := reqs[h].(phase := phase)])
  {
    var reqs' := reqs[h := reqs[h].(phase := phase)];
    forall g: nat ensures ChainAt(free, desc, ops, bufOf, reqs', g) { assert ChainAt(free, desc, ops, bufOf, reqs, g); }
    forall g: nat, k: nat ensures ApartAt(reqs', g, k) { assert ApartAt(reqs, g, k); }
    forall i: nat ensures InChain(free, desc, reqs', i) {
      assert InChain(free, desc, reqs, i);
      if i < NUM && !free[i] {
        var g :| g in reqs && i in Chain(g, reqs[g]);
        assert g in reqs' && i in Chain(g, reqs'[g]);
      }
    }
  }

  class Disk {
    var free: seq<bool>
    var desc: seq<Desc>
    var ops: seq<BlkReq>
    var bufOf: seq<Buf>            // info[].b
    var status: seq<nat>           // info[].status
    var availRing: seq<nat>
    var availIdx: nat              // avail->idx, 16 bits
    var usedRing: seq<nat>
    var usedIdx: nat               // used->idx, 16 bits, the device's
    var seenIdx: nat               // disk.used_idx, 16 bits, the driver's
    var inDisk: set<Buf>           // buffers with b->disk == 1
    var data: map<Buf, Block>      // contents of buffers
    // the device
    var lastAvail: nat             // the next entry of the avail ring to take, 16 bits
    var atDevice: set<nat>         // the heads of the chains it works on
    var sectors: map<nat, Block>
    // the protocol
    ghost var reqs: map<nat, Req>
    ghost var availed: seq<nat>    // the heads ever put in the avail ring
    ghost var took: nat            // how many of them the device has taken
    ghost var used: seq<nat>       // the heads ever put in the used ring
    ghost var handled: nat         // how many of them the driver has handled

    ghost predicate Counters()
      reads this
    {
      && took <= |availed| && handled <= |used| && |status| == |availRing| == |usedRing| == NUM
      && availIdx == |availed| % IDX_RANGE && lastAvail == took % IDX_RANGE
      && usedIdx == |used| % IDX_RANGE && seenIdx == handled % IDX_RANGE
    }

    ghost predicate Valid()
      reads this
    {
      && Chains(free, desc, ops, bufOf, reqs) && Counters()
      && RingsOk(reqs, availed, took, availRing, atDevice, used, handled, usedRing, inDisk, status)
    }

    constructor (store: map<nat, Block>)
      ensures Valid() && reqs == map[] && inDisk == {} && sectors == store
    {
      free, desc := seq(NUM, _ => true), seq(NUM, _ => EMPTY);
      ops, bufOf, status := seq(NUM, _ => BlkReq(false, 0)), seq(NUM, _ => 0), seq(NUM, _ => 0);
      availRing, usedRing := seq(NUM, _ => 0), seq(NUM, _ => 0);
      availIdx, usedIdx, seenIdx, lastAvail := 0, 0, 0, 0;
      inDisk, data, atDevice, sectors := {}, map[], {}, store;
      reqs, availed, took, used, handled := map[], [], 0, [], 0;
    }

    /** alloc_desc: the first free descriptor, or NUM. */
    method AllocDesc() returns (i: nat)
      requires |free| == NUM
      modifies this`free
      ensures i <= NUM && (i == NUM ==> free == old(free) && forall k :: 0 <= k < NUM ==> !free[k])
      ensures i < NUM ==> old(free)[i] && free == old(free)[i := false] && forall k :: 0 <= k < i ==> !old(free)[k]
    {
      i := 0;
      while i < NUM
        invariant 0 <= i <= NUM && free == old(free) && forall k :: 0 <= k < i ==> !free[k]
      {
        if free[i] {
          free := free[i := false];
          return;
        }
        i := i + 1;
      }
    }

    /** free_desc; panics if i is out of range or already free. */
    method FreeDesc(i: nat) returns (panicked: bool)
      requires |free| == |desc| == NUM
      modifies this`free, this`desc
      ensures panicked <==> i >= NUM || old(free)[i]
      ensures !panicked ==> free == old(free)[i := true] && desc == old(desc)[i := EMPTY]
    {
      if i >= NUM || free[i] {
        return true;
      }
      desc := desc[i := EMPTY];
      free := free[i := true];
      return false;
    }

    /** free_chain follows the next fields. */
    method FreeChain(h: nat, ghost r: Req) returns (panicked: bool)
      requires ChainOk(free, desc, ops, bufOf, h, r)
      modifies this`free, this`desc
      ensures !panicked && free == old(free)[h := true][r.i1 := true][r.i2 := true]
      ensures desc == old(desc)[h := EMPTY][r.i1 := EMPTY][r.i2 := EMPTY]
    {
      var i := h;
      ghost var step := 0;
      while true
        invariant 0 <= step <= 2 && i == (if step == 0 then h else if step == 1 then r.i1 else r.i2)
        invariant |free| == |desc| == NUM && !free[i] && desc[i] == old(desc)[i]
        invariant step <= 1 ==> !free[r.i2] && desc[r.i2] == old(desc)[r.i2]
        invariant step == 0 ==> free == old(free) && desc == old(desc)
        invariant step == 1 ==> free == old(free)[h := true] && desc == old(desc)[h := EMPTY]
        invariant step == 2 ==>
          free == old(free)[h := true][r.i1 := true] && desc == old(desc)[h := EMPTY][r.i1 := EMPTY]
        decreases 2 - step
      {
        var more, nxt := desc[i].hasNext, desc[i].next;
        panicked := FreeDesc(i);
        if panicked {
          return;
        }
        if !more {
          return;
        }
        i := nxt;
        step := step + 1;
      }
    }

    /** The failure exit of alloc3_desc. */
    method PutBack(idx: seq<nat>, ghost before: seq<bool>)
      requires |free| == |desc| == NUM && TakenFrom(before, free, idx)
        && forall k :: 0 <= k < NUM && before[k] ==> desc[k] == EMPTY
      modifies this`free, this`desc
      ensures free == before && desc == old(desc)
    {
      var j := 0;
      while j < |idx|
        invariant 0 <= j <= |idx| && |free| == |desc| == NUM && desc == old(desc) && TakenFrom(before, free, idx[j..])
      {
        assert idx[j..][0] == idx[j] && idx[j..][1..] == idx[j + 1..];
        var bad := FreeDesc(idx[j]);
        j := j + 1;
      }
    }

    /** alloc3_desc: three free descriptors, or none taken if there are fewer. */
    method Alloc3() returns (ok: bool, idx: seq<nat>)
      requires |free| == |desc| == NUM && forall k :: 0 <= k < NUM && free[k] ==> desc[k] == EMPTY
      modifies this`free, this`desc
      ensures desc == old(desc)
      ensures !ok ==> free == old(free) && Spare(free) < 3
      ensures ok ==>
        |idx| == 3 && idx[0] < NUM && idx[1] < NUM && idx[2] < NUM && idx[0] != idx[1] && idx[0] != idx[2]
        && idx[1] != idx[2]
      ensures ok ==> old(free)[idx[0]] && old(free)[idx[1]] && old(free)[idx[2]]
      ensures ok ==> free == old(free)[idx[0] := false][idx[1] := false][idx[2] := false]
    {
      idx := [];
      while |idx| < 3
        invariant |idx| <= 3 && |free| == NUM && desc == old(desc) && TakenFrom(old(free), free, idx)
        decreases 3 - |idx|
      {
        var d := AllocDesc();
        if d == NUM {
          NoSpare(old(free), free, idx);
          PutBack(idx, old(free));
          return false, [];
        }
        idx := idx + [d];
      }
      ok := true;
    }

    /** The three descriptors of a request, and what they point to. */
    method Format(idx: seq<nat>, b: Buf, write: bool, sector: nat, ghost free0: seq<bool>, ghost r: Req)
      requires Chains(free0, desc, ops, bufOf, reqs) && |status| == NUM && |idx| == 3 && idx[0] < NUM && idx[1] < NUM
        && idx[2] < NUM
      requires idx[0] != idx[1] && idx[0] != idx[2] && idx[1] != idx[2] && free0[idx[0]] && free0[idx[1]]
        && free0[idx[2]]
      requires free == free0[idx[0] := false][idx[1] := false][idx[2] := false] && Idle(reqs, b)
      requires r.buf == b && r.write == write && r.sector == sector && r.i1 == idx[1] && r.i2 == idx[2]
      modifies this`desc, this`ops, this`bufOf, this`status, this`inDisk
      ensures idx[0] !in reqs && Chains(free, desc, ops, bufOf, reqs[idx[0] := r])
      ensures status == old(status)[idx[0] := 0xff] && inDisk == old(inDisk) + {b}
    {
      ChainsAdd(free0, desc, ops, bufOf, reqs, idx[0], r);
      ops := ops[idx[0] := BlkReq(write, sector)];
      desc := desc[idx[0] := Desc(Op(idx[0]), true, false, idx[1])];
      desc := desc[idx[1] := Desc(Data(b), true, !write, idx[2])];
      status := status[idx[0] := 0xff];
      desc := desc[idx[2] := Desc(Status(idx[0]), false, true, 0)];
      inDisk := inDisk + {b};
      bufOf := bufOf[idx[0] := b];
    }

    /** virtio_disk_rw up to the notification: a request for buffer b, whose holder calls, or
        not ok if there are no descriptors and the caller must sleep. */
    method Submit(b: Buf, write: bool, blockno: nat) returns (ok: bool, h: nat)
      requires Valid() && blockno < 0x8000_0000 && Idle(reqs, b)
      modifies this`free, this`desc, this`ops, this`bufOf, this`status, this`inDisk, this`availRing, this`availIdx,
        this`reqs, this`availed
      ensures Valid()
      ensures !ok ==>
        reqs == old(reqs) && availed == old(availed) && inDisk == old(inDisk) && free == old(free) && Spare(free) < 3
      ensures ok ==> h !in old(reqs) && h in reqs && reqs == old(reqs)[h := reqs[h]] && |reqs| <= 2
      ensures ok ==>
        reqs[h].buf == b && reqs[h].write == write && reqs[h].sector == 2 * blockno
        && reqs[h].phase == Avail(|old(availed)|)
      ensures ok ==> availed == old(availed) + [h] && inDisk == old(inDisk) + {b}
    {
      forall k | 0 <= k < NUM && free[k] ensures desc[k] == EMPTY { assert InChain(free, desc, reqs, k); }
      AvailFew(free, desc, ops, bufOf, reqs, availed, took, availRing);
      var idx;
      ok, idx := Alloc3();
      h := 0;
      if !ok {
        return;
      }
      h := idx[0];
      ghost var r := Req(b, write, 2 * blockno, idx[1], idx[2], Avail(|availed|));
      Format(idx, b, write, blockno * (1024 / 512), old(free), r);
      Publish(h, r, old(inDisk), old(status));
      AtMostTwo(free, desc, ops, bufOf, reqs);
    }

    /** The head of the chain goes into the avail ring. */
    method Publish(h: nat, ghost r: Req, ghost inDisk0: set<Buf>, ghost status0: seq<nat>)
      requires h !in reqs && h < NUM && Chains(free, desc, ops, bufOf, reqs[h := r]) && Counters()
        && |availed| <= took + 2
      requires RingsOk(reqs, availed, took, availRing, atDevice, used, handled, usedRing, inDisk0, status0)
      requires inDisk == inDisk0 + {r.buf} && |status0| == NUM && status == status0[h := 0xff] && Idle(reqs, r.buf)
        && r.phase == Avail(|availed|)
      modifies this`availRing, this`availIdx, this`reqs, this`availed
      ensures Valid() && reqs == old(reqs)[h := r] && availed == old(availed) + [h]
    {
      RingPlace(|availed|);
      SubmitRings(reqs, availed, took, availRing, atDevice, used, handled, usedRing, inDisk0, status0, h, r);
      availRing := availRing[availIdx % NUM := h];
      availIdx := (availIdx + 1) % IDX_RANGE;
      reqs, availed := reqs[h := r], availed + [h];
    }

    /** The device takes the next entry of the avail ring. */
    method DeviceTake() returns (h: nat)
      requires Valid() && lastAvail != availIdx
      modifies this`lastAvail, this`atDevice, this`took, this`reqs
      ensures Valid() && took == old(took) + 1 && h == availed[old(took)] && h in old(reqs)
        && old(reqs)[h].phase == Avail(old(took))
      ensures reqs == old(reqs)[h := old(reqs)[h].(phase := Device)] && atDevice == old(atDevice) + {h}
    {
      AvailFew(free, desc, ops, bufOf, reqs, availed, took, availRing);
      IdxDistance(took, |availed|);
      RingPlace(took);
      assert AvailAt(reqs, availed, took, availRing, took);
      h := availRing[lastAvail % NUM];
      TakeRings(reqs, availed, took, availRing, atDevice, used, handled, usedRing, inDisk, status, h);
      ChainsPhase(free, desc, ops, bufOf, reqs, h, Device);
      lastAvail := (lastAvail + 1) % IDX_RANGE;
      atDevice := atDevice + {h};
      reqs, took := reqs[h := reqs[h].(phase := Device)], took + 1;
    }

    /** The device works off the chain at h: it reads the request, moves the data, stores the
        status and puts the head in the used ring.  With status 0 the effect is that of the
        request; otherwise the device leaves junk where it should have stored the data. */
    method DeviceComplete(h: nat, result: nat, junk: Block)
      requires Valid() && h in atDevice
      modifies this`data, this`sectors, this`status, this`usedRing, this`usedIdx, this`atDevice, this`reqs, this`used
      ensures Valid() && h in old(reqs) && used == old(used) + [h] && atDevice == old(atDevice) - {h}
      ensures reqs == old(reqs)[h := old(reqs)[h].(phase := Used(|old(used)|))] && inDisk == old(inDisk)
      ensures h < NUM && status == old(status)[h := result]
      ensures old(reqs)[h].write ==>
        && data == old(data)
        && sectors ==
           old(sectors)[old(reqs)[h].sector := if result == 0 then Contents(data, old(reqs)[h].buf) else junk]
      ensures !old(reqs)[h].write ==>
        && sectors == old(sectors)
        && data == old(data)[old(reqs)[h].buf := if result == 0 then Contents(sectors, old(reqs)[h].sector) else junk]
    {
      assert ChainAt(free, desc, ops, bufOf, reqs, h);
      var d0 := desc[h];
      var req := ops[d0.addr.i];
      var d1 := desc[d0.next];
      if d1.deviceWrites {
        data := data[d1.addr.b := if result == 0 then Contents(sectors, req.sector) else junk];
      } else {
        sectors := sectors[req.sector := if result == 0 then Contents(data, d1.addr.b) else junk];
      }
      var d2 := desc[d1.next];
      PutUsed(h, d2.addr.i, result);
    }

    method PutUsed(h: nat, i: nat, result: nat)
      requires Valid() && h in atDevice && i == h
      modifies this`status, this`usedRing, this`usedIdx, this`atDevice, this`reqs, this`used
      ensures Valid() && h in old(reqs) && used == old(used) + [h] && atDevice == old(atDevice) - {h}
      ensures reqs == old(reqs)[h := old(reqs)[h].(phase := Used(|old(used)|))] && h < NUM
        && status == old(status)[h := result]
    {
      assert ChainAt(free, desc, ops, bufOf, reqs, h);
      UsedFew(free, desc, ops, bufOf, reqs, used, handled, usedRing);
      RingPlace(|used|);
      UseRings(reqs, availed, took, availRing, atDevice, used, handled, usedRing, inDisk, status, h, result);
      ChainsPhase(free, desc, ops, bufOf, reqs, h, Used(|used|));
      status := status[i := result];
      usedRing := usedRing[usedIdx % NUM := h];
      usedIdx := (usedIdx + 1) % IDX_RANGE;
      atDevice := atDevice - {h};
      reqs, used := reqs[h := reqs[h].(phase := Used(|used|))], used + [h];
    }

    /** One round of virtio_disk_intr's loop: the buffer of that request is marked, unless
        the device reported a failure. */
    method HandleOne() returns (panicked: bool)
      requires Valid() && seenIdx != usedIdx
      modifies this`inDisk, this`seenIdx, this`reqs, this`handled
      ensures Valid() && old(handled) < |used| && used[old(handled)] < NUM
        && (panicked <==> status[used[old(handled)]] != 0)
      ensures panicked ==> unchanged(this)
      ensures !panicked ==>
        var h := used[old(handled)];
        && h in old(reqs) && old(reqs)[h].phase == Used(old(handled)) && handled == old(handled) + 1
        && reqs == old(reqs)[h := old(reqs)[h].(phase := Done)] && inDisk == old(inDisk) - {old(reqs)[h].buf}
    {
      UsedFew(free, desc, ops, bufOf, reqs, used, handled, usedRing);
      IdxDistance(handled, |used|);
      RingPlace(handled);
      assert UsedAt(reqs, used, handled, usedRing, handled);
      var id := usedRing[seenIdx % NUM];
      assert ChainAt(free, desc, ops, bufOf, reqs, id);
      if status[id] != 0 {
        return true;
      }
      DoneRings(free, desc, ops, bufOf, reqs, availed, took, availRing, atDevice, used, handled, usedRing, inDisk,
        status, id);
      ChainsPhase(free, desc, ops, bufOf, reqs, id, Done);
      inDisk := inDisk - {bufOf[id]};
      seenIdx := (seenIdx + 1) % IDX_RANGE;
      reqs, handled := reqs[id := reqs[id].(phase := Done)], handled + 1;
      return false;
    }

    /** virtio_disk_intr: all completions so far are handled, or those before the first one
        that reports a failure, at which it panics. */
    method Intr() returns (panicked: bool)
      requires Valid()
      modifies this`inDisk, this`seenIdx, this`reqs, this`handled
      ensures Valid() && old(handled) <= handled <= |used| && inDisk <= old(inDisk)
      ensures forall j: nat :: old(handled) <= j < handled ==> !Failed(used, status, j)
      ensures if panicked then Failed(used, status, handled) else handled == |used|
      ensures forall h: nat :: AfterIntr(old(reqs), reqs, handled, h)
    {
      panicked := false;
      forall h: nat ensures AfterIntr(reqs, reqs, handled, h) {
        assert PhaseAt(reqs, availed, took, atDevice, used, handled, inDisk, status, h)
          && ChainAt(free, desc, ops, bufOf, reqs, h);
      }
      while seenIdx != usedIdx
        invariant Valid() && !panicked && inDisk <= old(inDisk) && old(handled) <= handled
        invariant forall h: nat :: AfterIntr(old(reqs), reqs, handled, h)
        invariant forall j: nat :: old(handled) <= j < handled ==> !Failed(used, status, j)
        decreases |used| - handled
      {
        ghost var reqs1, handled1 := reqs, handled;
        forall h: nat | h in reqs && reqs[h].phase == Used(handled) ensures handled < |used| && h == used[handled] {
          assert PhaseAt(reqs, availed, took, atDevice, used, handled, inDisk, status, h)
            && ChainAt(free, desc, ops, bufOf, reqs, h);
        }
        panicked := HandleOne();
        if panicked {
          return;
        }
        forall h: nat ensures AfterIntr(old(reqs), reqs, handled, h) {
          assert AfterIntr(old(reqs), reqs1, handled1, h);
        }
      }
      UsedFew(free, desc, ops, bufOf, reqs, used, handled, usedRing);
      IdxDistance(handled, |used|);
    }

    /** The end of virtio_disk_rw, once b->disk is 0: exactly the chain becomes free. */
    method Finish(h: nat) returns (panicked: bool)
      requires Valid() && h in reqs && reqs[h].buf !in inDisk
      modifies this`free, this`desc, this`bufOf, this`reqs
      ensures Valid() && !panicked && reqs == old(reqs) - {h}
      ensures forall i :: 0 <= i < NUM ==> (free[i] <==> old(free)[i] || i in Chain(h, old(reqs)[h]))
    {
      ghost var r := reqs[h];
      ChainsRemove(free, desc, ops, bufOf, reqs, h, 0);
      FinishRings(reqs, availed, took, availRing, atDevice, used, handled, usedRing, inDisk, status, h);
      panicked := FreeChain(h, r);
      bufOf := bufOf[h := 0];
      reqs := reqs - {h};
    }
  }

  /** The descriptors in idx, all different and free before, are taken. */
  ghost predicate TakenFrom(before: seq<bool>, after: seq<bool>, idx: seq<nat>) {
    && |before| == |after| == NUM
    && (forall j :: 0 <= j < |idx| ==> idx[j] < NUM && before[idx[j]])
    && (forall j, k :: 0 <= j < k < |idx| ==> idx[j] != idx[k])
    && forall k :: 0 <= k < NUM ==> (after[k] <==> before[k] && k !in idx)
  }

  /** The number of free descriptors. */
  function Spare(free: seq<bool>): nat {
    if free == [] then 0 else Spare(free[..|free| - 1]) + (if free[|free| - 1] then 1 else 0)
  }

  lemma {:induction false} SpareTake(free: seq<bool>, k: nat)
    requires k < |free| && free[k]
    ensures Spare(free) == Spare(free[k := false]) + 1
  {
    var n := |free| - 1;
    if k < n {
      SpareTake(free[..n], k);
      assert free[k := false][..n] == free[..n][k := false];
    } else {
      assert free[k := false][..n] == free[..n];
    }
  }

  lemma {:induction false} SpareNone(free: seq<bool>)
    requires forall k :: 0 <= k < |free| ==> !free[k]
    ensures Spare(free) == 0
  {
    if free != [] { SpareNone(free[..|free| - 1]); }
  }

  /** Nothing is left after the descriptors in idx are taken: there were just that many. */
  lemma {:induction false} NoSpare(before: seq<bool>, after: seq<bool>, idx: seq<nat>)
    requires TakenFrom(before, after, idx) && forall k :: 0 <= k < NUM ==> !after[k]
    ensures Spare(before) == |idx|
    decreases |idx|
  {
    if idx == [] {
      SpareNone(before);
    } else {
      SpareTake(before, idx[0]);
      var mid := before[idx[0] := false];
      assert TakenFrom(mid, after, idx[1..]) by {
        forall k | 0 <= k < NUM ensures after[k] <==> mid[k] && k !in idx[1..] { }
      }
      NoSpare(mid, after, idx[1..]);
    }
  }

  function Contents(m: map<nat, Block>, k: nat): Block {
    if k in m then m[k] else []
  }

  /** Entry j of the used ring reports a failure. */
  ghost predicate Failed(used: seq<nat>, status: seq<nat>, j: nat) {
    j < |used| && used[j] < |status| && status[used[j]] != 0
  }

  /** Requests in the used ring before position `handled` are done, and the others as before. */
  ghost predicate AfterIntr(reqs: map<nat, Req>, reqs': map<nat, Req>, handled: nat, h: nat) {
    && (h in reqs' <==> h in reqs)
    && (h in reqs ==>
        reqs'[h] == if reqs[h].phase.Used? && reqs[h].phase.j < handled then reqs[h].(phase := Done) else reqs[h])
  }

  lemma SubmitRings(reqs: map<nat, Req>, availed: seq<nat>, took: nat, ring: seq<nat>, atDevice: set<nat>,
                    used: seq<nat>, handled: nat, usedRing: seq<nat>, inDisk: set<Buf>, status: seq<nat>, h: nat,
                    r: Req)
    requires RingsOk(reqs, availed, took, ring, atDevice, used, handled, usedRing, inDisk, status) && Idle(reqs, r.buf)
    requires h !in reqs && h < NUM && r.phase == Avail(|availed|) && took <= |availed| <= took + 2
      && |ring| == |status| == NUM
    ensures RingsOk(reqs[h := r], availed + [h], took, ring[|availed| % NUM := h], atDevice, used, handled, usedRing,
      inDisk + {r.buf}, status[h := 0xff])
  {
    var reqs', availed', inDisk', status', ring' :=
      reqs[h := r], availed + [h], inDisk + {r.buf}, status[h := 0xff], ring[|availed| % NUM := h];
    forall g: nat ensures PhaseAt(reqs', availed', took, atDevice, used, handled, inDisk', status', g) {
      assert PhaseAt(reqs, availed, took, atDevice, used, handled, inDisk, status, g) && NotFor(reqs, r.buf, g);
    }
    forall j: nat ensures AvailAt(reqs', availed', took, ring', j) {
      assert AvailAt(reqs, availed, took, ring, j);
      if took <= j < |availed| { RingDistinct(j, |availed|); }
    }
    forall j: nat ensures UsedAt(reqs', used, handled, usedRing, j) { assert UsedAt(reqs, used, handled, usedRing, j); }
  }

  lemma TakeRings(reqs: map<nat, Req>, availed: seq<nat>, took: nat, ring: seq<nat>, atDevice: set<nat>,
                  used: seq<nat>, handled: nat, usedRing: seq<nat>, inDisk: set<Buf>, status: seq<nat>, h: nat)
    requires RingsOk(reqs, availed, took, ring, atDevice, used, handled, usedRing, inDisk, status) && |status| == NUM
    requires took < |availed| && h == availed[took] && h in reqs && reqs[h].phase == Avail(took)
    ensures RingsOk(reqs[h := reqs[h].(phase := Device)], availed, took + 1, ring, atDevice + {h}, used, handled,
      usedRing, inDisk, status)
  {
    var reqs', took', atDevice' := reqs[h := reqs[h].(phase := Device)], took + 1, atDevice + {h};
    forall g: nat ensures PhaseAt(reqs', availed, took', atDevice', used, handled, inDisk, status, g) {
      assert PhaseAt(reqs, availed, took, atDevice, used, handled, inDisk, status, g);
    }
    forall j: nat ensures AvailAt(reqs', availed, took', ring, j) { assert AvailAt(reqs, availed, took, ring, j); }
    forall j: nat ensures UsedAt(reqs', used, handled, usedRing, j) { assert UsedAt(reqs, used, handled, usedRing, j); }
  }

  lemma UseRings(reqs: map<nat, Req>, availed: seq<nat>, took: nat, ring: seq<nat>, atDevice: set<nat>,
                 used: seq<nat>, handled: nat, usedRing: seq<nat>, inDisk: set<Buf>, status: seq<nat>, h: nat,
                 result: nat)
    requires RingsOk(reqs, availed, took, ring, atDevice, used, handled, usedRing, inDisk, status)
      && |status| == |usedRing| == NUM
    requires h in atDevice && h in reqs && h < NUM && handled <= |used| <= handled + 2
    ensures RingsOk(reqs[h := reqs[h].(phase := Used(|used|))], availed, took, ring, atDevice - {h}, used + [h],
      handled, usedRing[|used| % NUM := h], inDisk, status[h := result])
  {
    var reqs', atDevice', used', usedRing', status' :=
      reqs[h := reqs[h].(phase := Used(|used|))], atDevice - {h}, used + [h], usedRing[|used| % NUM := h],
      status[h := result];
    assert PhaseAt(reqs, availed, took, atDevice, used, handled, inDisk, status, h);
    forall g: nat ensures PhaseAt(reqs', availed, took, atDevice', used', handled, inDisk, status', g) {
      assert PhaseAt(reqs, availed, took, atDevice, used, handled, inDisk, status, g);
    }
    forall j: nat ensures AvailAt(reqs', availed, took, ring, j) { assert AvailAt(reqs, availed, took, ring, j); }
    forall j: nat ensures UsedAt(reqs', used', handled, usedRing', j) {
      assert UsedAt(reqs, used, handled, usedRing, j);
      if handled <= j < |used| { RingDistinct(j, |used|); }
    }
  }

  lemma DoneRings(free: seq<bool>, desc: seq<Desc>, ops: seq<BlkReq>, bufOf: seq<Buf>, reqs: map<nat, Req>,
      availed: seq<nat>, took: nat, ring: seq<nat>,
                  atDevice: set<nat>, used: seq<nat>, handled: nat, usedRing: seq<nat>, inDisk: set<Buf>,
                  status: seq<nat>, h: nat)
    requires Chains(free, desc, ops, bufOf, reqs)
    requires RingsOk(reqs, availed, took, ring, atDevice, used, handled, usedRing, inDisk, status) && |status| == NUM
    requires handled < |used| && h == used[handled] && h in reqs && reqs[h].phase == Used(handled)
    ensures RingsOk(reqs[h := reqs[h].(phase := Done)], availed, took, ring, atDevice, used, handled + 1, usedRing,
      inDisk - {reqs[h].buf}, status)
  {
    var reqs', handled', inDisk' := reqs[h := reqs[h].(phase := Done)], handled + 1, inDisk - {reqs[h].buf};
    forall g: nat ensures PhaseAt(reqs', availed, took, atDevice, used, handled', inDisk', status, g) {
      assert PhaseAt(reqs, availed, took, atDevice, used, handled, inDisk, status, g) && ApartAt(reqs, h, g);
    }
    forall j: nat ensures AvailAt(reqs', availed, took, ring, j) { assert AvailAt(reqs, availed, took, ring, j); }
    forall j: nat ensures UsedAt(reqs', used, handled', usedRing, j) {
      assert UsedAt(reqs, used, handled, usedRing, j);
    }
  }

  lemma FinishRings(reqs: map<nat, Req>, availed: seq<nat>, took: nat, ring: seq<nat>, atDevice: set<nat>,
                    used: seq<nat>, handled: nat, usedRing: seq<nat>, inDisk: set<Buf>, status: seq<nat>, h: nat)
    requires RingsOk(reqs, availed, took, ring, atDevice, used, handled, usedRing, inDisk, status) && h in reqs
      && reqs[h].buf !in inDisk && h < |status|
    ensures RingsOk(reqs - {h}, availed, took, ring, atDevice, used, handled, usedRing, inDisk, status)
  {
    var reqs' := reqs - {h};
    assert PhaseAt(reqs, availed, took, atDevice, used, handled, inDisk, status, h);
    forall g: nat ensures PhaseAt(reqs', availed, took, atDevice, used, handled, inDisk, status, g) {
      assert PhaseAt(reqs, availed, took, atDevice, used, handled, inDisk, status, g);
    }
    forall j: nat ensures AvailAt(reqs', availed, took, ring, j) { assert AvailAt(reqs, availed, took, ring, j); }
    forall j: nat ensures UsedAt(reqs', used, handled, usedRing, j) { assert UsedAt(reqs, used, handled, usedRing, j); }
  }
}
