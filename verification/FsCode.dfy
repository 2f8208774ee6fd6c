/**
  The inode layer of kernel/fs.c as code: balloc, bfree, bmap, itrunc, readi, writei,
  and filewrite's chunking from kernel/file.c.
 */
module FsCode {
  import opened FsLayout
  import opened FreeMap

  class FileSystem {
    const g: Geometry
    var blocks: seq<Block>     // cached contents of all blocks, among them the bitmap
    var inodes: seq<Inode>     // in-memory copies
    var dinodes: seq<Inode>    // the on-disk inode table
    var logged: set<nat>       // blocks passed to log_write in this transaction
    ghost var bitmap: seq<bool>   // what the bitmap blocks stand for
    ghost var data: seq<Block>    // the data blocks
    ghost var own: Owners

    ghost function Disk(): Fs
      reads this
    {
      Fs(bitmap, data, inodes)
    }

    /** The blocks stand for the bitmap and the data. */
    ghost predicate Sync()
      reads this
    {
      |blocks| == g.size && Tied(g, blocks, bitmap, data, |blocks|)
    }

    ghost predicate Good()
      reads this
    {
      Owned(g, Disk(), own, {}) && Sync()
    }

    ghost predicate Valid()
      reads this
    {
      && Good()
      && |dinodes| == |inodes|
      && forall i: nat :: Dense(g, Disk(), i)
    }

    /** A disk without files: only the metadata blocks are in use. */
    constructor (geometry: Geometry, ninodes: nat)
      requires geometry.bmapStart + BitmapBlocks(geometry) <= geometry.dataStart <= geometry.size < 0x1_0000_0000
        && geometry.dataStart > 0
      ensures Valid() && g == geometry && |inodes| == ninodes && own == map[] && logged == {}
      ensures bitmap == seq(g.size, b => b < g.dataStart) && data == seq(g.size, _ => Zeros(BSIZE))
      ensures inodes == seq(ninodes, _ => Inode(0, 0, 0, NoAddrs())) == dinodes
      ensures forall i :: 0 <= i < ninodes ==> Contents(g, Disk(), i) == []
    {
      g := geometry;
      blocks := seq(geometry.size, _ => Zeros(BSIZE));
      inodes := seq(ninodes, _ => Inode(0, 0, 0, NoAddrs()));
      dinodes := seq(ninodes, _ => Inode(0, 0, 0, NoAddrs()));
      logged := {};
      bitmap, data, own := seq(geometry.size, _ => false), seq(geometry.size, _ => Zeros(BSIZE)), map[];
      new;
      forall b | 0 <= b < g.size ensures !Used(g, blocks, b) { NoBits(b % BPB % 8); }
      assert BitmapOf(g, blocks) == bitmap && DataOf(g, blocks) == data;
      TiedIs(g, blocks, bitmap, data, |blocks|);
      for b := 0 to g.dataStart
        invariant Sync() && bitmap == seq(g.size, x => x < b) && data == seq(g.size, _ => Zeros(BSIZE))
        invariant inodes == seq(ninodes, _ => Inode(0, 0, 0, NoAddrs())) == dinodes && logged == {} && own == map[]
      {
        ChangeBit(b, true);
      }
    }

    /** The bit of block b is set or cleared. */
    method ChangeBit(b: nat, on: bool)
      requires Sync() && b < g.size
      modifies this`blocks, this`bitmap
      ensures Sync() && |bitmap| == |old(bitmap)| == g.size && bitmap == old(bitmap)[b := on]
      ensures BBlock(b) < |blocks| && blocks == old(blocks)[BBlock(b) := blocks[BBlock(b)]]
    {
      TiedBit(g, blocks, bitmap, data, |blocks|, b);
      var bi := b % BPB;
      var row: Block := blocks[BBlock(b)];
      row := row[bi / 8 := if on then SetBit(row[bi / 8], bi % 8) else ClearBit(row[bi / 8], bi % 8)];
      TiedMark(g, blocks, bitmap, data, |blocks|, b, on, row);
      blocks := blocks[BBlock(b) := row];
      bitmap := bitmap[b := on];
    }

    /** Data block a is stored. */
    method StoreBlock(a: nat, v: Block)
      requires Sync() && g.dataStart <= a < g.size && |v| == BSIZE
      modifies this`blocks, this`data
      ensures Sync() && |data| == |old(data)| == g.size && data == old(data)[a := v] && blocks == old(blocks)[a := v]
    {
      TiedStore(g, blocks, bitmap, data, |blocks|, a, v);
      blocks := blocks[a := v];
      data := data[a := v];
    }

    /** Data block a is read. */
    method ReadBlock(a: nat) returns (v: Block)
      requires Sync() && g.dataStart <= a < g.size
      ensures |data| == |blocks| == g.size && v == data[a] == blocks[a] && |v| == BSIZE
    {
      TiedData(g, blocks, bitmap, data, |blocks|, a);
      v := blocks[a];
    }

    function BBlock(b: nat): nat { BitBlock(g, b) }

    function IBlock(i: nat): nat { InodeBlock(g, i) }

    /** What the code has stored since, with which log. */
    ghost predicate LoggedSince(blocks0: seq<Block>, log0: set<nat>)
      reads this
    {
      LoggedBut(blocks0, blocks, log0, logged, {})
    }

    // ----- blocks

    /** balloc: the first free block, marked and zeroed; 0 if there is none. */
    method Balloc() returns (r: nat)
      requires Shape(g, Disk()) && Sync() && forall b: nat :: MetaUsed(g, bitmap, b)
      modifies this`blocks, this`bitmap, this`data, this`logged
      ensures Sync() && LoggedSince(old(blocks), old(logged))
      ensures r == 0 ==> Disk() == old(Disk()) && blocks == old(blocks) && logged == old(logged) && Full()
      ensures r != 0 ==> g.dataStart <= r < g.size && !old(bitmap)[r] && UsedTo(old(bitmap), r)
      ensures r != 0 ==> Disk() == Alloc(old(Disk()), r) && logged == old(logged) + {BBlock(r), r}
    {
      var b := 0;
      while b < g.size
        invariant 0 <= b && b % BPB == 0
        invariant unchanged(this) && UsedTo(bitmap, b)
        decreases g.size - b
      {
        var bi := 0;
        while bi < BPB && b + bi < g.size
          invariant 0 <= bi <= BPB
          invariant unchanged(this) && UsedTo(bitmap, b + bi)
        {
          BitOfPair(g, b, bi);
          TiedBit(g, blocks, bitmap, data, |blocks|, b + bi);
          assert MetaUsed(g, bitmap, b + bi);
          if !Bit(blocks[BBlock(b)][bi / 8], bi % 8) {
            TakeBlock(b + bi);
            return b + bi;
          }
          UsedOneMore(bitmap, b + bi);
          bi := bi + 1;
        }
        UsedToEnd(g, bitmap, b + bi, b + BPB);
        b := b + BPB;
      }
      UsedToEnd(g, bitmap, b, g.size);
      return 0;
    }

    /** The part of balloc that changes the disk. */
    method TakeBlock(b: nat)
      requires Shape(g, Disk()) && Sync() && g.dataStart <= b < g.size
      modifies this`blocks, this`bitmap, this`data, this`logged
      ensures Sync() && Disk() == Alloc(old(Disk()), b) && logged == old(logged) + {BBlock(b), b}
      ensures LoggedSince(old(blocks), old(logged))
    {
      ChangeBit(b, true);
      logged := logged + {BBlock(b)};
      StoreBlock(b, Zeros(BSIZE));
      logged := logged + {b};
    }

    /** bfree: false stands for the "freeing free block" panic. */
    method Bfree(b: nat) returns (ok: bool)
      requires Sync() && b < g.size
      modifies this`blocks, this`bitmap, this`logged
      ensures Sync() && |bitmap| == |old(bitmap)| == g.size && bitmap == old(bitmap)[b := false]
        && (ok <==> old(bitmap)[b])
      ensures logged == (if ok then old(logged) + {BBlock(b)} else old(logged)) && LoggedSince(old(blocks), old(logged))
    {
      TiedBit(g, blocks, bitmap, data, |blocks|, b);
      var bi := b % BPB;
      if !Bit(blocks[BBlock(b)][bi / 8], bi % 8) {
        assert bitmap[b := false] == bitmap;
        return false;
      }
      ChangeBit(b, false);
      logged := logged + {BBlock(b)};
      return true;
    }

    /** iupdate: copy the in-memory inode to disk. */
    method Iupdate(i: nat)
      requires i < |inodes| == |dinodes|
      modifies this`dinodes, this`logged
      ensures dinodes == old(dinodes)[i := inodes[i]] && logged == old(logged) + {IBlock(i)}
    {
      dinodes := dinodes[i := inodes[i]];
      logged := logged + {IBlock(i)};
    }

    /** The set holding address a, unless a is 0. */
    static function NZ(a: nat): set<nat> {
      if a == 0 then {} else {a}
    }

    // ----- bmap

    /** Every block is in use. */
    ghost predicate Full()
      reads this
    {
      AllUsed(g, bitmap)
    }

    ghost predicate Same(blocks0: seq<Block>, disk0: Fs, log0: set<nat>)
      reads this
    {
      blocks == blocks0 && Disk() == disk0 && logged == log0
    }

    /** Allocate a block and store it in an empty slot of the inode itself. */
    method ClaimAddr(i: nat, k: nat) returns (addr: nat)
      requires Good() && i < |inodes| && k <= NDIRECT && inodes[i].addrs[k] == 0
      modifies this`blocks, this`bitmap, this`data, this`inodes, this`logged, this`own
      ensures Good() && SameBytes(g, old(Disk()), Disk()) && LoggedSince(old(blocks), old(logged))
      ensures addr == 0 ==> Same(old(blocks), old(Disk()), old(logged)) && own == old(own) && Full()
      ensures addr != 0 ==>
        addr < g.size && Gains(g, old(Disk()), Disk(), i, k, addr) && logged == old(logged) + {BBlock(addr), addr}
      ensures addr != 0 ==> inodes == old(inodes)[i := old(inodes)[i].(addrs := old(inodes)[i].addrs[k := addr])]
    {
      forall b: nat ensures MetaUsed(g, bitmap, b) { assert MarkedBlock(g, Disk(), own, {}, b); }
      addr := Balloc();
      if addr != 0 {
        ClaimAddrKeeps(g, old(Disk()), own, i, k, addr);
        inodes := inodes[i := inodes[i].(addrs := inodes[i].addrs[k := addr])];
        own := own[addr := Slot(i, k)];
      }
    }

    /** Allocate a block and store it in an empty word of the inode's indirect block. */
    method ClaimWord(i: nat, j: nat) returns (addr: nat)
      requires Good() && i < |inodes| && j < NINDIRECT
      requires inodes[i].addrs[NDIRECT] != 0 && Ref(g, Disk(), i, NDIRECT + 1 + j) == 0
      modifies this`blocks, this`bitmap, this`data, this`logged, this`own
      ensures Good() && SameBytes(g, old(Disk()), Disk()) && LoggedSince(old(blocks), old(logged))
      ensures addr == 0 ==> Same(old(blocks), old(Disk()), old(logged)) && own == old(own) && Full()
      ensures addr != 0 ==> addr < g.size && Gains(g, old(Disk()), Disk(), i, NDIRECT + 1 + j, addr)
      ensures addr != 0 ==> logged == old(logged) + {BBlock(addr), addr, inodes[i].addrs[NDIRECT]}
    {
      var ind := inodes[i].addrs[NDIRECT];
      assert OwningSlot(g, Disk(), own, i, NDIRECT) && OwnedBlock(g, Disk(), own, ind);
      forall b: nat ensures MetaUsed(g, bitmap, b) { assert MarkedBlock(g, Disk(), own, {}, b); }
      addr := Balloc();
      if addr != 0 {
        ClaimWordKeeps(g, old(Disk()), own, i, j, addr);
        ghost var blocks1, log1 := blocks, logged;
        PutAddr(ind, j, addr);
        LoggedThen(old(blocks), blocks1, blocks, old(logged), log1, logged, {});
        own := own[addr := Slot(i, NDIRECT + 1 + j)];
      }
    }

    /** Address addr goes to word j of block ind, which is logged. */
    method PutAddr(ind: nat, j: nat, addr: nat)
      requires Sync() && g.dataStart <= ind < g.size && j < NINDIRECT && addr < 0x1_0000_0000
      modifies this`blocks, this`data, this`logged
      ensures Sync() && |data| == |old(data)| == g.size && |old(data)[ind]| == BSIZE
      ensures data == old(data)[ind := PutWord(old(data)[ind], j, addr)] && logged == old(logged) + {ind}
      ensures LoggedSince(old(blocks), old(logged))
    {
      var a := ReadBlock(ind);
      StoreBlock(ind, PutWord(a, j, addr));
      logged := logged + {ind};
    }

    predicate IsBitmapBlock(x: nat) {
      g.bmapStart <= x < g.bmapStart + BitmapBlocks(g)
    }

    /** bmap for a direct block. */
    method BmapDirect(i: nat, bn: nat) returns (addr: nat, ghost bm: set<nat>)
      requires Good() && i < |inodes| && bn < NDIRECT
      modifies this`blocks, this`bitmap, this`data, this`inodes, this`logged, this`own
      ensures Good() && SameBytes(g, old(Disk()), Disk()) && Grows(g, old(Disk()), Disk(), i)
      ensures addr == Ref(g, Disk(), i, bn) && addr < g.size && (addr == 0 ==> Full())
      ensures old(inodes)[i].addrs[bn] != 0 ==>
        Same(old(blocks), old(Disk()), old(logged)) && own == old(own) && bm == {}
      ensures logged <= old(logged) + bm + NZ(addr) && LoggedSince(old(blocks), old(logged))
      ensures inodes[i].addrs[NDIRECT] == old(inodes)[i].addrs[NDIRECT]
      ensures bm == {} || (addr != 0 && bm == {BBlock(addr)})
    {
      bm := {};
      addr := inodes[i].addrs[bn];
      if addr == 0 {
        addr := ClaimAddr(i, bn);
        if addr != 0 {
          bm := {BBlock(addr)};
          forall x: nat ensures SameMetaAt(old(Disk()), Disk(), x) { }
          GainsGrows(g, old(Disk()), Disk(), i, bn, addr);
        }
      } else {
        assert OwningSlot(g, Disk(), own, i, bn) && OwnedBlock(g, Disk(), own, addr);
      }
    }

    /** The indirect block of file i, allocated if missing; 0 if the disk is full. */
    method IndirectBlock(i: nat) returns (ind: nat, ghost bm: set<nat>)
      requires Good() && i < |inodes|
      modifies this`blocks, this`bitmap, this`data, this`inodes, this`logged, this`own
      ensures Good() && SameBytes(g, old(Disk()), Disk()) && Grows(g, old(Disk()), Disk(), i)
      ensures ind == inodes[i].addrs[NDIRECT] && (ind == 0 ==> Full())
      ensures old(inodes)[i].addrs[NDIRECT] != 0 || ind == 0 ==>
        Same(old(blocks), old(Disk()), old(logged)) && own == old(own) && bm == {}
      ensures logged <= old(logged) + bm + NZ(ind) && LoggedSince(old(blocks), old(logged))
      ensures bm == {} || (ind != old(inodes)[i].addrs[NDIRECT] && ind < g.size && bm == {BBlock(ind)})
    {
      bm := {};
      ind := inodes[i].addrs[NDIRECT];
      if ind == 0 {
        ind := ClaimAddr(i, NDIRECT);
        if ind != 0 {
          bm := {BBlock(ind)};
          forall x: nat ensures SameMetaAt(old(Disk()), Disk(), x) { }
          GainsGrows(g, old(Disk()), Disk(), i, NDIRECT, ind);
        }
      }
    }

    /** The address in word j of the indirect block, allocated if missing. */
    method IndirectWord(i: nat, j: nat) returns (addr: nat, ghost bm: set<nat>)
      requires Good() && i < |inodes| && j < NINDIRECT && inodes[i].addrs[NDIRECT] != 0
      modifies this`blocks, this`bitmap, this`data, this`logged, this`own
      ensures Good() && SameBytes(g, old(Disk()), Disk()) && Grows(g, old(Disk()), Disk(), i)
      ensures addr == Ref(g, Disk(), i, NDIRECT + 1 + j) && addr < g.size && (addr == 0 ==> Full())
      ensures old(Ref(g, Disk(), i, NDIRECT + 1 + j)) != 0 ==>
        Same(old(blocks), old(Disk()), old(logged)) && own == old(own) && bm == {}
      ensures logged <= old(logged) + bm + NZ(addr) + NZ(inodes[i].addrs[NDIRECT])
        && LoggedSince(old(blocks), old(logged))
      ensures bm == {} || (addr != 0 && bm == {BBlock(addr)})
    {
      bm := {};
      assert OwningSlot(g, Disk(), own, i, NDIRECT) && OwnedBlock(g, Disk(), own, inodes[i].addrs[NDIRECT]);
      var a := ReadBlock(inodes[i].addrs[NDIRECT]);
      addr := Word(a, j);
      assert addr == Ref(g, Disk(), i, NDIRECT + 1 + j);
      if addr == 0 {
        addr := ClaimWord(i, j);
        if addr != 0 {
          bm := {BBlock(addr)};
          forall x: nat ensures SameMetaAt(old(Disk()), Disk(), x) { }
          GainsGrows(g, old(Disk()), Disk(), i, NDIRECT + 1 + j, addr);
        }
      } else {
        assert OwningSlot(g, Disk(), own, i, NDIRECT + 1 + j) && OwnedBlock(g, Disk(), own, addr);
      }
    }

    /** bmap for a block reached through the indirect block. */
    method BmapIndirect(i: nat, j: nat) returns (addr: nat, ghost bm: set<nat>)
      requires Good() && i < |inodes| && j < NINDIRECT
      modifies this`blocks, this`bitmap, this`data, this`inodes, this`logged, this`own
      ensures Good() && SameBytes(g, old(Disk()), Disk()) && Grows(g, old(Disk()), Disk(), i)
      ensures addr == Ref(g, Disk(), i, NDIRECT + 1 + j) && addr < g.size && (addr == 0 ==> Full())
      ensures old(Ref(g, Disk(), i, NDIRECT + 1 + j)) != 0 ==>
        Same(old(blocks), old(Disk()), old(logged)) && own == old(own) && bm == {}
      ensures logged <= old(logged) + bm + NZ(addr) + NZ(inodes[i].addrs[NDIRECT])
        && LoggedSince(old(blocks), old(logged))
      ensures bm <= {BBlock(addr), BBlock(inodes[i].addrs[NDIRECT])} && inodes[i].addrs[NDIRECT] < g.size
      ensures addr == 0 ==> bm <= {BBlock(inodes[i].addrs[NDIRECT])}
      ensures inodes[i].addrs[NDIRECT] == old(inodes)[i].addrs[NDIRECT] ==>
        bm <= (if addr == 0 then {} else {BBlock(addr)})
    {
      ghost var fs0, blocks0, log0 := Disk(), blocks, logged;
      var ind;
      ind, bm := IndirectBlock(i);
      if ind == 0 {
        addr := 0;
        return;
      }
      ghost var fs1, blocks1, log1 := Disk(), blocks, logged;
      ghost var bm1;
      addr, bm1 := IndirectWord(i, j);
      GrowsTrans(g, fs0, fs1, Disk(), i);
      SameBytesTrans(g, fs0, fs1, Disk());
      LoggedThen(blocks0, blocks1, blocks, log0, log1, logged, {});
      bm := bm + bm1;
    }

    lemma CountBm(bm: set<nat>, a: nat, b: nat, a0: bool, b0: bool)
      requires bm <= {a, b} && (!a0 ==> bm <= {b}) && (!b0 ==> bm <= (if a0 then {a} else {}))
      ensures |bm| <= (if a0 then 1 else 0) + (if b0 then 1 else 0)
    {
      var s := (if a0 then {a} else {}) + (if b0 then {b} else {});
      assert bm <= s;
      Subset(bm, s);
    }

    lemma Subset(s: set<nat>, t: set<nat>)
      requires s <= t
      ensures |s| <= |t|
    {
      assert t == s + (t - s);
    }

    /** bmap: the disk block of the bn-th block of file i, allocated if missing; 0 if the
        disk is full.  It panics beyond the largest file.  bm is the set of bitmap blocks
        logged on the way. */
    method Bmap(i: nat, bn: nat) returns (addr: nat, panicked: bool, ghost bm: set<nat>)
      requires Good() && i < |inodes|
      modifies this`blocks, this`bitmap, this`data, this`inodes, this`logged, this`own
      ensures panicked <==> bn >= MAXFILE
      ensures panicked ==> Same(old(blocks), old(Disk()), old(logged)) && own == old(own)
      ensures Good() && SameBytes(g, old(Disk()), Disk()) && Grows(g, old(Disk()), Disk(), i)
      ensures !panicked ==> addr == Ref(g, Disk(), i, SlotOf(bn)) && addr < g.size && (addr == 0 ==> Full())
      ensures !panicked && old(Ref(g, Disk(), i, SlotOf(bn))) != 0 ==>
        Same(old(blocks), old(Disk()), old(logged)) && own == old(own) && bm == {}
      ensures logged <= old(logged) + bm + NZ(addr) + NZ(inodes[i].addrs[NDIRECT])
        && LoggedSince(old(blocks), old(logged))
      ensures forall x :: x in bm ==> IsBitmapBlock(x)
      ensures |bm| <= (if addr != 0 then 1 else 0)
        + (if inodes[i].addrs[NDIRECT] != old(inodes)[i].addrs[NDIRECT] then 1 else 0)
    {
      panicked := false;
      if bn < NDIRECT {
        addr, bm := BmapDirect(i, bn);
        BitPlace(g, addr);
      } else if bn - NDIRECT < NINDIRECT {
        addr, bm := BmapIndirect(i, bn - NDIRECT);
        CountBm(bm, BBlock(addr), BBlock(inodes[i].addrs[NDIRECT]), addr != 0,
          inodes[i].addrs[NDIRECT] != old(inodes)[i].addrs[NDIRECT]);
        BitPlace(g, inodes[i].addrs[NDIRECT]);
        BitPlace(g, addr);
      } else {
        addr, panicked, bm := 0, true, {};
      }
    }

    // ----- writei

    /** One pass of writei's loop at file offset off: find or allocate the block, copy the
        data to it and log it.  If only some of the data can be copied, that much is stored
        and the block is not logged.  put is how much of the data is stored. */
    method WriteStep(i: nat, off: nat, src: seq<byte>, copied: nat, ghost wrap: nat)
      returns (ok: bool, ghost put: nat, ghost addr: nat, ghost bm: set<nat>)
      requires Good() && i < |inodes| && off / BSIZE < MAXFILE && off % BSIZE + |src| <= BSIZE && |src| > 0
      modifies this`blocks, this`bitmap, this`data, this`inodes, this`logged, this`own
      ensures Sync() && put == (if addr == 0 then 0 else Min(copied, |src|)) && (ok <==> put == |src|)
        && (addr == 0 ==> Full())
      ensures Stepped(g, old(Disk()), Disk(), own, i, off, src[..put], addr, wrap)
      ensures old(Ref(g, Disk(), i, SlotOf(off / BSIZE))) != 0 ==> bm == {} && addr != 0
      ensures |inodes| == |old(inodes)| && |inodes[i].addrs| == NDIRECT + 1
      ensures logged <= old(logged) + bm + NZ(addr) + NZ(inodes[i].addrs[NDIRECT])
      ensures LoggedBut(old(blocks), blocks, old(logged), logged, if ok || put == 0 then {} else {addr})
      ensures BmCount(bm, old(inodes)[i].addrs[NDIRECT], inodes[i].addrs[NDIRECT])
    {
      ghost var fs0 := Disk();
      var at, bn := off % BSIZE, off / BSIZE;
      var a, panicked;
      a, panicked, bm := Bmap(i, bn);
      addr, put := a, 0;
      assert GrownRef(g, fs0, Disk(), i, i, NDIRECT);
      if a == 0 {
        PatchNothing(g, fs0, Disk(), i, off, src);
        SteppedIs(g, fs0, Disk(), own, i, off, src[..0], a, wrap);
        return false, put, a, bm;
      }
      put := Min(copied, |src|);
      var m := if copied < |src| then copied else |src|;
      ghost var blocks1, log1 := blocks, logged;
      CopyIn(i, off, a, src[..m], fs0, wrap);
      LoggedStore(old(blocks), blocks1, old(logged), log1, a, blocks[a]);
      if copied < |src| {
        return false, put, a, bm;
      }
      logged := logged + {a};
      ok := true;
    }

    /** either_copyin of some bytes into block a of file i, the one at offset off. */
    method CopyIn(i: nat, off: nat, a: nat, src: seq<byte>, ghost fs0: Fs, ghost wrap: nat)
      requires Good() && i < |inodes| && off / BSIZE < MAXFILE && off % BSIZE + |src| <= BSIZE
      requires a == Ref(g, Disk(), i, SlotOf(off / BSIZE)) && a != 0 && SameBytes(g, fs0, Disk())
        && Grows(g, fs0, Disk(), i)
      modifies this`blocks, this`data
      ensures Sync() && Stepped(g, fs0, Disk(), own, i, off, src, a, wrap)
      ensures a < |blocks| == |old(blocks)| && blocks == old(blocks)[a := blocks[a]]
        && (src == [] ==> blocks == old(blocks))
    {
      CopyStepped(g, fs0, Disk(), own, i, off, a, src, wrap);
      var at := off % BSIZE;
      var was := ReadBlock(a);
      assert src == [] ==> was[..at] + src + was[at + |src|..] == was && blocks[a := was] == blocks;
      StoreBlock(a, was[..at] + src + was[at + |src|..]);
    }

    /** At most one bitmap block for the data block, and one more if the indirect block was
        allocated; an existing indirect block stays. */
    ghost predicate BmCount(bm: set<nat>, ind0: nat, ind: nat) {
      && (forall x :: x in bm ==> IsBitmapBlock(x))
      && |bm| <= 1 + (if ind != ind0 then 1 else 0)
      && (ind == ind0 || ind0 == 0)
    }

    /** The same pass seen from the whole write of src at off0, of which tot bytes are done.
        If it fails, `stray` further bytes may have been stored. */
    method WritePass(i: nat, src: seq<byte>, off0: nat, tot: nat, copyLimit: nat, ghost fs0: Fs, ghost wrap: nat)
      returns (ok: bool, next: nat, ghost stray: nat, ghost addr: nat, ghost bm: set<nat>)
      requires Sync() && i < |inodes| && off0 + |src| <= MAXFILE * BSIZE && tot < |src|
        && |inodes[i].addrs| == NDIRECT + 1
      requires Going(g, fs0, Disk(), own, i, off0, src, tot, 0, 0, wrap) && wrap > 2
      modifies this`blocks, this`bitmap, this`data, this`inodes, this`logged, this`own
      ensures Sync() && |inodes| == |old(inodes)| && |inodes[i].addrs| == NDIRECT + 1
      ensures next == (if ok then tot + ChunkSize(off0 + tot, |src| - tot) else tot) && next + stray <= |src|
      ensures Going(g, fs0, Disk(), own, i, off0, src, next, stray, addr, wrap)
      ensures ok ==> stray == 0 && next <= copyLimit
      ensures !ok ==> StopsFor(i, tot, stray, off0, |src|, copyLimit)
      ensures CoveredFrom(g, fs0, i, off0 + |src|, wrap) && |src| <= copyLimit ==> ok
      ensures (off0 + tot) % BSIZE != 0 ==> bm == {}
      ensures logged <= old(logged) + bm + NZ(addr) + NZ(inodes[i].addrs[NDIRECT])
      ensures LoggedBut(old(blocks), blocks, old(logged), logged, if stray == 0 then {} else {addr})
      ensures BmCount(bm, old(inodes)[i].addrs[NDIRECT], inodes[i].addrs[NDIRECT])
    {
      var off := off0 + tot;
      var m := ChunkSize(off, |src| - tot);
      ghost var fs1, own1 := Disk(), own;
      GoingStart(g, fs0, fs1, own, i, off0, src, tot, wrap);
      ghost var put;
      ok, put, addr, bm := WriteStep(i, off, src[tot..tot + m], if copyLimit < tot then 0 else copyLimit - tot, wrap);
      next := if ok then tot + m else tot;
      stray := if ok then 0 else put;
      PartOfPart(src, tot, m, put);
      GoingNext(g, fs0, fs1, own1, Disk(), own, i, off0, src, tot, put, addr, next, stray, wrap);
    }

    /** The copying loop of writei: src goes to offset off0 of file i, as much of it as fits
        on the disk and lies within the first copyLimit bytes of the source buffer.  D are
        the data blocks and B the bitmap blocks it logs; sb is the block of stray bytes. */
    method CopyLoop(i: nat, src: seq<byte>, off0: nat, copyLimit: nat, ghost fs0: Fs, ghost wrap: nat)
      returns (tot: nat, ghost stray: nat, ghost sb: nat, ghost D: set<nat>, ghost B: set<nat>)
      requires Sync() && i < |inodes| && off0 + |src| <= MAXFILE * BSIZE && |inodes[i].addrs| == NDIRECT + 1
      requires Going(g, fs0, Disk(), own, i, off0, src, 0, 0, 0, wrap) && wrap > 2
      modifies this`blocks, this`bitmap, this`data, this`inodes, this`logged, this`own
      ensures Sync() && |inodes| == |old(inodes)| && |inodes[i].addrs| == NDIRECT + 1
      ensures (tot == 0 || tot <= copyLimit) && tot + stray <= |src|
        && (tot < |src| ==> Stops(off0, tot) && StopsFor(i, tot, stray, off0, |src|, copyLimit))
      ensures tot == |src| ==> stray == 0
      ensures CoveredFrom(g, fs0, i, off0 + |src|, wrap) && |src| <= copyLimit ==> tot == |src|
      ensures Going(g, fs0, Disk(), own, i, off0, src, tot, stray, sb, wrap)
      ensures Tallied(old(logged), logged, D, B, old(inodes)[i].addrs[NDIRECT], inodes[i].addrs[NDIRECT])
      ensures LoggedBut(old(blocks), blocks, old(logged), logged, if stray == 0 then {} else {sb})
      ensures |D| <= Touched(off0, |src|)
      ensures |B| <= MayAlloc(off0, |src|)
        + (if inodes[i].addrs[NDIRECT] != old(inodes)[i].addrs[NDIRECT] then 1 else 0)
    {
      var n := |src|;
      tot, stray, sb, D, B := 0, 0, 0, {}, {};
      ghost var c, ind0 := 0, inodes[i].addrs[NDIRECT];
      while tot < n
        invariant Sync() && |inodes| == |old(inodes)| && |inodes[i].addrs| == NDIRECT + 1
        invariant tot <= n && (tot == 0 || tot <= copyLimit) && stray == sb == 0
          && Going(g, fs0, Disk(), own, i, off0, src, tot, 0, 0, wrap)
        invariant Booked(i, off0, n, tot, c, D, B, old(blocks), old(logged), ind0)
        invariant |B| <= MayAlloc(off0, n) + (if inodes[i].addrs[NDIRECT] != ind0 then 1 else 0)
      {
        var ok, next;
        ok, next, stray, sb, D, B :=
          CountedPass(i, src, off0, tot, copyLimit, fs0, wrap, c, D, B, old(blocks), old(logged), ind0);
        if !ok {
          return;
        }
        GoingOn(g, fs0, Disk(), own, i, off0, src, next, sb, wrap);
        tot, sb, c := next, 0, c + 1;
      }
    }

    /** The books of a write after c passes. */
    ghost predicate Booked(i: nat, off0: nat, n: nat, tot: nat, c: nat, D: set<nat>, B: set<nat>, blocks0: seq<Block>,
        log0: set<nat>, ind0: nat)
      requires i < |inodes| && |inodes[i].addrs| == NDIRECT + 1
      reads this
    {
      && Tallied(log0, logged, D, B, ind0, inodes[i].addrs[NDIRECT])
      && Counted(off0, n, tot, c, D, B, inodes[i].addrs[NDIRECT] != ind0)
      && LoggedSince(blocks0, log0)
    }

    /** A pass, with the books kept: D0 and B0 are the blocks logged before it. */
    method CountedPass(i: nat, src: seq<byte>, off0: nat, tot: nat, copyLimit: nat, ghost fs0: Fs, ghost wrap: nat,
                       ghost c: nat, ghost D0: set<nat>, ghost B0: set<nat>, ghost blocks0: seq<Block>,
                       ghost log0: set<nat>, ghost ind0: nat)
      returns (ok: bool, next: nat, ghost stray: nat, ghost sb: nat, ghost D: set<nat>, ghost B: set<nat>)
      requires Sync() && i < |inodes| && off0 + |src| <= MAXFILE * BSIZE && tot < |src|
        && |inodes[i].addrs| == NDIRECT + 1
      requires Going(g, fs0, Disk(), own, i, off0, src, tot, 0, 0, wrap) && wrap > 2
      requires Booked(i, off0, |src|, tot, c, D0, B0, blocks0, log0, ind0)
      modifies this`blocks, this`bitmap, this`data, this`inodes, this`logged, this`own
      ensures Sync() && |inodes| == |old(inodes)| && |inodes[i].addrs| == NDIRECT + 1
      ensures tot <= next && next + stray <= |src| && Going(g, fs0, Disk(), own, i, off0, src, next, stray, sb, wrap)
      ensures ok ==> stray == 0 && tot < next && Booked(i, off0, |src|, next, c + 1, D, B, blocks0, log0, ind0)
      ensures ok ==> next <= copyLimit
      ensures !ok ==> next == tot && Stops(off0, tot) && StopsFor(i, tot, stray, off0, |src|, copyLimit)
      ensures CoveredFrom(g, fs0, i, off0 + |src|, wrap) && |src| <= copyLimit ==> ok
      ensures Tallied(log0, logged, D, B, ind0, inodes[i].addrs[NDIRECT])
      ensures LoggedBut(blocks0, blocks, log0, logged, if stray == 0 then {} else {sb})
      ensures |D| <= Touched(off0, |src|)
      ensures |B| <= MayAlloc(off0, |src|) + (if inodes[i].addrs[NDIRECT] != ind0 then 1 else 0)
    {
      ghost var blocks1, log1, ind1, bm := blocks, logged, inodes[i].addrs[NDIRECT], {};
      ok, next, stray, sb, bm := WritePass(i, src, off0, tot, copyLimit, fs0, wrap);
      ghost var ind := inodes[i].addrs[NDIRECT];
      TallyStep(log0, log1, logged, D0, B0, NZ(sb), bm, ind0, ind1, ind);
      CountStep(off0, |src|, tot, c, D0, B0, NZ(sb), bm, ind1 != ind0, ind != ind0,
        if ok then next else tot + ChunkSize(off0 + tot, |src| - tot));
      LoggedThen(blocks0, blocks1, blocks, log0, log1, logged, if stray == 0 then {} else {sb});
      D, B := D0 + NZ(sb), B0 + bm;
    }

    /** The file needs a block and the disk is full, or the source buffer ends, within a block
        if any bytes are stray. */
    ghost predicate StopsFor(i: nat, tot: nat, stray: nat, off0: nat, n: nat, copyLimit: nat)
      reads this
    {
      (AllUsed(g, bitmap) && NoBlockAt(g, Disk(), i, off0 + tot) && stray == 0)
        || StrayFrom(off0, n, copyLimit, tot, stray)
    }

    /** The block of file i that holds the stray bytes at position pos. */
    ghost function StrayBlock(i: nat, pos: nat, stray: nat): set<nat>
      requires Shape(g, Disk()) && i < |inodes|
      reads this
    {
      if stray > 0 && pos / BSIZE < MAXFILE then {Ref(g, Disk(), i, SlotOf(pos / BSIZE))} else {}
    }

    /** What has been logged so far is within D, B and the indirect block. */
    ghost predicate Tallied(log0: set<nat>, log: set<nat>, D: set<nat>, B: set<nat>, ind0: nat, ind: nat) {
      && log <= log0 + D + B + NZ(ind)
      && (forall x :: x in B ==> IsBitmapBlock(x))
      && (ind == ind0 || ind0 == 0)
    }

    lemma TallyStep(log0: set<nat>, log1: set<nat>, log2: set<nat>, D: set<nat>, B: set<nat>, a: set<nat>, bm: set<nat>,
        ind0: nat, ind1: nat, ind2: nat)
      requires Tallied(log0, log1, D, B, ind0, ind1) && log2 <= log1 + bm + a + NZ(ind2) && BmCount(bm, ind1, ind2)
      ensures Tallied(log0, log2, D + a, B + bm, ind0, ind2)
      ensures ind1 != ind0 ==> ind2 == ind1
    {
    }

    /** writei: -1 if the range is not acceptable, else the number of bytes written.  W is
        what the call adds to the transaction.  Every block that changes is logged, unless
        the source buffer ends within a block of the file: then the `stray` bytes before its
        end are stored without being counted or logged.  The file is as the count says
        exactly if that does not show, which depends only on the file and the source. */
    method Writei(i: nat, src: seq<byte>, off: nat, copyLimit: nat)
        returns (r: int, ghost W: set<nat>, ghost stray: nat)
      requires Valid() && i < |inodes| && off < UINT_RANGE && |src| < UINT_RANGE
      modifies this
      ensures Valid() && |inodes| == |old(inodes)| && inodes[i].typ == old(inodes)[i].typ
        && inodes[i].nlink == old(inodes)[i].nlink
      ensures r == -1 <==> off > old(inodes)[i].size || off + |src| >= UINT_RANGE || off + |src| > MAXFILE * BSIZE
      ensures r == -1 ==> Same(old(blocks), old(Disk()), old(logged)) && dinodes == old(dinodes) && stray == 0
      ensures r != -1 ==> 0 <= r <= copyLimit && r + stray <= |src|
      ensures off + |src| <= old(inodes)[i].size && |src| <= copyLimit ==> r == |src|
      ensures r == |src| ==> stray == 0
      ensures -1 < r < |src| ==> Stops(off, r) && StopsFor(i, r, stray, off, |src|, copyLimit)
      ensures r != -1 ==> off <= |old(Contents(g, Disk(), i))|
      ensures r != -1 ==> Contents(g, Disk(), i) == Stored(old(Contents(g, Disk(), i)), off, src, r, stray)
      ensures r != -1 ==>
        (Contents(g, Disk(), i) == Spliced(old(Contents(g, Disk(), i)), off, src[..r]) <==>
         TailSame(old(Contents(g, Disk(), i)), off, src, copyLimit))
      ensures r != -1 ==> UntouchedBut(g, old(Disk()), Disk(), i)
      ensures r != -1 ==> dinodes == old(dinodes)[i := inodes[i]] && IBlock(i) in logged
      ensures r != -1 ==> LoggedBut(old(blocks), blocks, old(logged), logged, StrayBlock(i, off + r, stray))
      ensures logged <= old(logged) + W
        && |W| <= Touched(off, |src|) + Min(MayAlloc(off, |src|) + 1, BitmapBlocks(g)) + 2
    {
      W, stray := {}, 0;
      assert Dense(g, Disk(), i);
      if off > inodes[i].size || (off + |src|) % UINT_RANGE < off {
        return -1, W, 0;
      }
      if off + |src| > MAXFILE * BSIZE {
        return -1, W, 0;
      }
      var tot;
      tot, W, stray := WriteBody(i, src, off, copyLimit);
      r := tot;
    }

    /** writei within bounds. */
    method WriteBody(i: nat, src: seq<byte>, off: nat, copyLimit: nat)
        returns (r: nat, ghost W: set<nat>, ghost stray: nat)
      requires Valid() && i < |inodes| && off <= inodes[i].size && off + |src| <= MAXFILE * BSIZE
      modifies this
      ensures Valid() && |inodes| == |old(inodes)| && inodes[i].typ == old(inodes)[i].typ
        && inodes[i].nlink == old(inodes)[i].nlink
      ensures r <= copyLimit && r + stray <= |src| && (r == |src| ==> stray == 0)
      ensures off + |src| <= old(inodes)[i].size && |src| <= copyLimit ==> r == |src|
      ensures r < |src| ==> Stops(off, r) && StopsFor(i, r, stray, off, |src|, copyLimit)
      ensures off <= |old(Contents(g, Disk(), i))|
        && Contents(g, Disk(), i) == Stored(old(Contents(g, Disk(), i)), off, src, r, stray)
      ensures Contents(g, Disk(), i) == Spliced(old(Contents(g, Disk(), i)), off, src[..r]) <==>
        TailSame(old(Contents(g, Disk(), i)), off, src, copyLimit)
      ensures UntouchedBut(g, old(Disk()), Disk(), i)
      ensures dinodes == old(dinodes)[i := inodes[i]] && IBlock(i) in logged
      ensures LoggedBut(old(blocks), blocks, old(logged), logged, StrayBlock(i, off + r, stray))
      ensures logged <= old(logged) + W
        && |W| <= Touched(off, |src|) + Min(MayAlloc(off, |src|) + 1, BitmapBlocks(g)) + 2
    {
      ghost var fs0, wrap := Disk(), |src| + 3;
      assert Dense(g, fs0, i);
      GoingBegin(g, fs0, own, i, off, src, wrap);
      var tot; ghost var D, B, sb;
      tot, stray, sb, D, B := CopyLoop(i, src, off, copyLimit, fs0, wrap);
      W := D + B + NZ(inodes[i].addrs[NDIRECT]) + {IBlock(i)};
      WriteCount(D, B, inodes[i].addrs[NDIRECT], IBlock(i));
      ghost var log1 := logged;
      FinishWrite(i, src, off, tot, stray, sb, fs0, wrap);
      LoggedMore(old(blocks), blocks, old(logged), log1, logged, if stray == 0 then {} else {sb});
      r := tot;
      assert Dense(g, Disk(), i);
      CountedIff(g, Disk(), i, Contents(g, fs0, i), off, src, copyLimit, r, stray);
    }

    lemma WriteCount(D: set<nat>, B: set<nat>, ind: nat, ib: nat)
      requires forall x :: x in B ==> IsBitmapBlock(x)
      ensures |D + B + NZ(ind) + {ib}| <= |D| + |B| + 2
      ensures |B| <= BitmapBlocks(g)
    {
      CountUnion(D, B);
      CountUnion(D + B, NZ(ind));
      CountUnion(D + B + NZ(ind), {ib});
      CountRange(B, g.bmapStart, BitmapBlocks(g));
    }

    /** The end of writei: the size and iupdate. */
    method FinishWrite(i: nat, src: seq<byte>, off: nat, tot: nat, ghost stray: nat, ghost sb: nat, ghost fs0: Fs,
        ghost wrap: nat)
      requires Sync() && i < |inodes| == |dinodes| && tot + stray <= |src| && off + |src| <= MAXFILE * BSIZE
      requires Going(g, fs0, Disk(), own, i, off, src, tot, stray, sb, wrap)
      requires Shape(g, fs0) && i < |fs0.inodes| && off <= fs0.inodes[i].size && forall x: nat :: Dense(g, fs0, x)
      modifies this`inodes, this`dinodes, this`logged
      ensures Valid() && |inodes| == |fs0.inodes| && off <= |Contents(g, fs0, i)|
      ensures inodes[i].typ == fs0.inodes[i].typ && inodes[i].nlink == fs0.inodes[i].nlink
      ensures Contents(g, Disk(), i) == Stored(Contents(g, fs0, i), off, src, tot, stray)
        && UntouchedBut(g, fs0, Disk(), i)
      ensures StrayBlock(i, off + tot, stray) == if stray == 0 then {} else {sb}
      ensures NoBlockAt(g, old(Disk()), i, off + tot) ==> NoBlockAt(g, Disk(), i, off + tot)
      ensures dinodes == old(dinodes)[i := inodes[i]] && logged == old(logged) + {IBlock(i)}
    {
      ghost var fs1 := Disk();
      GoingIs(g, fs0, fs1, own, i, off, src, tot, stray, sb, wrap);
      assert Dense(g, fs0, i);
      Resize(i, off + tot, fs0);
      if (off + tot) / BSIZE < MAXFILE { assert SameRef(g, fs1, Disk(), i, SlotOf((off + tot) / BSIZE)); }
      WrittenDense(g, fs0, fs1, Disk(), i, off, src, tot, stray);
      WrittenContents(g, fs0, fs1, Disk(), i, off, src, tot, stray);
      Iupdate(i);
    }

    /** The file is at least as long as the write. */
    method Resize(i: nat, end: nat, ghost fs0: Fs)
      requires Good() && Grows(g, fs0, Disk(), i)
      modifies this`inodes
      ensures Good() && Resized(g, old(Disk()), Disk(), i, end) && |inodes| == |fs0.inodes|
      ensures inodes[i].typ == fs0.inodes[i].typ && inodes[i].nlink == fs0.inodes[i].nlink
    {
      ghost var fs1 := Disk();
      assert SameMetaAt(fs0, fs1, i);
      if end > inodes[i].size {
        inodes := inodes[i := inodes[i].(size := end)];
      } else {
        assert inodes[i := inodes[i]] == inodes;
      }
      MetadataKeeps(g, fs1, own, i, inodes[i]);
      forall x: nat ensures SameInode(fs1, Disk(), i, x) { }
    }

    // ----- readi

    /** One pass of readi's loop: bytes at..at+m of file i, all in one block.  bmap finds the
        block and allocates nothing. */
    method ReadStep(i: nat, at: nat, m: nat) returns (got: seq<byte>)
      requires Valid() && i < |inodes| && 0 < m && at + m <= inodes[i].size && at % BSIZE + m <= BSIZE
      modifies this`blocks, this`bitmap, this`data, this`inodes, this`logged, this`own
      ensures unchanged(this) && got == Contents(g, Disk(), i)[at..at + m]
    {
      assert Dense(g, Disk(), i);
      MappedBelowSize(g, Disk(), i, at);
      var addr, panicked; ghost var bm;
      addr, panicked, bm := Bmap(i, at / BSIZE);
      assert OwningSlot(g, Disk(), own, i, SlotOf(at / BSIZE)) && OwnedBlock(g, Disk(), own, addr);
      var a := ReadBlock(addr);
      got := a[at % BSIZE..at % BSIZE + m];
      BlockIsContents(g, Disk(), i, at, m);
    }

    /** readi: the bytes of file i from off, clipped to its size; -1 if the destination
        buffer, good for copyLimit bytes, is too short. */
    method Readi(i: nat, off: nat, n0: nat, copyLimit: nat) returns (r: int, dst: seq<byte>)
      requires Valid() && i < |inodes| && off < UINT_RANGE && n0 < UINT_RANGE
      modifies this`blocks, this`bitmap, this`data, this`inodes, this`logged, this`own
      ensures unchanged(this)
      ensures off > inodes[i].size || off + n0 >= UINT_RANGE ==> r == 0 && dst == []
      ensures off <= inodes[i].size && off + n0 < UINT_RANGE ==>
        var n := Min(n0, inodes[i].size - off);
        if n <= copyLimit then r == n && dst == Contents(g, Disk(), i)[off..off + n]
        else r == -1 && dst <= Contents(g, Disk(), i)[off..off + n]
    {
      dst := [];
      if off > inodes[i].size || (off + n0) % UINT_RANGE < off {
        return 0, dst;
      }
      var n := n0;
      if off + n > inodes[i].size {
        n := inodes[i].size - off;
      }
      r, dst := ReadLoop(i, off, n, copyLimit);
    }

    /** readi's loop, block by block. */
    method ReadLoop(i: nat, off: nat, n: nat, copyLimit: nat) returns (r: int, dst: seq<byte>)
      requires Valid() && i < |inodes| && off + n <= inodes[i].size
      modifies this`blocks, this`bitmap, this`data, this`inodes, this`logged, this`own
      ensures unchanged(this)
      ensures if n <= copyLimit then r == n && dst == Contents(g, Disk(), i)[off..off + n]
        else r == -1 && dst <= Contents(g, Disk(), i)[off..off + n]
    {
      dst := [];
      var tot := 0;
      ghost var all := Contents(g, Disk(), i);
      while tot < n
        invariant tot <= n && tot <= copyLimit && unchanged(this)
        invariant dst == all[off..off + tot]
      {
        var m := ChunkSize(off + tot, n - tot);
        var got := ReadStep(i, off + tot, m);
        if tot + m > copyLimit {
          assert dst <= all[off..off + n];
          return -1, dst;
        }
        Extended(all, off, tot, m, got);
        dst := dst + got;
        tot := tot + m;
      }
      r := tot;
    }

    // ----- itrunc

    /** itrunc: frees exactly the blocks file i owns and empties it.  panicked stands for
        "freeing free block", which cannot happen. */
    method Itrunc(i: nat) returns (panicked: bool)
      requires Valid() && i < |inodes|
      modifies this
      ensures Valid() && !panicked && |inodes| == |old(inodes)|
      ensures Truncated(g, old(Disk()), old(own), i, Disk()) && own == Disown(old(own), i)
      ensures Contents(g, Disk(), i) == [] && UntouchedBut(g, old(Disk()), Disk(), i)
      ensures dinodes == old(dinodes)[i := inodes[i]] && IBlock(i) in logged && LoggedSince(old(blocks), old(logged))
    {
      ghost var fs0 := Disk();
      panicked := FreeDirect(i);
      ghost var blocks1, log1 := blocks, logged;
      if !panicked {
        panicked := FreeIndirect(i, fs0);
      }
      LoggedThen(old(blocks), blocks1, blocks, old(logged), log1, logged, {});
      inodes := inodes[i := inodes[i].(size := 0)];
      assert inodes[i].addrs == NoAddrs();
      AllFreed(g, fs0, own, i, Disk());
      TruncatedKeeps(g, fs0, own, i, Disk());
      TruncatedFiles(g, fs0, own, i, Disk());
      own := Disown(own, i);
      ghost var log2 := logged;
      Iupdate(i);
      LoggedMore(old(blocks), blocks, old(logged), log2, logged, {});
    }

    /** What iput does when it frees inode i: truncate it and clear its type on disk. */
    method FreeInode(i: nat) returns (panicked: bool)
      requires Valid() && i < |inodes|
      modifies this
      ensures Valid() && !panicked
      ensures inodes == old(inodes)[i := Inode(0, old(inodes)[i].nlink, 0, NoAddrs())]
        && dinodes == old(dinodes)[i := inodes[i]]
      ensures Contents(g, Disk(), i) == [] && UntouchedBut(g, old(Disk()), Disk(), i)
      ensures IBlock(i) in logged && LoggedSince(old(blocks), old(logged))
    {
      panicked := Itrunc(i);
      ghost var mid := Disk();
      MetadataFiles(g, mid, own, i, inodes[i].(typ := 0));
      inodes := inodes[i := inodes[i].(typ := 0)];
      ghost var log1 := logged;
      Iupdate(i);
      LoggedMore(old(blocks), blocks, old(logged), log1, logged, {});
    }

    /** itrunc's loop over the direct addresses. */
    method FreeDirect(i: nat) returns (panicked: bool)
      requires Valid() && i < |inodes|
      modifies this`blocks, this`bitmap, this`inodes, this`logged
      ensures !panicked && Sync() && FreedBits(g, old(Disk()), own, i, bitmap, NDIRECT, 0)
        && LoggedSince(old(blocks), old(logged))
      ensures |inodes| == |old(inodes)| && |inodes[i].addrs| == NDIRECT + 1
      ensures inodes == old(inodes)[i := old(inodes)[i].(addrs := inodes[i].addrs)]
      ensures inodes[i].addrs[NDIRECT] == old(inodes)[i].addrs[NDIRECT]
        && forall x :: 0 <= x < NDIRECT ==> inodes[i].addrs[x] == 0
    {
      ghost var fs0 := Disk();
      panicked := false;
      for k := 0 to NDIRECT
        invariant !panicked && Sync() && FreedBits(g, fs0, own, i, bitmap, k, 0)
          && LoggedSince(old(blocks), old(logged))
        invariant |inodes| == |fs0.inodes| && |inodes[i].addrs| == NDIRECT + 1
        invariant inodes == fs0.inodes[i := fs0.inodes[i].(addrs := inodes[i].addrs)]
        invariant forall x :: 0 <= x < |inodes[i].addrs| ==>
          inodes[i].addrs[x] == if x < k then 0 else fs0.inodes[i].addrs[x]
      {
        FreeSlot(g, fs0, own, i, bitmap, k, 0, k);
        if inodes[i].addrs[k] != 0 {
          ghost var blocks1, log1 := blocks, logged;
          var ok := Bfree(inodes[i].addrs[k]);
          LoggedThen(old(blocks), blocks1, blocks, old(logged), log1, logged, {});
          panicked := !ok;
          inodes := inodes[i := inodes[i].(addrs := inodes[i].addrs[k := 0])];
        }
      }
    }

    /** itrunc's loop over the indirect block, and the indirect block itself. */
    method FreeIndirect(i: nat, ghost fs0: Fs) returns (panicked: bool)
      requires Sync() && Owned(g, fs0, own, {}) && i < |inodes| == |fs0.inodes| && data == fs0.blocks
      requires FreedBits(g, fs0, own, i, bitmap, NDIRECT, 0)
      requires |inodes[i].addrs| == NDIRECT + 1 && inodes == fs0.inodes[i := fs0.inodes[i].(addrs := inodes[i].addrs)]
      requires inodes[i].addrs[NDIRECT] == fs0.inodes[i].addrs[NDIRECT]
        && forall x :: 0 <= x < NDIRECT ==> inodes[i].addrs[x] == 0
      modifies this`blocks, this`bitmap, this`inodes, this`logged
      ensures !panicked && Sync() && FreedBits(g, fs0, own, i, bitmap, NDIRECT + 1, NINDIRECT)
        && LoggedSince(old(blocks), old(logged))
      ensures inodes == fs0.inodes[i := fs0.inodes[i].(addrs := NoAddrs())]
    {
      panicked := false;
      var ind := inodes[i].addrs[NDIRECT];
      if ind == 0 {
        NoIndirect(g, fs0, own, i, bitmap);
        assert inodes[i].addrs == NoAddrs();
        return;
      }
      assert OwningSlot(g, fs0, own, i, NDIRECT) && OwnedBlock(g, fs0, own, ind);
      var a := ReadBlock(ind);
      for j := 0 to NINDIRECT
        invariant inodes == old(inodes) && !panicked && Sync() && LoggedSince(old(blocks), old(logged))
        invariant FreedBits(g, fs0, own, i, bitmap, NDIRECT, j)
      {
        assert Ref(g, fs0, i, NDIRECT + 1 + j) == Word(a, j);
        FreeSlot(g, fs0, own, i, bitmap, NDIRECT, j, NDIRECT + 1 + j);
        if Word(a, j) != 0 {
          ghost var blocks1, log1 := blocks, logged;
          var ok := Bfree(Word(a, j));
          LoggedThen(old(blocks), blocks1, blocks, old(logged), log1, logged, {});
          panicked := !ok;
        }
      }
      FreeSlot(g, fs0, own, i, bitmap, NDIRECT, NINDIRECT, NDIRECT);
      ghost var blocks2, log2 := blocks, logged;
      var ok := Bfree(ind);
      LoggedThen(old(blocks), blocks2, blocks, old(logged), log2, logged, {});
      panicked := !ok;
      inodes := inodes[i := inodes[i].(addrs := inodes[i].addrs[NDIRECT := 0])];
      assert inodes[i].addrs == NoAddrs();
    }

    // ----- filewrite

    /** filewrite on an inode: one transaction per chunk, each within what begin_op reserves.
        The file offset ends where the last byte counted does.  If the whole source buffer
        can be read there are no stray bytes, and each transaction logs all it changes.  The
        call stops short only for the reasons of ShortFor; all but a full disk are sure. */
    method FileWrite(i: nat, src: seq<byte>, off0: nat, copyLimit: nat)
        returns (ret: int, off: nat, ghost txns: seq<Txn>, ghost stray: nat)
      requires Valid() && i < |inodes| && off0 < UINT_RANGE && |src| < UINT_RANGE / 2
      modifies this
      ensures Valid() && |inodes| == |old(inodes)| && UntouchedBut(g, old(Disk()), Disk(), i)
      ensures Txns(g, txns, old(blocks), blocks, stray == 0)
      ensures ret == (if off == off0 + |src| then |src| else -1)
      ensures off0 <= off <= off0 + |src| && (copyLimit >= |src| ==> stray == 0)
      ensures Overwritten(old(Contents(g, Disk(), i)), Contents(g, Disk(), i), off0, src, off - off0, stray)
      ensures off < off0 + |src| ==> ShortFor(old(inodes)[i].size, i, off0, |src|, copyLimit, off - off0, stray)
      ensures off == off0 + |src| > off0 ==>
        off0 <= old(inodes)[i].size && off <= MAXFILE * BSIZE && |src| <= copyLimit
    {
      ghost var fs0, wrap := Disk(), |src| + 3;
      FilingIs(fs0, i, off0, src, 0, 0, wrap);
      ret, off, txns, stray := ChunkLoop(i, src, off0, copyLimit, fs0, wrap);
      FilingIs(fs0, i, off0, src, off - off0, stray, wrap);
    }

    /** filewrite's loop. */
    method ChunkLoop(i: nat, src: seq<byte>, off0: nat, copyLimit: nat, ghost fs0: Fs, ghost wrap: nat)
      returns (ret: int, off: nat, ghost txns: seq<Txn>, ghost stray: nat)
      requires off0 < UINT_RANGE && |src| < UINT_RANGE / 2 && Filing(fs0, i, off0, src, 0, 0, wrap) && wrap > 2
      modifies this
      ensures off0 <= off <= off0 + |src| && Filing(fs0, i, off0, src, off - off0, stray, wrap)
      ensures Txns(g, txns, old(blocks), blocks, stray == 0)
      ensures ret == (if off == off0 + |src| then |src| else -1) && (copyLimit >= |src| ==> stray == 0)
      ensures i < |fs0.inodes|
      ensures off < off0 + |src| ==> ShortFor(fs0.inodes[i].size, i, off0, |src|, copyLimit, off - off0, stray)
      ensures off > off0 ==> off <= MAXFILE * BSIZE && off <= off0 + copyLimit
    {
      FilingIs(fs0, i, off0, src, 0, 0, wrap);
      var n, k := |src|, 0;
      off, txns, stray := off0, [], 0;
      while k < n
        invariant k <= n && off == off0 + k && (k > 0 ==> off <= MAXFILE * BSIZE && k <= copyLimit) && stray == 0
        invariant k == n || k % CHUNK == 0
        invariant Filing(fs0, i, off0, src, k, 0, wrap) && Txns(g, txns, old(blocks), blocks, true)
      {
        var r, n1, done;
        ghost var before := blocks;
        r, n1, done, stray := WriteNext(i, src, off0, k, copyLimit, fs0, wrap);
        TxnsMore(g, txns, old(blocks), before, blocks, logged, stray == 0);
        txns := txns + [Txn(before, blocks, logged)];
        off := off0 + done;
        if r != n1 {
          return -1, off, txns, stray;
        }
        k := done;
      }
      ret := if k == n then n else -1;
    }

    /** k bytes of src have been written to file i at off0 since fs0, and stray ones behind
        them; wrapped so that the loop need not see inside it. */
    ghost predicate Filing(fs0: Fs, i: nat, off0: nat, src: seq<byte>, k: nat, stray: nat, wrap: nat)
      reads this
      decreases wrap
    {
      if wrap > 0 then Filing(fs0, i, off0, src, k, stray, wrap - 1)
      else
        && Valid() && i < |inodes| == |fs0.inodes| && UntouchedBut(g, fs0, Disk(), i)
        && Overwritten(Contents(g, fs0, i), Contents(g, Disk(), i), off0, src, k, stray)
    }

    lemma {:induction false} FilingIs(fs0: Fs, i: nat, off0: nat, src: seq<byte>, k: nat, stray: nat, wrap: nat)
      ensures Filing(fs0, i, off0, src, k, stray, wrap) <==> Filing(fs0, i, off0, src, k, stray, 0)
      decreases wrap
    {
      if wrap > 0 { FilingIs(fs0, i, off0, src, k, stray, wrap - 1); }
    }

    /** The next chunk of filewrite's loop, of which k bytes are done. */
    method WriteNext(i: nat, src: seq<byte>, off0: nat, k: nat, copyLimit: nat, ghost fs0: Fs, ghost wrap: nat)
      returns (r: int, n1: nat, done: nat, ghost stray: nat)
      requires off0 + k < UINT_RANGE && k < |src| && Filing(fs0, i, off0, src, k, 0, wrap) && wrap > 2
      requires k % CHUNK == 0 && (k > 0 ==> k <= copyLimit) && i < |fs0.inodes|
      modifies this
      ensures TxnOk(g, old(blocks), blocks, logged, stray == 0) && Filing(fs0, i, off0, src, done, stray, wrap)
      ensures n1 == Min(|src| - k, CHUNK) && -1 <= r <= n1 && done == (if r > 0 then k + r else k)
        && (r == n1 ==> stray == 0)
      ensures copyLimit >= |src| ==> stray == 0
      ensures r > 0 ==> off0 + done <= MAXFILE * BSIZE && done <= copyLimit
      ensures r != n1 ==> ShortFor(fs0.inodes[i].size, i, off0, |src|, copyLimit, done, stray)
    {
      FilingIs(fs0, i, off0, src, k, 0, wrap);
      n1 := if |src| - k > CHUNK then CHUNK else |src| - k;
      ghost var fs1 := Disk();
      SizeReached(Contents(g, fs0, i), Contents(g, fs1, i), off0, src, k);
      var part := src[k..k + n1];
      r, stray := WriteChunk(i, part, off0, k, copyLimit, |src|, fs0.inodes[i].size);
      done := if r > 0 then k + r else k;
      FilingNext(fs0, fs1, i, off0, src, k, part, r, stray, wrap);
    }

    /** The transaction for the chunk at byte k of n. */
    method WriteChunk(i: nat, part: seq<byte>, off0: nat, k: nat, copyLimit: nat, ghost n: nat, ghost size0: nat)
        returns (r: int, ghost stray: nat)
      requires Valid() && i < |inodes| && off0 + k < UINT_RANGE && k < n && |part| == Min(n - k, CHUNK)
      requires k % CHUNK == 0 && (k > 0 ==> k <= copyLimit)
      requires if k > 0 then off0 + k <= inodes[i].size else inodes[i].size == size0
      modifies this
      ensures Valid() && |inodes| == |old(inodes)| && UntouchedBut(g, old(Disk()), Disk(), i)
      ensures TxnOk(g, old(blocks), blocks, logged, stray == 0)
      ensures -1 <= r <= |part| && (r != -1 ==> off0 + k + r <= MAXFILE * BSIZE && r + stray <= |part|)
      ensures r == -1 ==> Disk() == old(Disk()) && stray == 0
      ensures (r == |part| || copyLimit >= n ==> stray == 0) && (r > 0 ==> k + r <= copyLimit)
      ensures r != -1 ==> off0 + k <= |old(Contents(g, Disk(), i))|
      ensures r != -1 ==> Contents(g, Disk(), i) == Stored(old(Contents(g, Disk(), i)), off0 + k, part, r, stray)
      ensures r != |part| ==> ShortFor(size0, i, off0, n, copyLimit, if r > 0 then k + r else k, stray)
    {
      var limit := if copyLimit < k then 0 else copyLimit - k;
      r, stray := WriteTransaction(i, part, off0 + k, limit);
      if r != |part| {
        WhyShort(size0, old(inodes)[i].size, i, off0, n, k, |part|, copyLimit, limit, r, stray);
      }
    }

    lemma WhyShort(size0: nat, size1: nat, i: nat, off0: nat, n: nat, k: nat, n1: nat, copyLimit: nat, limit: nat,
        r: int, stray: nat)
      requires k < n && k % CHUNK == 0 && n1 == Min(n - k, CHUNK) && -1 <= r < n1 && r <= limit
      requires (k > 0 ==> k <= copyLimit) && limit == if copyLimit < k then 0 else copyLimit - k
      requires if k > 0 then off0 + k <= size1 else size1 == size0
      requires r == -1 <==> off0 + k > size1 || off0 + k + n1 > MAXFILE * BSIZE
      requires -1 < r ==> Stops(off0 + k, r) && StopsFor(i, r, stray, off0 + k, n1, limit)
      ensures ShortFor(size0, i, off0, n, copyLimit, if r > 0 then k + r else k, stray)
    {
      if -1 < r && StrayFrom(off0 + k, n1, limit, r, stray) {
        CopyStops(off0, n, k, n1, copyLimit, r, stray);
      } else if -1 < r {
        assert off0 + k + r == off0 + (k + r);
      }
    }

    /** Why a filewrite of n bytes to off0 stops after `done` of them: it starts past the end of
        the file; the chunk would end past the largest file; the disk is full and the file has
        no block there; or the source buffer ends. */
    ghost predicate ShortFor(size: nat, i: nat, off0: nat, n: nat, copyLimit: nat, done: nat, stray: nat)
      reads this
    {
      || (done == 0 && off0 > size)
      || (done % CHUNK == 0 && off0 + Min(done + CHUNK, n) > MAXFILE * BSIZE)
      || (Full() && NoBlockAt(g, Disk(), i, off0 + done) && stray == 0)
      || (copyLimit < n && done == CopyStop(off0, copyLimit) && done + stray == copyLimit)
    }

    lemma FilingNext(fs0: Fs, fs1: Fs, i: nat, off0: nat, src: seq<byte>, k: nat, part: seq<byte>, r: int, stray: nat,
        wrap: nat)
      requires Valid() && i < |inodes| == |fs0.inodes| && k + |part| <= |src| && part == src[k..k + |part|]
      requires -1 <= r <= |part|
      requires UntouchedBut(g, fs0, fs1, i) && UntouchedBut(g, fs1, Disk(), i)
      requires Overwritten(Contents(g, fs0, i), Contents(g, fs1, i), off0, src, k, 0)
      requires r == -1 ==> Disk() == fs1 && stray == 0
      requires r != -1 ==> r + stray <= |part| && off0 + k <= |Contents(g, fs1, i)|
      requires r != -1 ==> Contents(g, Disk(), i) == Stored(Contents(g, fs1, i), off0 + k, part, r, stray)
      ensures Filing(fs0, i, off0, src, if r > 0 then k + r else k, stray, wrap)
    {
      WrittenMore(g, fs0, fs1, Disk(), i, off0, src, k, |part|, r, stray);
      FilingIs(fs0, i, off0, src, if r > 0 then k + r else k, stray, wrap);
    }

    /** begin_op, writei of at most one chunk, end_op. */
    method WriteTransaction(i: nat, src: seq<byte>, off: nat, copyLimit: nat) returns (r: int, ghost stray: nat)
      requires Valid() && i < |inodes| && off < UINT_RANGE && |src| <= CHUNK
      modifies this
      ensures Valid() && |inodes| == |old(inodes)| && UntouchedBut(g, old(Disk()), Disk(), i)
      ensures TxnOk(g, old(blocks), blocks, logged, stray == 0)
      ensures -1 <= r <= |src| && (r != -1 ==> off + r <= MAXFILE * BSIZE && r + stray <= |src|)
      ensures r == -1 ==> Disk() == old(Disk())
      ensures r == -1 || r == |src| || copyLimit >= |src| ==> stray == 0
      ensures r == -1 <==> off > old(inodes)[i].size || off + |src| > MAXFILE * BSIZE
      ensures r <= copyLimit && (-1 < r < |src| ==> Stops(off, r) && StopsFor(i, r, stray, off, |src|, copyLimit))
      ensures r != -1 ==> off <= |old(Contents(g, Disk(), i))|
      ensures r != -1 ==> Contents(g, Disk(), i) == Stored(old(Contents(g, Disk(), i)), off, src, r, stray)
    {
      logged := {};
      ghost var W;
      r, W, stray := Writei(i, src, off, copyLimit);
      ChunkFits(off, |src|);
      Subset(logged, W);
      if r == -1 { forall b: nat ensures ChangeLogged(old(blocks), blocks, logged, {}, b) { } }
    }
  }

  /** Metadata blocks are in use. */
  ghost predicate MetaUsed(g: Geometry, bitmap: seq<bool>, b: nat) {
    b < g.dataStart && b < |bitmap| ==> bitmap[b]
  }

  ghost predicate UsedAt(bitmap: seq<bool>, lim: nat, b: nat) {
    b < lim && b < |bitmap| ==> bitmap[b]
  }

  /** All blocks below lim are in use. */
  ghost predicate UsedTo(bitmap: seq<bool>, lim: nat) {
    forall b: nat :: UsedAt(bitmap, lim, b)
  }

  lemma UsedOneMore(bitmap: seq<bool>, b: nat)
    requires UsedTo(bitmap, b) && b < |bitmap| && bitmap[b]
    ensures UsedTo(bitmap, b + 1)
  {
    var lim := b + 1;
    forall x: nat ensures UsedAt(bitmap, lim, x) { assert UsedAt(bitmap, b, x); }
  }

  lemma UsedToEnd(g: Geometry, bitmap: seq<bool>, b: nat, lim: nat)
    requires UsedTo(bitmap, b) && |bitmap| == g.size && (b >= g.size || b >= lim)
    ensures UsedTo(bitmap, lim) && (lim >= g.size ==> AllUsed(g, bitmap))
  {
    forall x: nat ensures UsedAt(bitmap, lim, x) { assert UsedAt(bitmap, b, x); }
    if lim >= g.size { forall x: nat ensures UsedAt(bitmap, g.size, x) { assert UsedAt(bitmap, b, x); } }
  }

  ghost predicate AllUsed(g: Geometry, bitmap: seq<bool>) {
    |bitmap| == g.size && UsedTo(bitmap, g.size)
  }

  /** A transaction: the blocks before and after it, and those that are logged. */
  datatype Txn = Txn(before: seq<Block>, after: seq<Block>, logged: set<nat>)

  /** The transaction stays within one operation's reservation and, if complete, logs every
      block that it changes. */
  ghost predicate TxnOk(g: Geometry, before: seq<Block>, after: seq<Block>, logged: set<nat>, complete: bool) {
    && |logged| <= MAXOPBLOCKS && |logged| <= 6 + BitmapBlocks(g)
    && (complete ==> LoggedBut(before, after, {}, logged, {}))
  }

  /** Transactions one after the other, from before to after; the last may be incomplete. */
  ghost predicate Txns(g: Geometry, txns: seq<Txn>, before: seq<Block>, after: seq<Block>, complete: bool) {
    if txns == [] then after == before
    else
      var t := txns[|txns| - 1];
      t.after == after && TxnOk(g, t.before, t.after, t.logged, complete)
        && Txns(g, txns[..|txns| - 1], before, t.before, true)
  }

  lemma TxnsMore(g: Geometry, txns: seq<Txn>, before: seq<Block>, mid: seq<Block>, after: seq<Block>, logged: set<nat>,
      complete: bool)
    requires Txns(g, txns, before, mid, true) && TxnOk(g, mid, after, logged, complete)
    ensures Txns(g, txns + [Txn(mid, after, logged)], before, after, complete)
  {
    assert (txns + [Txn(mid, after, logged)])[..|txns|] == txns;
  }

  const MAXOPBLOCKS := 10
  const CHUNK := (MAXOPBLOCKS - 1 - 1 - 2) / 2 * BSIZE

  /** A chunk at any offset stays within one operation's reservation. */
  lemma ChunkFits(off: nat, n: nat)
    requires n <= CHUNK
    ensures Touched(off, n) + MayAlloc(off, n) + 1 + 2 <= MAXOPBLOCKS && Touched(off, n) <= 4
  {
    if n > 0 {
      var q, r := off / BSIZE, off % BSIZE;
      assert off == q * BSIZE + r;
      assert (off + n - 1) / BSIZE == q + (r + n - 1) / BSIZE;
      assert r == 0 ==> (r + n - 1) / BSIZE <= 2;
    }
  }

  /** s' is s with k bytes of src at offset off, and stray ones behind them; with no bytes at
      all it is s itself, whatever the offset. */
  ghost predicate Overwritten(s: seq<byte>, s': seq<byte>, off: nat, src: seq<byte>, k: nat, stray: nat) {
    if k + stray == 0 then s' == s else off <= |s| && k + stray <= |src| && s' == Stored(s, off, src, k, stray)
  }

  /** Where a filewrite to off0 stops if only copyLimit bytes can be read: in the chunk of the
      first that cannot, where its block begins. */
  function CopyStop(off0: nat, copyLimit: nat): nat {
    var k := copyLimit / CHUNK * CHUNK;
    k + BlockStart(off0 + k, copyLimit - k)
  }

  lemma CopyStops(off0: nat, n: nat, k: nat, n1: nat, copyLimit: nat, r: nat, stray: nat)
    requires k < n && k % CHUNK == 0 && n1 == Min(n - k, CHUNK) && k <= copyLimit && r <= copyLimit - k && r < n1
    requires Stops(off0 + k, r) && StrayFrom(off0 + k, n1, copyLimit - k, r, stray)
    ensures copyLimit < n && k + r == CopyStop(off0, copyLimit) && k + r + stray == copyLimit
  {
    BoundaryIs(off0 + k, n1, copyLimit - k, r, stray);
    ChunkOf(copyLimit, k);
  }

  lemma ChunkOf(x: nat, k: nat)
    requires k % CHUNK == 0 && k <= x < k + CHUNK
    ensures x / CHUNK * CHUNK == k
  {
    var q := k / 3072;
    assert CHUNK == 3072 && k == 3072 * q && 0 <= x - 3072 * q < 3072;
  }

  /** A file that k bytes were written to at off reaches to their end; an untouched one has
      its size. */
  lemma SizeReached(s: seq<byte>, s': seq<byte>, off: nat, src: seq<byte>, k: nat)
    requires Overwritten(s, s', off, src, k, 0)
    ensures if k > 0 then off + k <= |s'| && off <= |s| else |s'| == |s|
  {
  }

  /** What one more chunk makes of the file, and of the others. */
  lemma WrittenMore(g: Geometry, fs0: Fs, fs1: Fs, fs2: Fs, i: nat, off: nat, src: seq<byte>, k: nat, n1: nat, r: int,
      stray: nat)
    requires UntouchedBut(g, fs0, fs1, i) && UntouchedBut(g, fs1, fs2, i) && i < |fs0.inodes| && k + n1 <= |src|
      && -1 <= r <= n1
    requires Overwritten(Contents(g, fs0, i), Contents(g, fs1, i), off, src, k, 0)
    requires r == -1 ==> fs2 == fs1 && stray == 0
    requires r != -1 ==> r + stray <= n1 && off + k <= |Contents(g, fs1, i)|
    requires r != -1 ==> Contents(g, fs2, i) == Stored(Contents(g, fs1, i), off + k, src[k..k + n1], r, stray)
    ensures UntouchedBut(g, fs0, fs2, i)
    ensures Overwritten(Contents(g, fs0, i), Contents(g, fs2, i), off, src, if r > 0 then k + r else k, stray)
  {
    UntouchedTrans(g, fs0, fs1, fs2, i);
    OverwriteMore(Contents(g, fs0, i), Contents(g, fs1, i), Contents(g, fs2, i), off, src, k, n1, r, stray);
  }

  lemma OverwriteMore(s0: seq<byte>, s1: seq<byte>, s2: seq<byte>, off: nat, src: seq<byte>, k: nat, n1: nat, r: int,
      stray: nat)
    requires k + n1 <= |src| && -1 <= r <= n1 && Overwritten(s0, s1, off, src, k, 0)
    requires r == -1 ==> s2 == s1 && stray == 0
    requires r != -1 ==> r + stray <= n1 && off + k <= |s1| && s2 == Stored(s1, off + k, src[k..k + n1], r, stray)
    ensures Overwritten(s0, s2, off, src, if r > 0 then k + r else k, stray)
  {
    if r != -1 {
      if k == 0 { StoredNone(s0, off, src); }
      if r + stray == 0 {
        StoredNone(s1, off + k, src[k..k + n1]);
      } else {
        StoredTwice(s0, s1, s2, off, src, k, n1, r, stray);
      }
    }
  }

  lemma UntouchedTrans(g: Geometry, fs0: Fs, fs1: Fs, fs2: Fs, i: nat)
    requires UntouchedBut(g, fs0, fs1, i) && UntouchedBut(g, fs1, fs2, i)
    ensures UntouchedBut(g, fs0, fs2, i)
  {
    forall x: nat ensures UntouchedAt(g, fs0, fs2, i, x) {
      assert UntouchedAt(g, fs0, fs1, i, x) && UntouchedAt(g, fs1, fs2, i, x);
    }
  }

  /** Slots already freed: d of the inode's own, and w words of the indirect block. */
  predicate DoneSlot(k: nat, d: nat, w: nat) {
    k < d || NDIRECT < k < NDIRECT + 1 + w
  }

  ghost predicate DoneBit(fs0: Fs, own: Owners, i: nat, bitmap: seq<bool>, d: nat, w: nat, b: nat) {
    b < |bitmap| == |fs0.bitmap| ==>
      (bitmap[b] <==> fs0.bitmap[b] && !(b in own && own[b].inum == i && DoneSlot(own[b].k, d, w)))
  }

  /** bitmap is fs0's with the blocks of inode i's done slots cleared. */
  ghost predicate FreedBits(g: Geometry, fs0: Fs, own: Owners, i: nat, bitmap: seq<bool>, d: nat, w: nat) {
    |bitmap| == |fs0.bitmap| && forall b: nat :: DoneBit(fs0, own, i, bitmap, d, w, b)
  }

  /** The next slot's block, if it has one, is still marked in use, so bfree does not panic;
      clearing it makes the slot done. */
  lemma FreeSlot(g: Geometry, fs0: Fs, own: Owners, i: nat, bitmap: seq<bool>, d: nat, w: nat, k: nat)
    requires Owned(g, fs0, own, {}) && i < |fs0.inodes| && k < NSLOTS && w <= NINDIRECT && d <= NDIRECT
    requires FreedBits(g, fs0, own, i, bitmap, d, w)
    requires (k == d && (d < NDIRECT || w == NINDIRECT)) || (d == NDIRECT && k == NDIRECT + 1 + w)
    ensures var r := Ref(g, fs0, i, k); var d' := if k == d then d + 1 else d; var w' := if k == d then w else w + 1;
      && (r != 0 ==> r < g.size && bitmap[r] && FreedBits(g, fs0, own, i, bitmap[r := false], d', w'))
      && (r == 0 ==> FreedBits(g, fs0, own, i, bitmap, d', w'))
  {
    var r, d', w' := Ref(g, fs0, i, k), if k == d then d + 1 else d, if k == d then w else w + 1;
    assert OwningSlot(g, fs0, own, i, k) && OwnedBlock(g, fs0, own, r) && DoneBit(fs0, own, i, bitmap, d, w, r);
    var bitmap' := if r == 0 then bitmap else bitmap[r := false];
    forall b: nat ensures DoneBit(fs0, own, i, bitmap', d', w', b) {
      assert DoneBit(fs0, own, i, bitmap, d, w, b) && OwnedBlock(g, fs0, own, b);
    }
  }

  /** Once all slots are done, exactly the blocks of the inode are free. */
  lemma AllFreed(g: Geometry, fs0: Fs, own: Owners, i: nat, fs: Fs)
    requires Owned(g, fs0, own, {}) && i < |fs0.inodes| && FreedBits(g, fs0, own, i, fs.bitmap, NDIRECT + 1, NINDIRECT)
    requires fs.blocks == fs0.blocks && fs.inodes == fs0.inodes[i := fs0.inodes[i].(size := 0, addrs := NoAddrs())]
    ensures Truncated(g, fs0, own, i, fs)
  {
    forall b: nat ensures FreedBit(fs0, own, i, fs, b) {
      assert DoneBit(fs0, own, i, fs.bitmap, NDIRECT + 1, NINDIRECT, b) && OwnedBlock(g, fs0, own, b);
    }
  }

  /** Without an indirect block there is nothing more to free. */
  lemma NoIndirect(g: Geometry, fs0: Fs, own: Owners, i: nat, bitmap: seq<bool>)
    requires Owned(g, fs0, own, {}) && i < |fs0.inodes| && fs0.inodes[i].addrs[NDIRECT] == 0
    requires FreedBits(g, fs0, own, i, bitmap, NDIRECT, 0)
    ensures FreedBits(g, fs0, own, i, bitmap, NDIRECT + 1, NINDIRECT)
  {
    var d, w := NDIRECT + 1, NINDIRECT;
    forall b: nat ensures DoneBit(fs0, own, i, bitmap, d, w, b) {
      assert DoneBit(fs0, own, i, bitmap, NDIRECT, 0, b) && OwnedBlock(g, fs0, own, b);
    }
  }

  ghost predicate SameContents(g: Geometry, fs: Fs, fs': Fs, x: nat)
    requires Alike(g, fs, fs')
  {
    x < |fs.inodes| ==> Contents(g, fs', x) == Contents(g, fs, x)
  }

  /** Equal bytes and sizes make equal files. */
  lemma BytesAreContents(g: Geometry, fs: Fs, fs': Fs, x: nat)
    requires Alike(g, fs, fs') && x < |fs.inodes| && fs'.inodes[x].size == fs.inodes[x].size
    requires forall pos: nat :: SameByte(g, fs, fs', x, pos)
    ensures SameContents(g, fs, fs', x)
  {
    forall pos: nat | pos < fs.inodes[x].size ensures Contents(g, fs', x)[pos] == Contents(g, fs, x)[pos] {
      assert SameByte(g, fs, fs', x, pos);
    }
  }

  /** The same addresses cover the same blocks. */
  lemma SameRefsCovered(g: Geometry, fs: Fs, fs': Fs, x: nat, lim: nat)
    requires SameRefs(g, fs, fs') && Covered(g, fs, x, lim)
    ensures Covered(g, fs', x, lim)
  {
    forall bn: nat ensures HasBlock(g, fs', x, lim, bn) {
      assert HasBlock(g, fs, x, lim, bn);
      if bn < MAXFILE { assert SameRef(g, fs, fs', x, SlotOf(bn)); }
    }
  }

  /** A change of type or link count leaves the contents of every file. */
  lemma MetadataFiles(g: Geometry, fs: Fs, own: Owners, i: nat, n: Inode)
    requires Owned(g, fs, own, {}) && i < |fs.inodes| && n.addrs == fs.inodes[i].addrs && n.size == fs.inodes[i].size
    requires forall x: nat :: Dense(g, fs, x)
    ensures var fs' := fs.(inodes := fs.inodes[i := n]);
      && Owned(g, fs', own, {}) && Alike(g, fs, fs')
      && (forall x: nat :: Dense(g, fs', x)) && forall x: nat :: SameContents(g, fs, fs', x)
  {
    var fs' := fs.(inodes := fs.inodes[i := n]);
    MetadataKeeps(g, fs, own, i, n);
    forall x: nat ensures Dense(g, fs', x) && SameContents(g, fs, fs', x) {
      assert Dense(g, fs, x);
      if x < |fs.inodes| {
        SameRefsCovered(g, fs, fs', x, fs.inodes[x].size);
        forall pos: nat ensures SameByte(g, fs, fs', x, pos) { }
        BytesAreContents(g, fs, fs', x);
      }
    }
  }

  lemma Extended(all: seq<byte>, off: nat, tot: nat, m: nat, data: seq<byte>)
    requires off + tot + m <= |all| && data == all[off + tot..off + tot + m]
    ensures all[off..off + tot] + data == all[off..off + (tot + m)]
  {
  }

  lemma TruncatedFiles(g: Geometry, fs: Fs, own: Owners, i: nat, fs': Fs)
    requires Owned(g, fs, own, {}) && i < |fs.inodes| && Truncated(g, fs, own, i, fs')
    requires forall x: nat :: Dense(g, fs, x)
    ensures Owned(g, fs', Disown(own, i), {})
    ensures (forall x: nat :: Dense(g, fs', x)) && UntouchedBut(g, fs, fs', i) && Contents(g, fs', i) == []
  {
    TruncatedKeeps(g, fs, own, i, fs');
    TruncatedRef(g, fs, own, i, fs', i, 0);
    forall x: nat ensures Dense(g, fs', x) && UntouchedAt(g, fs, fs', i, x) {
      assert Dense(g, fs, x);
      if x < |fs.inodes| {
        forall bn: nat ensures HasBlock(g, fs', x, fs'.inodes[x].size, bn) {
          assert HasBlock(g, fs, x, fs.inodes[x].size, bn);
          if bn < MAXFILE { TruncatedRef(g, fs, own, i, fs', x, SlotOf(bn)); }
        }
        if x != i {
          forall pos: nat ensures SameByte(g, fs, fs', x, pos) { }
          BytesAreContents(g, fs, fs', x);
        }
      }
    }
  }

  lemma MappedBelowSize(g: Geometry, fs: Fs, i: nat, pos: nat)
    requires Shape(g, fs) && i < |fs.inodes| && Dense(g, fs, i) && pos < fs.inodes[i].size
    ensures pos / BSIZE < MAXFILE && Ref(g, fs, i, SlotOf(pos / BSIZE)) != 0
  {
    assert pos / BSIZE * BSIZE <= pos;
    assert HasBlock(g, fs, i, fs.inodes[i].size, pos / BSIZE);
  }

  /** Part of a block is the matching part of the file. */
  lemma BlockIsContents(g: Geometry, fs: Fs, i: nat, pos: nat, m: nat)
    requires Shape(g, fs) && i < |fs.inodes| && Dense(g, fs, i) && pos + m <= fs.inodes[i].size
      && pos % BSIZE + m <= BSIZE && m > 0
    requires pos / BSIZE < MAXFILE && 0 < Ref(g, fs, i, SlotOf(pos / BSIZE)) < g.size
    ensures fs.blocks[Ref(g, fs, i, SlotOf(pos / BSIZE))][pos % BSIZE..pos % BSIZE + m]
      == Contents(g, fs, i)[pos..pos + m]
  {
    var r := Ref(g, fs, i, SlotOf(pos / BSIZE));
    var s1, s2 := fs.blocks[r][pos % BSIZE..pos % BSIZE + m], Contents(g, fs, i)[pos..pos + m];
    forall x | 0 <= x < m ensures s1[x] == s2[x] {
      assert (pos + x) / BSIZE == pos / BSIZE && (pos + x) % BSIZE == pos % BSIZE + x;
    }
  }

  const UINT_RANGE := 0x1_0000_0000

  function Min(a: nat, b: nat): nat { if a < b then a else b }

  lemma {:induction false} CountRange(s: set<nat>, lo: nat, n: nat)
    requires forall x :: x in s ==> lo <= x < lo + n
    ensures |s| <= n
    decreases n
  {
    if n > 0 {
      CountRange(s - {lo + n - 1}, lo, n - 1);
      assert s <= (s - {lo + n - 1}) + {lo + n - 1};
      CountUnion(s - {lo + n - 1}, {lo + n - 1});
      if lo + n - 1 in s { assert s == (s - {lo + n - 1}) + {lo + n - 1}; } else { assert s == s - {lo + n - 1}; }
    } else {
      assert s == {};
    }
  }

  /** The bytes of file i. */
  ghost function Contents(g: Geometry, fs: Fs, i: nat): seq<byte>
    requires Shape(g, fs) && i < |fs.inodes|
  {
    seq(fs.inodes[i].size, pos requires 0 <= pos => if pos < MAXFILE * BSIZE then ByteAt(g, fs, i, pos) else 0)
  }

  /** The sequence s with `data` at offset off, longer if need be. */
  function Spliced(s: seq<byte>, off: nat, data: seq<byte>): seq<byte>
    requires off <= |s|
  {
    s[..off] + data + (if off + |data| < |s| then s[off + |data|..] else [])
  }

  ghost predicate UntouchedAt(g: Geometry, fs: Fs, fs': Fs, i: nat, x: nat)
    requires Alike(g, fs, fs')
  {
    x < |fs.inodes| && x != i ==> SameMeta(fs.inodes[x], fs'.inodes[x]) && Contents(g, fs', x) == Contents(g, fs, x)
  }

  /** Every other file keeps its size, its type, its link count and its bytes. */
  ghost predicate UntouchedBut(g: Geometry, fs: Fs, fs': Fs, i: nat) {
    Alike(g, fs, fs') && forall x: nat :: UntouchedAt(g, fs, fs', i, x)
  }

  ghost predicate SameInode(fs: Fs, fs': Fs, i: nat, x: nat) {
    x < |fs.inodes| == |fs'.inodes| && x != i ==> fs'.inodes[x] == fs.inodes[x]
  }

  /** fs2 is fs1 with the size of file i raised to cover the write. */
  ghost predicate Resized(g: Geometry, fs1: Fs, fs2: Fs, i: nat, end: nat) {
    && SameRefs(g, fs1, fs2) && SameBytes(g, fs1, fs2) && i < |fs1.inodes|
    && fs2.inodes[i].size == (if end > fs1.inodes[i].size then end else fs1.inodes[i].size)
    && forall x: nat :: SameInode(fs1, fs2, i, x)
  }

  function Max(a: nat, b: nat): nat { if a > b then a else b }

  /** What a write of r bytes of src at offset off makes of a file s, when `stray` bytes more
      are stored but the size covers only the r. */
  function Stored(s: seq<byte>, off: nat, src: seq<byte>, r: nat, stray: nat): seq<byte>
    requires off <= |s| && r + stray <= |src|
  {
    Spliced(s, off, src[..r + stray])[..Max(|s|, off + r)]
  }

  ghost predicate ByteIs(t: seq<byte>, s: seq<byte>, off: nat, src: seq<byte>, n: nat, y: nat) {
    y < |t| ==> t[y] == if off <= y < off + n && y - off < |src| then src[y - off] else if y < |s| then s[y] else 0
  }

  /** t has length len, the first n bytes of src at off, and the bytes of s elsewhere. */
  ghost predicate BytesAre(t: seq<byte>, s: seq<byte>, off: nat, src: seq<byte>, n: nat, len: nat) {
    |t| == len && forall y: nat :: ByteIs(t, s, off, src, n, y)
  }

  lemma StoredIs(s: seq<byte>, off: nat, src: seq<byte>, r: nat, stray: nat, t: seq<byte>)
    requires off <= |s| && r + stray <= |src|
    ensures t == Stored(s, off, src, r, stray) <==> BytesAre(t, s, off, src, r + stray, Max(|s|, off + r))
  {
    var u, n := Stored(s, off, src, r, stray), r + stray;
    forall y: nat ensures ByteIs(u, s, off, src, n, y) { }
    if BytesAre(t, s, off, src, n, |u|) {
      forall y: nat | y < |t| ensures t[y] == u[y] {
        assert ByteIs(t, s, off, src, n, y) && ByteIs(u, s, off, src, n, y);
      }
    }
  }

  lemma StoredNone(s: seq<byte>, off: nat, src: seq<byte>)
    ensures off <= |s| ==> Stored(s, off, src, 0, 0) == s
  {
  }

  lemma BytesTwice(s0: seq<byte>, s1: seq<byte>, s2: seq<byte>, off: nat, src: seq<byte>, k: nat, part: seq<byte>,
      n: nat, len: nat)
    requires k + |part| <= |src| && n <= |part| && part == src[k..k + |part|] && len <= Max(|s1|, off + k + n)
    requires BytesAre(s1, s0, off, src, k, Max(|s0|, off + k)) && BytesAre(s2, s1, off + k, part, n, len)
    ensures BytesAre(s2, s0, off, src, k + n, len)
  {
    var m, mid := k + n, off + k;
    forall y: nat ensures ByteIs(s2, s0, off, src, m, y) {
      assert ByteIs(s1, s0, off, src, k, y) && ByteIs(s2, s1, mid, part, n, y);
      if mid <= y < mid + n { assert part[y - mid] == src[y - off]; }
    }
  }

  /** Two writes, the second where the first ends, amount to one. */
  lemma StoredTwice(s0: seq<byte>, s1: seq<byte>, s2: seq<byte>, off: nat, src: seq<byte>, k: nat, n1: nat, r: nat,
      stray: nat)
    requires off <= |s0| && k + n1 <= |src| && r + stray <= n1 && s1 == Stored(s0, off, src, k, 0)
    requires off + k <= |s1| && s2 == Stored(s1, off + k, src[k..k + n1], r, stray)
    ensures s2 == Stored(s0, off, src, k + r, stray)
  {
    StoredIs(s0, off, src, k, 0, s1);
    StoredIs(s1, off + k, src[k..k + n1], r, stray, s2);
    BytesTwice(s0, s1, s2, off, src, k, src[k..k + n1], r + stray, Max(|s1|, off + k + r));
    StoredIs(s0, off, src, k + r, stray, s2);
  }

  /** Without stray bytes that is a plain splice. */
  lemma StoredAll(s: seq<byte>, off: nat, src: seq<byte>, r: nat)
    requires off <= |s| && r <= |src|
    ensures Stored(s, off, src, r, 0) == Spliced(s, off, src[..r])
  {
  }

  /** With them it is one exactly if they lie past the end, or are what the file has there. */
  lemma StoredIff(s: seq<byte>, off: nat, src: seq<byte>, r: nat, stray: nat)
    requires off <= |s| && r + stray <= |src|
    ensures Stored(s, off, src, r, stray) == Spliced(s, off, src[..r])
      <==> forall x :: r <= x < r + stray && off + x < |s| ==> src[x] == s[off + x]
  {
    var t, u := Stored(s, off, src, r, stray), Spliced(s, off, src[..r]);
    assert |t| == |u| == Max(|s|, off + r);
    forall x | r <= x < r + stray && off + x < |s| ensures t[off + x] == src[x] && u[off + x] == s[off + x] { }
    if forall x :: r <= x < r + stray && off + x < |s| ==> src[x] == s[off + x] {
      forall y | 0 <= y < |t| ensures t[y] == u[y] {
        if r <= y - off < r + stray && y < |s| { assert src[y - off] == s[off + (y - off)]; }
      }
    }
  }

  /** Where the block begins that byte n of a write to offset off goes to. */
  function BlockStart(off: nat, n: nat): (t: nat)
    ensures t <= n && (t == 0 || (off + t) % BSIZE == 0)
  {
    if off % BSIZE + n < BSIZE then 0 else n - (off + n) % BSIZE
  }

  /** If only copyLimit bytes of src can be read, those of them that go to the last block are
      past the end of file s, or what it has there. */
  ghost predicate TailSame(s: seq<byte>, off: nat, src: seq<byte>, copyLimit: nat) {
    copyLimit < |src| ==>
      forall x :: BlockStart(off, copyLimit) <= x < copyLimit && off + x < |s| ==> src[x] == s[off + x]
  }

  /** A write is as its count says exactly if the tail of what can be read does not show. */
  lemma CountedIff(g: Geometry, fs: Fs, i: nat, s: seq<byte>, off: nat, src: seq<byte>, copyLimit: nat, r: nat,
      stray: nat)
    requires Dense(g, fs, i) && i < |fs.inodes| && off <= |s| && r + stray <= |src| && r <= copyLimit
    requires Contents(g, fs, i) == Stored(s, off, src, r, stray) && (r == |src| ==> stray == 0)
    requires r < |src| ==>
      Stops(off, r) && ((NoBlockAt(g, fs, i, off + r) && stray == 0) || StrayFrom(off, |src|, copyLimit, r, stray))
    ensures Contents(g, fs, i) == Spliced(s, off, src[..r]) <==> TailSame(s, off, src, copyLimit)
  {
    StoredIff(s, off, src, r, stray);
    if r < |src| && copyLimit < |src| {
      BoundaryOrder(off, copyLimit, r);
      if StrayFrom(off, |src|, copyLimit, r, stray) {
        BoundaryIs(off, |src|, copyLimit, r, stray);
      } else {
        assert HasBlock(g, fs, i, fs.inodes[i].size, (off + r) / BSIZE);
        assert |s| <= off + r;
      }
    }
  }

  lemma BoundaryOrder(off: nat, n: nat, r: nat)
    requires r <= n && Stops(off, r)
    ensures r <= BlockStart(off, n)
  {
  }

  lemma BoundaryIs(off: nat, n: nat, copyLimit: nat, r: nat, stray: nat)
    requires r <= copyLimit && r < n && Stops(off, r) && StrayFrom(off, n, copyLimit, r, stray)
    ensures r == BlockStart(off, copyLimit) && r + stray == copyLimit
  {
  }

  lemma WrittenDense(g: Geometry, fs0: Fs, fs1: Fs, fs2: Fs, i: nat, off: nat, src: seq<byte>, r: nat, stray: nat)
    requires r + stray <= |src| && Written(g, fs0, fs1, i, off, src[..r + stray]) && off + |src| <= MAXFILE * BSIZE
      && Resized(g, fs1, fs2, i, off + r)
    requires forall x: nat :: Dense(g, fs0, x)
    ensures forall x: nat :: Dense(g, fs2, x)
  {
    forall x: nat ensures Dense(g, fs2, x) {
      assert Dense(g, fs0, x) && SameMetaAt(fs0, fs1, x) && SameInode(fs1, fs2, i, x);
      if x < |fs0.inodes| {
        CoveredGrows(g, fs0, fs1, i, x, fs0.inodes[x].size);
        SameRefsCovered(g, fs1, fs2, x, fs0.inodes[x].size);
        if x == i {
          SameRefsCovered(g, fs1, fs2, i, off + (r + stray));
          forall bn: nat ensures HasBlock(g, fs2, i, fs2.inodes[i].size, bn) {
            assert HasBlock(g, fs2, i, off + (r + stray), bn) && HasBlock(g, fs2, i, fs0.inodes[i].size, bn);
          }
        }
      }
    }
  }

  lemma WrittenContents(g: Geometry, fs0: Fs, fs1: Fs, fs2: Fs, i: nat, off: nat, src: seq<byte>, r: nat, stray: nat)
    requires r + stray <= |src| && Written(g, fs0, fs1, i, off, src[..r + stray]) && off + |src| <= MAXFILE * BSIZE
      && Resized(g, fs1, fs2, i, off + r)
    requires off <= fs0.inodes[i].size <= MAXFILE * BSIZE
    ensures Contents(g, fs2, i) == Stored(Contents(g, fs0, i), off, src, r, stray) && UntouchedBut(g, fs0, fs2, i)
  {
    assert SameMetaAt(fs0, fs1, i);
    forall pos: nat | pos < fs2.inodes[i].size
      ensures Contents(g, fs2, i)[pos] == Stored(Contents(g, fs0, i), off, src, r, stray)[pos]
    {
      assert SameByte(g, fs1, fs2, i, pos) && PatchedByte(g, fs0, fs1, i, off, src[..r + stray], i, pos);
    }
    forall x: nat ensures UntouchedAt(g, fs0, fs2, i, x) {
      if x < |fs0.inodes| && x != i { OtherContents(g, fs0, fs1, fs2, i, off, src[..r + stray], x); }
    }
  }

  lemma OtherContents(g: Geometry, fs0: Fs, fs1: Fs, fs2: Fs, i: nat, off: nat, data: seq<byte>, x: nat)
    requires Written(g, fs0, fs1, i, off, data) && SameBytes(g, fs1, fs2) && x < |fs0.inodes| && x != i
      && SameInode(fs1, fs2, i, x)
    ensures SameMeta(fs0.inodes[x], fs2.inodes[x]) && Contents(g, fs2, x) == Contents(g, fs0, x)
  {
    assert SameMetaAt(fs0, fs1, x);
    forall pos: nat ensures SameByte(g, fs0, fs2, x, pos) {
      assert SameByte(g, fs1, fs2, x, pos) && PatchedByte(g, fs0, fs1, i, off, data, x, pos);
    }
    BytesAreContents(g, fs0, fs2, x);
  }

  /** fs is fs0 with `data` written at offset off of file i, blocks allocated as needed. */
  ghost predicate Written(g: Geometry, fs0: Fs, fs: Fs, i: nat, off: nat, data: seq<byte>) {
    Grows(g, fs0, fs, i) && Covered(g, fs, i, off + |data|) && Patched(g, fs0, fs, i, off, data)
  }

  /** A block of the file as it was is there now. */
  lemma OldBlock(g: Geometry, fs0: Fs, fs1: Fs, i: nat, off: nat, end: nat)
    requires Grows(g, fs0, fs1, i) && off < end && off / BSIZE < MAXFILE
    ensures Covered(g, fs0, i, end) ==> Ref(g, fs1, i, SlotOf(off / BSIZE)) != 0
  {
    assert off / BSIZE * BSIZE <= off;
    if Covered(g, fs0, i, end) {
      assert HasBlock(g, fs0, i, end, off / BSIZE) && GrownRef(g, fs0, fs1, i, i, SlotOf(off / BSIZE));
    }
  }

  lemma StartedBlock(g: Geometry, fs: Fs, i: nat, off: nat)
    requires Covered(g, fs, i, off) && off / BSIZE < MAXFILE
    ensures off % BSIZE != 0 ==> Ref(g, fs, i, SlotOf(off / BSIZE)) != 0
  {
    assert off / BSIZE * BSIZE + off % BSIZE == off;
    assert HasBlock(g, fs, i, off, off / BSIZE);
  }

  lemma WrittenNext(g: Geometry, fs0: Fs, fs1: Fs, fs2: Fs, i: nat, off: nat, src: seq<byte>, tot: nat, m: nat)
    requires tot + m <= |src| && (off + tot) % BSIZE + m <= BSIZE && (off + tot) / BSIZE < MAXFILE
    requires Written(g, fs0, fs1, i, off, src[..tot]) && Grows(g, fs1, fs2, i)
    requires Ref(g, fs2, i, SlotOf((off + tot) / BSIZE)) != 0 && Patched(g, fs1, fs2, i, off + tot, src[tot..tot + m])
    ensures Written(g, fs0, fs2, i, off, src[..tot + m])
  {
    GrowsTrans(g, fs0, fs1, fs2, i);
    CoveredGrows(g, fs1, fs2, i, i, off + tot);
    CoveredNext(g, fs2, i, off + tot, m);
    PatchExtend(g, fs0, fs1, fs2, i, off, src, tot, m);
  }

  lemma WrittenSame(g: Geometry, fs0: Fs, fs1: Fs, fs2: Fs, i: nat, off: nat, data: seq<byte>)
    requires Written(g, fs0, fs1, i, off, data) && Grows(g, fs1, fs2, i) && SameBytes(g, fs1, fs2)
    ensures Written(g, fs0, fs2, i, off, data)
  {
    GrowsTrans(g, fs0, fs1, fs2, i);
    CoveredGrows(g, fs1, fs2, i, i, off + |data|);
    forall x: nat, pos: nat ensures PatchedByte(g, fs0, fs2, i, off, data, x, pos) {
      assert PatchedByte(g, fs0, fs1, i, off, data, x, pos) && SameByte(g, fs1, fs2, x, pos);
    }
  }

  // ----- facts about a write under way, wrapped so that loops need not see inside them

  /** From fs1 to fs2 one block of file i, at address addr, got `data` at offset off. */
  ghost predicate Stepped(g: Geometry, fs1: Fs, fs2: Fs, own: Owners, i: nat, off: nat, data: seq<byte>, addr: nat,
      wrap: nat)
    decreases wrap
  {
    if wrap > 0 then Stepped(g, fs1, fs2, own, i, off, data, addr, wrap - 1)
    else
      && Owned(g, fs2, own, {}) && Grows(g, fs1, fs2, i) && Patched(g, fs1, fs2, i, off, data)
      && off / BSIZE < MAXFILE && addr == Ref(g, fs2, i, SlotOf(off / BSIZE)) && (addr == 0 ==> data == [])
  }

  lemma {:induction false} SteppedIs(g: Geometry, fs1: Fs, fs2: Fs, own: Owners, i: nat, off: nat, data: seq<byte>,
      addr: nat, wrap: nat)
    ensures Stepped(g, fs1, fs2, own, i, off, data, addr, wrap) <==> Stepped(g, fs1, fs2, own, i, off, data, addr, 0)
    decreases wrap
  {
    if wrap > 0 { SteppedIs(g, fs1, fs2, own, i, off, data, addr, wrap - 1); }
  }

  /** Splicing bytes into the block at off is such a step. */
  lemma CopyStepped(g: Geometry, fs0: Fs, fs1: Fs, own: Owners, i: nat, off: nat, a: nat, src: seq<byte>, wrap: nat)
    requires Owned(g, fs1, own, {}) && i < |fs1.inodes| && off / BSIZE < MAXFILE && off % BSIZE + |src| <= BSIZE
    requires a == Ref(g, fs1, i, SlotOf(off / BSIZE)) && a != 0 && SameBytes(g, fs0, fs1) && Grows(g, fs0, fs1, i)
    ensures g.dataStart <= a < g.size && |fs1.blocks| == g.size && |fs1.blocks[a]| == BSIZE
    ensures var v := fs1.blocks[a][..off % BSIZE] + src + fs1.blocks[a][off % BSIZE + |src|..];
      |v| == BSIZE && Stepped(g, fs0, Fs(fs1.bitmap, fs1.blocks[a := v], fs1.inodes), own, i, off, src, a, wrap)
  {
    var at, bn := off % BSIZE, off / BSIZE;
    assert OwningSlot(g, fs1, own, i, SlotOf(bn)) && OwnedBlock(g, fs1, own, a);
    var v := fs1.blocks[a][..at] + src + fs1.blocks[a][at + |src|..];
    var fs2 := fs1.(blocks := fs1.blocks[a := v]);
    WriteDataKeeps(g, fs1, own, i, bn, v);
    PatchIsWrite(g, fs0, fs1, fs2, i, bn, at, off, src, v);
    assert SameRef(g, fs1, fs2, i, SlotOf(bn));
    SteppedIs(g, fs0, fs2, own, i, off, src, a, wrap);
  }

  /** File i has no block for position pos. */
  ghost predicate NoBlockAt(g: Geometry, fs: Fs, i: nat, pos: nat) {
    Shape(g, fs) && i < |fs.inodes| && pos / BSIZE < MAXFILE && Ref(g, fs, i, SlotOf(pos / BSIZE)) == 0
  }

  /** From fs0 to fs tot bytes of src were written to file i at offset off, and `stray` more
      that are in block sb. */
  ghost predicate Going(g: Geometry, fs0: Fs, fs: Fs, own: Owners, i: nat, off: nat, src: seq<byte>, tot: nat,
      stray: nat, sb: nat, wrap: nat)
    decreases wrap
  {
    if wrap > 0 then Going(g, fs0, fs, own, i, off, src, tot, stray, sb, wrap - 1)
    else
      && Owned(g, fs, own, {}) && tot + stray <= |src| && Written(g, fs0, fs, i, off, src[..tot + stray])
      && (stray > 0 ==> (off + tot) / BSIZE < MAXFILE && sb == Ref(g, fs, i, SlotOf((off + tot) / BSIZE)))
  }

  lemma {:induction false} GoingIs(g: Geometry, fs0: Fs, fs: Fs, own: Owners, i: nat, off: nat, src: seq<byte>,
      tot: nat, stray: nat, sb: nat, wrap: nat)
    ensures Going(g, fs0, fs, own, i, off, src, tot, stray, sb, wrap) <==>
      Going(g, fs0, fs, own, i, off, src, tot, stray, sb, 0)
    decreases wrap
  {
    if wrap > 0 { GoingIs(g, fs0, fs, own, i, off, src, tot, stray, sb, wrap - 1); }
  }

  ghost predicate CoveredFrom(g: Geometry, fs: Fs, i: nat, lim: nat, wrap: nat)
    decreases wrap
  {
    if wrap > 0 then CoveredFrom(g, fs, i, lim, wrap - 1) else Covered(g, fs, i, lim)
  }

  lemma {:induction false} CoveredIs(g: Geometry, fs: Fs, i: nat, lim: nat, wrap: nat)
    ensures CoveredFrom(g, fs, i, lim, wrap) <==> Covered(g, fs, i, lim)
    decreases wrap
  {
    if wrap > 0 { CoveredIs(g, fs, i, lim, wrap - 1); }
  }

  lemma CoveredLess(g: Geometry, fs: Fs, i: nat, lim: nat, less: nat)
    requires Covered(g, fs, i, lim)
    ensures less <= lim ==> Covered(g, fs, i, less)
  {
    if less <= lim { forall bn: nat ensures HasBlock(g, fs, i, less, bn) { assert HasBlock(g, fs, i, lim, bn); } }
  }

  lemma WrittenNothing(g: Geometry, fs: Fs, i: nat, off: nat, src: seq<byte>)
    requires Dense(g, fs, i) && i < |fs.inodes| && off <= fs.inodes[i].size
    ensures Written(g, fs, fs, i, off, src[..0])
  {
    var none := src[..0];
    CoveredLess(g, fs, i, fs.inodes[i].size, off);
    forall x: nat ensures SameMetaAt(fs, fs, x) { }
    forall x: nat, k: nat ensures GrownRef(g, fs, fs, i, x, k) { }
    forall x: nat, pos: nat ensures PatchedByte(g, fs, fs, i, off, none, x, pos) { }
  }

  /** A write starts at an offset within the file, all of which is allocated. */
  lemma GoingBegin(g: Geometry, fs: Fs, own: Owners, i: nat, off: nat, src: seq<byte>, wrap: nat)
    requires Owned(g, fs, own, {}) && i < |fs.inodes| && Dense(g, fs, i) && off <= fs.inodes[i].size
    ensures Going(g, fs, fs, own, i, off, src, 0, 0, 0, wrap)
    ensures off + |src| <= fs.inodes[i].size ==> CoveredFrom(g, fs, i, off + |src|, wrap)
  {
    WrittenNothing(g, fs, i, off, src);
    GoingIs(g, fs, fs, own, i, off, src, 0, 0, 0, wrap);
    CoveredLess(g, fs, i, fs.inodes[i].size, off + |src|);
    CoveredIs(g, fs, i, off + |src|, wrap);
  }

  /** With no stray bytes it does not matter which block they are in. */
  lemma GoingOn(g: Geometry, fs0: Fs, fs: Fs, own: Owners, i: nat, off: nat, src: seq<byte>, tot: nat, sb: nat,
      wrap: nat)
    requires Going(g, fs0, fs, own, i, off, src, tot, 0, sb, wrap)
    ensures Going(g, fs0, fs, own, i, off, src, tot, 0, 0, wrap)
  {
    GoingIs(g, fs0, fs, own, i, off, src, tot, 0, sb, wrap);
    GoingIs(g, fs0, fs, own, i, off, src, tot, 0, 0, wrap);
  }

  /** What the next pass may rely on. */
  lemma GoingStart(g: Geometry, fs0: Fs, fs: Fs, own: Owners, i: nat, off0: nat, src: seq<byte>, tot: nat, wrap: nat)
    requires tot < |src| && off0 + |src| <= MAXFILE * BSIZE && Going(g, fs0, fs, own, i, off0, src, tot, 0, 0, wrap)
    ensures Owned(g, fs, own, {}) && i < |fs.inodes| && (off0 + tot) / BSIZE < MAXFILE
    ensures (off0 + tot) % BSIZE != 0 || CoveredFrom(g, fs0, i, off0 + |src|, wrap) ==>
      Ref(g, fs, i, SlotOf((off0 + tot) / BSIZE)) != 0
  {
    GoingIs(g, fs0, fs, own, i, off0, src, tot, 0, 0, wrap);
    StartedBlock(g, fs, i, off0 + tot);
    OldBlock(g, fs0, fs, i, off0 + tot, off0 + |src|);
    CoveredIs(g, fs0, i, off0 + |src|, wrap);
  }

  /** A pass takes the write further by the bytes it stores, counted or stray. */
  lemma GoingNext(g: Geometry, fs0: Fs, fs1: Fs, own1: Owners, fs2: Fs, own2: Owners, i: nat, off0: nat, src: seq<byte>,
      tot: nat, put: nat, addr: nat,
                  next: nat, stray: nat, wrap: nat)
    requires tot + put == next + stray <= |src| && (off0 + tot) % BSIZE + put <= BSIZE && (stray == 0 || next == tot)
    requires Going(g, fs0, fs1, own1, i, off0, src, tot, 0, 0, wrap)
    requires Stepped(g, fs1, fs2, own2, i, off0 + tot, src[tot..tot + put], addr, wrap)
    ensures Going(g, fs0, fs2, own2, i, off0, src, next, stray, addr, wrap)
    ensures addr == 0 ==> NoBlockAt(g, fs2, i, off0 + tot)
  {
    GoingIs(g, fs0, fs1, own1, i, off0, src, tot, 0, 0, wrap);
    SteppedIs(g, fs1, fs2, own2, i, off0 + tot, src[tot..tot + put], addr, wrap);
    if addr != 0 {
      WrittenNext(g, fs0, fs1, fs2, i, off0, src, tot, put);
    } else {
      PatchedSame(g, fs1, fs2, i, off0 + tot);
      WrittenSame(g, fs0, fs1, fs2, i, off0, src[..tot]);
    }
    GoingIs(g, fs0, fs2, own2, i, off0, src, next, stray, addr, wrap);
  }

  lemma PartOfPart(src: seq<byte>, tot: nat, m: nat, put: nat)
    requires tot + m <= |src| && put <= m
    ensures src[tot..tot + m][..put] == src[tot..tot + put]
  {
  }

  lemma PatchedSame(g: Geometry, fs: Fs, fs': Fs, i: nat, off: nat)
    requires Patched(g, fs, fs', i, off, [])
    ensures SameBytes(g, fs, fs')
  {
    forall x: nat, pos: nat ensures SameByte(g, fs, fs', x, pos) { assert PatchedByte(g, fs, fs', i, off, [], x, pos); }
  }

  lemma PatchNothing(g: Geometry, fs: Fs, fs': Fs, i: nat, off: nat, data: seq<byte>)
    requires SameBytes(g, fs, fs')
    ensures Patched(g, fs, fs', i, off, data[..0])
  {
    var none := data[..0];
    forall x: nat, pos: nat ensures PatchedByte(g, fs, fs', i, off, none, x, pos) {
      assert SameByte(g, fs, fs', x, pos);
    }
  }

  lemma CountUnion(s: set<nat>, t: set<nat>)
    ensures |s + t| <= |s| + |t|
  {
    assert s + t == s + (t - s);
    assert t == (t - s) + (t * s);
  }

  function ChunkSize(off: nat, left: nat): (m: nat)
    ensures m <= left && off % BSIZE + m <= BSIZE && (left > 0 ==> m > 0)
  {
    if left < BSIZE - off % BSIZE then left else BSIZE - off % BSIZE
  }

  /** A write that stops early has written nothing, or up to a block boundary. */
  predicate Stops(off: nat, tot: nat) {
    tot == 0 || (off + tot) % BSIZE == 0
  }

  /** A copy of n bytes to off0 stops after tot bytes because only copyLimit can be read; the
      pass that fails still stores the `stray` bytes before that limit. */
  predicate StrayFrom(off0: nat, n: nat, copyLimit: nat, tot: nat, stray: nat) {
    && copyLimit < n && copyLimit < tot + ChunkSize(off0 + tot, if tot < n then n - tot else 0)
    && stray == if copyLimit < tot then 0 else copyLimit - tot
  }

  /** After c passes, tot bytes of n copied, with data blocks D and bitmap blocks B logged. */
  ghost predicate Counted(off0: nat, n: nat, tot: nat, c: nat, D: set<nat>, B: set<nat>, newInd: bool) {
    && |D| <= c <= Touched(off0, n)
    && |B| <= Allocs(off0, c) + (if newInd then 1 else 0)
    && (tot < n ==> c == (off0 + tot) / BSIZE - off0 / BSIZE && Stops(off0, tot) && (tot == 0 ==> c == 0))
  }

  lemma CountStep(off0: nat, n: nat, tot: nat, c: nat, D: set<nat>, B: set<nat>, a: set<nat>, bm: set<nat>, ind1: bool,
      ind2: bool, next: nat)
    requires tot < n && next == tot + ChunkSize(off0 + tot, n - tot)
    requires Counted(off0, n, tot, c, D, B, ind1) && |a| <= 1
    requires (off0 + tot) % BSIZE != 0 ==> bm == {}
    requires |bm| <= 1 + (if ind2 && !ind1 then 1 else 0) && (ind1 ==> ind2)
    ensures Counted(off0, n, next, c + 1, D + a, B + bm, ind2)
    ensures |D + a| <= Touched(off0, n) && |B + bm| <= MayAlloc(off0, n) + (if ind2 then 1 else 0)
  {
    CountUnion(D, a);
    CountUnion(B, bm);
    NextBlock(off0, tot, n, c);
  }

  lemma NextBlock(off0: nat, tot: nat, n: nat, c: nat)
    requires tot < n && c == (off0 + tot) / BSIZE - off0 / BSIZE
    ensures var t := tot + ChunkSize(off0 + tot, n - tot);
      c < Touched(off0, n) && (t < n ==> c + 1 == (off0 + t) / BSIZE - off0 / BSIZE && (off0 + t) % BSIZE == 0)
  {
  }

  /** Blocks of a file that a write of n bytes at off touches. */
  function Touched(off: nat, n: nat): nat {
    if n == 0 then 0 else (off + n - 1) / BSIZE - off / BSIZE + 1
  }

  /** Of the first c blocks a write at off touches, how many can be new: not the first one
      if the write starts inside it. */
  function Allocs(off: nat, c: nat): nat {
    if off % BSIZE != 0 && c > 0 then c - 1 else c
  }

  function MayAlloc(off: nat, n: nat): nat {
    Allocs(off, Touched(off, n))
  }

  lemma CoveredNext(g: Geometry, fs: Fs, i: nat, off: nat, m: nat)
    requires Covered(g, fs, i, off) && m <= BSIZE - off % BSIZE && off / BSIZE < MAXFILE
    requires Ref(g, fs, i, SlotOf(off / BSIZE)) != 0
    ensures Covered(g, fs, i, off + m)
  {
    var lim := off + m;
    forall bn: nat ensures HasBlock(g, fs, i, lim, bn) {
      assert HasBlock(g, fs, i, off, bn);
      assert bn * BSIZE < lim ==> bn == off / BSIZE || bn * BSIZE < off;
    }
  }

  lemma PatchExtend(g: Geometry, fs0: Fs, fs1: Fs, fs2: Fs, i: nat, off: nat, src: seq<byte>, tot: nat, m: nat)
    requires tot + m <= |src| && Patched(g, fs0, fs1, i, off, src[..tot])
      && Patched(g, fs1, fs2, i, off + tot, src[tot..tot + m])
    ensures Patched(g, fs0, fs2, i, off, src[..tot + m])
  {
    var data, mid := src[..tot + m], off + tot;
    forall x: nat, pos: nat ensures PatchedByte(g, fs0, fs2, i, off, data, x, pos) {
      assert PatchedByte(g, fs0, fs1, i, off, src[..tot], x, pos)
        && PatchedByte(g, fs1, fs2, i, mid, src[tot..tot + m], x, pos);
    }
  }

  ghost predicate PatchedByte(g: Geometry, fs: Fs, fs': Fs, i: nat, pos0: nat, data: seq<byte>, x: nat, pos: nat)
    requires Alike(g, fs, fs')
  {
    x < |fs.inodes| && pos < MAXFILE * BSIZE ==>
      ByteAt(g, fs', x, pos) == if x == i && pos0 <= pos < pos0 + |data| then data[pos - pos0]
        else ByteAt(g, fs, x, pos)
  }

  /** fs' is fs with `data` at byte offset `pos0` of file i. */
  ghost predicate Patched(g: Geometry, fs: Fs, fs': Fs, i: nat, pos0: nat, data: seq<byte>) {
    Alike(g, fs, fs') && forall x: nat, pos: nat :: PatchedByte(g, fs, fs', i, pos0, data, x, pos)
  }

  /** Rewriting one block with data spliced in at offset `at` patches the file, and grows it
      in no other way. */
  lemma PatchIsWrite(g: Geometry, fs0: Fs, fs1: Fs, fs2: Fs, i: nat, bn: nat, at: nat, off: nat, data: seq<byte>,
      v: Block)
    requires SameBytes(g, fs0, fs1) && Grows(g, fs0, fs1, i) && bn < MAXFILE && at + |data| <= BSIZE
      && off == bn * BSIZE + at
    requires SameRefs(g, fs1, fs2) && fs2.inodes == fs1.inodes
    requires Ref(g, fs1, i, SlotOf(bn)) != 0 && Ref(g, fs1, i, SlotOf(bn)) < g.size
    requires v == fs1.blocks[Ref(g, fs1, i, SlotOf(bn))][..at] + data
      + fs1.blocks[Ref(g, fs1, i, SlotOf(bn))][at + |data|..]
    requires forall x: nat, pos: nat :: RewrittenByte(g, fs1, fs2, i, bn, v, x, pos)
    ensures Patched(g, fs0, fs2, i, off, data) && Grows(g, fs0, fs2, i)
  {
    forall x: nat, pos: nat ensures PatchedByte(g, fs0, fs2, i, off, data, x, pos) {
      assert SameByte(g, fs0, fs1, x, pos) && RewrittenByte(g, fs1, fs2, i, bn, v, x, pos);
      if x == i && pos / BSIZE == bn { assert pos == bn * BSIZE + pos % BSIZE; }
    }
    forall x: nat ensures SameMetaAt(fs0, fs2, x) { assert SameMetaAt(fs0, fs1, x); }
    forall x: nat, k: nat ensures GrownRef(g, fs0, fs2, i, x, k) {
      assert GrownRef(g, fs0, fs1, i, x, k) && SameRef(g, fs1, fs2, x, k);
    }
  }

  // ----- a source buffer that ends within a block

  const SMALL_GEOMETRY := Geometry(4, 2, 0, 1)

  /** A disk with one file, inode 1, of four zero bytes. */
  function SmallDisk(): Fs {
    Fs([true, true, true, false], seq(4, _ => Zeros(BSIZE)),
      [Inode(0, 0, 0, NoAddrs()), Inode(2, 1, 4, NoAddrs()[0 := 2])])
  }

  lemma SmallOwned()
    ensures Owned(SMALL_GEOMETRY, SmallDisk(), map[2 := Slot(1, 0)], {})
    ensures Dense(SMALL_GEOMETRY, SmallDisk(), 0) && Dense(SMALL_GEOMETRY, SmallDisk(), 1)
    ensures Contents(SMALL_GEOMETRY, SmallDisk(), 1) == [0, 0, 0, 0]
  {
    var g, fs, own := SMALL_GEOMETRY, SmallDisk(), map[2 := Slot(1, 0)];
    forall i, k | 0 <= i < |fs.inodes| && 0 <= k < NSLOTS ensures OwningSlot(g, fs, own, i, k) {
      assert fs.inodes[i].addrs[NDIRECT] == 0;
    }
  }

  method SmallImage() returns (fs: FileSystem)
    ensures fresh(fs) && fs.Valid() && fs.g == SMALL_GEOMETRY && fs.Disk() == SmallDisk()
    ensures Contents(fs.g, fs.Disk(), 1) == [0, 0, 0, 0]
  {
    fs := new FileSystem(SMALL_GEOMETRY, 2);
    fs.ChangeBit(2, true);
    fs.inodes := SmallDisk().inodes;
    fs.dinodes := fs.inodes;
    fs.own := map[2 := Slot(1, 0)];
    assert fs.Disk() == SmallDisk();
    SmallOwned();
  }

  lemma StrayBytes()
    ensures Stored([0, 0, 0, 0], 0, [7, 7, 7, 7], 0, 2) == [7, 7, 0, 0]
  {
    assert [7, 7, 7, 7][..2] == [7, 7];
  }

  lemma NoneCounted(r: int)
    requires 0 <= r <= 2 && Stops(0, r)
    ensures r == 0
  {
  }

  /** Four bytes are to be written to it, of which two can be read: the call reports that
      nothing was written, and two bytes of the file have changed. */
  method BadPointer() returns (fs: FileSystem, r: int)
    ensures fs.Valid() && r == 0 && |fs.inodes| == 2 && Contents(fs.g, fs.Disk(), 1) == [7, 7, 0, 0]
  {
    fs := SmallImage();
    ghost var W, stray;
    r, W, stray := fs.Writei(1, [7, 7, 7, 7], 0, 2);
    NoneCounted(r);
    assert stray == 2 by {
      assert Dense(fs.g, fs.Disk(), 1) && HasBlock(fs.g, fs.Disk(), 1, fs.inodes[1].size, 0);
    }
    StrayBytes();
  }
}
