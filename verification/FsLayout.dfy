/**
  On-disk layout of files in kernel/fs.c: the free bitmap, inodes with NDIRECT direct
  block addresses and one indirect block, and who owns which block.
 */
module FsLayout {

  const BSIZE := 1024
  const NDIRECT := 12
  const NINDIRECT := 256
  const MAXFILE := 268
  const NSLOTS := 269        // NDIRECT direct, the indirect block, its NINDIRECT words
  const BPB := 8192
  const IPB := 16

  type byte = x: int | 0 <= x < 256

  type Block = seq<byte>

  predicate IsZero(b: Block) {
    |b| == BSIZE && forall i :: 0 <= i < BSIZE ==> b[i] == 0
  }

  function Zeros(n: nat): (b: Block)
    ensures |b| == n && forall i :: 0 <= i < n ==> b[i] == 0
  {
    seq(n, _ => 0)
  }

  datatype Inode = Inode(typ: nat, nlink: nat, size: nat, addrs: seq<nat>)

  /** The mutable part of the disk that files live in. */
  datatype Fs = Fs(bitmap: seq<bool>, blocks: seq<Block>, inodes: seq<Inode>)

  /** Where the data blocks, the bitmap and the inodes start. */
  datatype Geometry = Geometry(size: nat, dataStart: nat, bmapStart: nat, inodeStart: nat)

  /** A place that can hold a block address. */
  datatype Slot = Slot(inum: nat, k: nat)

  type Owners = map<nat, Slot>

  // ----- 32-bit words in a block, low byte first

  function Join(b0: int, b1: int, b2: int, b3: int): int {
    b0 + 256 * b1 + 65536 * b2 + 16777216 * b3
  }

  lemma SplitWord(v: nat)
    requires v < 0x1_0000_0000
    ensures Join(v % 256, v / 256 % 256, v / 65536 % 256, v / 16777216) == v
    ensures v / 16777216 < 256
  {
    assert v / 256 / 256 == v / 65536;
    assert v / 65536 / 256 == v / 16777216;
  }

  function Word(b: Block, j: nat): nat
    requires 4 * j + 3 < |b|
  {
    Join(b[4 * j], b[4 * j + 1], b[4 * j + 2], b[4 * j + 3])
  }

  function PutWord(b: Block, j: nat, v: nat): (r: Block)
    requires 4 * j + 3 < |b| && v < 0x1_0000_0000
    ensures |r| == |b| && Word(r, j) == v
    ensures forall i :: 0 <= i < |b| && !(4 * j <= i < 4 * j + 4) ==> r[i] == b[i]
  {
    SplitWord(v);
    b[4 * j := v % 256][4 * j + 1 := v / 256 % 256][4 * j + 2 := v / 65536 % 256][4 * j + 3 := v / 16777216]
  }

  lemma PutWordOther(b: Block, j: nat, v: nat, i: nat)
    requires 4 * j + 3 < |b| && 4 * i + 3 < |b| && v < 0x1_0000_0000 && i != j
    ensures Word(PutWord(b, j, v), i) == Word(b, i)
  {
    assert i < j || i > j;
  }

  lemma ZeroWord(b: Block, j: nat)
    requires IsZero(b) && j < NINDIRECT
    ensures Word(b, j) == 0
  {
  }

  // ----- block addresses

  ghost predicate Shape(g: Geometry, fs: Fs) {
    && 1 <= g.dataStart <= g.size < 0x1_0000_0000
    && |fs.bitmap| == |fs.blocks| == g.size
    && (forall b :: 0 <= b < |fs.blocks| ==> |fs.blocks[b]| == BSIZE)
    && (forall i :: 0 <= i < |fs.inodes| ==>
        |fs.inodes[i].addrs| == NDIRECT + 1 && fs.inodes[i].addrs[NDIRECT] < g.size)
  }

  /** The address held by slot k of inode i, or 0. */
  ghost function Ref(g: Geometry, fs: Fs, i: nat, k: nat): nat
    requires Shape(g, fs) && i < |fs.inodes| && k < NSLOTS
  {
    if k <= NDIRECT then fs.inodes[i].addrs[k]
    else if fs.inodes[i].addrs[NDIRECT] == 0 then 0
    else Word(fs.blocks[fs.inodes[i].addrs[NDIRECT]], k - NDIRECT - 1)
  }

  /** The slot of the bn-th block of a file. */
  function SlotOf(bn: nat): (k: nat)
    requires bn < MAXFILE
    ensures k < NSLOTS && k != NDIRECT
  {
    if bn < NDIRECT then bn else bn + 1
  }

  /** An owned block is in the data region, marked in use, and held by its owner slot. */
  ghost predicate OwnedBlock(g: Geometry, fs: Fs, own: Owners, b: nat)
    requires Shape(g, fs)
  {
    b in own ==>
      && g.dataStart <= b < g.size && fs.bitmap[b]
      && own[b].inum < |fs.inodes| && own[b].k < NSLOTS
      && Ref(g, fs, own[b].inum, own[b].k) == b
  }

  /** A non-zero slot owns the block it holds. */
  ghost predicate OwningSlot(g: Geometry, fs: Fs, own: Owners, i: nat, k: nat)
    requires Shape(g, fs)
  {
    i < |fs.inodes| && k < NSLOTS && Ref(g, fs, i, k) != 0 ==>
      Ref(g, fs, i, k) in own && own[Ref(g, fs, i, k)] == Slot(i, k)
  }

  /** A block in use is metadata, always in use, or owned, or loose: allocated, empty and not
      yet stored anywhere. */
  ghost predicate MarkedBlock(g: Geometry, fs: Fs, own: Owners, loose: set<nat>, b: nat)
    requires Shape(g, fs)
  {
    && (b < g.dataStart ==> fs.bitmap[b])
    && (g.dataStart <= b < g.size && fs.bitmap[b] ==> b in own || b in loose)
    && (b in loose ==> g.dataStart <= b < g.size && fs.bitmap[b] && b !in own && IsZero(fs.blocks[b]))
  }

  /** Every data block is marked in use exactly when one slot owns it or it is loose. */
  ghost predicate Owned(g: Geometry, fs: Fs, own: Owners, loose: set<nat>) {
    && Shape(g, fs)
    && (forall b: nat :: OwnedBlock(g, fs, own, b))
    && (forall i: nat, k: nat :: OwningSlot(g, fs, own, i, k))
    && (forall b: nat :: MarkedBlock(g, fs, own, loose, b))
  }

  /** Block bn of file i is allocated if it starts below lim. */
  ghost predicate HasBlock(g: Geometry, fs: Fs, i: nat, lim: nat, bn: nat)
    requires Shape(g, fs) && i < |fs.inodes|
  {
    bn < MAXFILE && bn * BSIZE < lim ==> Ref(g, fs, i, SlotOf(bn)) != 0
  }

  /** Every block of file i that starts below lim is allocated. */
  ghost predicate Covered(g: Geometry, fs: Fs, i: nat, lim: nat) {
    Shape(g, fs) && i < |fs.inodes| && forall bn: nat :: HasBlock(g, fs, i, lim, bn)
  }

  /** Every block below the file's size is allocated. */
  ghost predicate Dense(g: Geometry, fs: Fs, i: nat) {
    Shape(g, fs) && (i < |fs.inodes| ==> fs.inodes[i].size <= MAXFILE * BSIZE && Covered(g, fs, i, fs.inodes[i].size))
  }

  /** Byte pos of file i; a missing block reads as zeros. */
  ghost function ByteAt(g: Geometry, fs: Fs, i: nat, pos: nat): byte
    requires Shape(g, fs) && i < |fs.inodes| && pos < MAXFILE * BSIZE
  {
    var r := Ref(g, fs, i, SlotOf(pos / BSIZE));
    if r == 0 || r >= g.size then 0 else fs.blocks[r][pos % BSIZE]
  }

  // ----- elementary updates

  /** balloc's effect on the disk: mark block b and zero it. */
  function Alloc(fs: Fs, b: nat): Fs
    requires b < |fs.bitmap| == |fs.blocks|
  {
    fs.(bitmap := fs.bitmap[b := true], blocks := fs.blocks[b := Zeros(BSIZE)])
  }

  /** Store address b in a slot that lives in the inode. */
  function SetAddr(fs: Fs, i: nat, k: nat, b: nat): Fs
    requires i < |fs.inodes| && k < |fs.inodes[i].addrs|
  {
    fs.(inodes := fs.inodes[i := fs.inodes[i].(addrs := fs.inodes[i].addrs[k := b])])
  }

  /** Store address b in word j of indirect block ind. */
  function SetWord(fs: Fs, ind: nat, j: nat, b: nat): Fs
    requires ind < |fs.blocks| && |fs.blocks[ind]| == BSIZE && j < NINDIRECT && b < 0x1_0000_0000
  {
    fs.(blocks := fs.blocks[ind := PutWord(fs.blocks[ind], j, b)])
  }

  /** Two disks with the same files. */
  ghost predicate Alike(g: Geometry, fs: Fs, fs': Fs) {
    Shape(g, fs) && Shape(g, fs') && |fs'.inodes| == |fs.inodes|
  }

  ghost predicate GainedRef(g: Geometry, fs: Fs, fs': Fs, i: nat, k: nat, b: nat, x: nat, y: nat)
    requires Alike(g, fs, fs')
  {
    x < |fs.inodes| && y < NSLOTS ==> Ref(g, fs', x, y) == if x == i && y == k then b else Ref(g, fs, x, y)
  }

  /** fs' differs from fs in the address of one slot, which was empty and now holds b. */
  ghost predicate Gains(g: Geometry, fs: Fs, fs': Fs, i: nat, k: nat, b: nat) {
    && Alike(g, fs, fs') && i < |fs.inodes| && k < NSLOTS && Ref(g, fs, i, k) == 0
    && forall x: nat, y: nat :: GainedRef(g, fs, fs', i, k, b, x, y)
  }

  ghost predicate SameRef(g: Geometry, fs: Fs, fs': Fs, i: nat, k: nat)
    requires Alike(g, fs, fs')
  {
    i < |fs.inodes| && k < NSLOTS ==> Ref(g, fs', i, k) == Ref(g, fs, i, k)
  }

  ghost predicate SameRefs(g: Geometry, fs: Fs, fs': Fs) {
    Alike(g, fs, fs') && forall i: nat, k: nat :: SameRef(g, fs, fs', i, k)
  }

  ghost predicate SameByte(g: Geometry, fs: Fs, fs': Fs, i: nat, pos: nat)
    requires Alike(g, fs, fs')
  {
    i < |fs.inodes| && pos < MAXFILE * BSIZE ==> ByteAt(g, fs', i, pos) == ByteAt(g, fs, i, pos)
  }

  ghost predicate SameBytes(g: Geometry, fs: Fs, fs': Fs) {
    Alike(g, fs, fs') && forall i: nat, pos: nat :: SameByte(g, fs, fs', i, pos)
  }

  lemma AllocKeeps(g: Geometry, fs: Fs, own: Owners, loose: set<nat>, b: nat)
    requires Owned(g, fs, own, loose) && b < g.size && !fs.bitmap[b]
    ensures Owned(g, Alloc(fs, b), own, loose + {b})
    ensures SameRefs(g, fs, Alloc(fs, b)) && SameBytes(g, fs, Alloc(fs, b))
  {
    var fs', loose' := Alloc(fs, b), loose + {b};
    assert OwnedBlock(g, fs, own, b) && MarkedBlock(g, fs, own, loose, b);
    forall i: nat, k: nat ensures SameRef(g, fs, fs', i, k) && OwningSlot(g, fs', own, i, k) {
      assert OwningSlot(g, fs, own, i, NDIRECT) && OwningSlot(g, fs, own, i, k);
    }
    forall x: nat ensures OwnedBlock(g, fs', own, x) && MarkedBlock(g, fs', own, loose', x) {
      assert OwnedBlock(g, fs, own, x) && MarkedBlock(g, fs, own, loose, x);
      if x in own { assert SameRef(g, fs, fs', own[x].inum, own[x].k); }
    }
    forall i: nat, pos: nat ensures SameByte(g, fs, fs', i, pos) {
      if i < |fs.inodes| && pos < MAXFILE * BSIZE {
        assert OwningSlot(g, fs, own, i, SlotOf(pos / BSIZE)) && SameRef(g, fs, fs', i, SlotOf(pos / BSIZE));
      }
    }
  }

  ghost predicate SameUnless(fs: Fs, fs': Fs, own: Owners, x: nat) {
    x < |fs.blocks| == |fs'.blocks| && (x !in own || own[x].k != NDIRECT) ==> fs'.blocks[x] == fs.blocks[x]
  }

  /** Storing a loose block in an empty slot makes that slot its owner. */
  lemma GainsKeeps(g: Geometry, fs: Fs, fs': Fs, own: Owners, loose: set<nat>, i: nat, k: nat, b: nat)
    requires Owned(g, fs, own, loose) && b in loose && Gains(g, fs, fs', i, k, b)
    requires fs'.bitmap == fs.bitmap && forall x: nat :: SameUnless(fs, fs', own, x)
    ensures Owned(g, fs', own[b := Slot(i, k)], loose - {b})
    ensures SameBytes(g, fs, fs')
  {
    var own', loose' := own[b := Slot(i, k)], loose - {b};
    assert MarkedBlock(g, fs, own, loose, b) && GainedRef(g, fs, fs', i, k, b, i, k);
    forall x: nat ensures OwnedBlock(g, fs', own', x) && MarkedBlock(g, fs', own', loose', x) {
      assert OwnedBlock(g, fs, own, x) && MarkedBlock(g, fs, own, loose, x) && SameUnless(fs, fs', own, x);
      if x in own && x != b { assert GainedRef(g, fs, fs', i, k, b, own[x].inum, own[x].k); }
    }
    forall x: nat, y: nat ensures OwningSlot(g, fs', own', x, y) {
      assert OwningSlot(g, fs, own, x, y) && GainedRef(g, fs, fs', i, k, b, x, y);
    }
    forall x: nat, pos: nat ensures SameByte(g, fs, fs', x, pos) {
      if x < |fs.inodes| && pos < MAXFILE * BSIZE {
        var y := SlotOf(pos / BSIZE);
        assert OwningSlot(g, fs, own, x, y) && GainedRef(g, fs, fs', i, k, b, x, y);
        assert SameUnless(fs, fs', own, Ref(g, fs, x, y)) && SameUnless(fs, fs', own, b);
      }
    }
  }

  lemma SetAddrGains(g: Geometry, fs: Fs, own: Owners, loose: set<nat>, i: nat, k: nat, b: nat)
    requires Owned(g, fs, own, loose) && b in loose && i < |fs.inodes| && k <= NDIRECT && fs.inodes[i].addrs[k] == 0
    ensures Gains(g, fs, SetAddr(fs, i, k, b), i, k, b)
  {
    var fs' := SetAddr(fs, i, k, b);
    assert MarkedBlock(g, fs, own, loose, b);
    SetAddrShape(g, fs, i, k, b);
    forall x: nat, y: nat ensures GainedRef(g, fs, fs', i, k, b, x, y) {
      if x < |fs.inodes| && y < NSLOTS { SetAddrRef(g, fs, i, k, b, x, y); }
    }
  }

  lemma SetAddrRef(g: Geometry, fs: Fs, i: nat, k: nat, b: nat, x: nat, y: nat)
    requires Shape(g, fs) && i < |fs.inodes| && k <= NDIRECT && fs.inodes[i].addrs[k] == 0
    requires b < g.size && IsZero(fs.blocks[b]) && x < |fs.inodes| && y < NSLOTS
    ensures Shape(g, SetAddr(fs, i, k, b))
    ensures Ref(g, SetAddr(fs, i, k, b), x, y) == if x == i && y == k then b else Ref(g, fs, x, y)
  {
    SetAddrShape(g, fs, i, k, b);
    var fs' := SetAddr(fs, i, k, b);
    assert fs'.blocks == fs.blocks;
    if x == i {
      assert fs'.inodes[i].addrs == fs.inodes[i].addrs[k := b];
      if k == NDIRECT && y > NDIRECT && b != 0 {
        RefIsWord(g, fs', i, b, y, y - NDIRECT - 1);
        ZeroWord(fs.blocks[b], y - NDIRECT - 1);
      }
    } else {
      assert fs'.inodes[x] == fs.inodes[x];
    }
  }

  lemma SetAddrShape(g: Geometry, fs: Fs, i: nat, k: nat, b: nat)
    requires Shape(g, fs) && i < |fs.inodes| && k <= NDIRECT && b < g.size
    ensures Shape(g, SetAddr(fs, i, k, b))
  {
  }

  /** A slot in the indirect block holds the word there. */
  lemma RefIsWord(g: Geometry, fs: Fs, i: nat, ind: nat, k: nat, j: nat)
    requires Shape(g, fs) && i < |fs.inodes| && fs.inodes[i].addrs[NDIRECT] == ind != 0 && k == NDIRECT + 1 + j < NSLOTS
    ensures ind < |fs.blocks| && Ref(g, fs, i, k) == Word(fs.blocks[ind], j)
  {
  }

  lemma SetWordGains(g: Geometry, fs: Fs, own: Owners, loose: set<nat>, i: nat, j: nat, b: nat)
    requires Owned(g, fs, own, loose) && b in loose && i < |fs.inodes| && j < NINDIRECT
    requires fs.inodes[i].addrs[NDIRECT] != 0 && Ref(g, fs, i, NDIRECT + 1 + j) == 0
    ensures b < g.size && Gains(g, fs, SetWord(fs, fs.inodes[i].addrs[NDIRECT], j, b), i, NDIRECT + 1 + j, b)
  {
    assert MarkedBlock(g, fs, own, loose, b);
    var ind := fs.inodes[i].addrs[NDIRECT];
    var fs', k := SetWord(fs, ind, j, b), NDIRECT + 1 + j;
    forall x: nat, y: nat ensures GainedRef(g, fs, fs', i, k, b, x, y) {
      assert OwningSlot(g, fs, own, x, NDIRECT) && OwningSlot(g, fs, own, i, NDIRECT);
      if x == i && NDIRECT < y < NSLOTS && y != k { PutWordOther(fs.blocks[ind], j, b, y - NDIRECT - 1); }
    }
  }

  /** What file i has at pos once block bn of it is v. */
  ghost predicate RewrittenByte(g: Geometry, fs: Fs, fs': Fs, i: nat, bn: nat, v: Block, x: nat, pos: nat)
    requires Alike(g, fs, fs') && |v| == BSIZE
  {
    x < |fs.inodes| && pos < MAXFILE * BSIZE ==>
      ByteAt(g, fs', x, pos) == if x == i && pos / BSIZE == bn then v[pos % BSIZE] else ByteAt(g, fs, x, pos)
  }

  /** Overwriting a data block changes the bytes of one block of one file, and nothing else. */
  lemma WriteDataKeeps(g: Geometry, fs: Fs, own: Owners, i: nat, bn: nat, v: Block)
    requires Owned(g, fs, own, {}) && i < |fs.inodes| && bn < MAXFILE && |v| == BSIZE
    requires Ref(g, fs, i, SlotOf(bn)) != 0 && Ref(g, fs, i, SlotOf(bn)) < g.size
    ensures var fs' := fs.(blocks := fs.blocks[Ref(g, fs, i, SlotOf(bn)) := v]);
      && Owned(g, fs', own, {}) && SameRefs(g, fs, fs')
      && forall x: nat, pos: nat :: RewrittenByte(g, fs, fs', i, bn, v, x, pos)
  {
    var r := Ref(g, fs, i, SlotOf(bn));
    var fs' := fs.(blocks := fs.blocks[r := v]);
    assert OwningSlot(g, fs, own, i, SlotOf(bn));
    forall x: nat, k: nat ensures SameRef(g, fs, fs', x, k) && OwningSlot(g, fs', own, x, k) {
      assert OwningSlot(g, fs, own, x, NDIRECT) && OwningSlot(g, fs, own, x, k);
    }
    forall x: nat ensures OwnedBlock(g, fs', own, x) && MarkedBlock(g, fs', own, {}, x) {
      assert OwnedBlock(g, fs, own, x) && MarkedBlock(g, fs, own, {}, x);
      if x in own { assert SameRef(g, fs, fs', own[x].inum, own[x].k); }
    }
    forall x: nat, pos: nat ensures RewrittenByte(g, fs, fs', i, bn, v, x, pos) {
      if x < |fs.inodes| && pos < MAXFILE * BSIZE {
        assert OwningSlot(g, fs, own, x, SlotOf(pos / BSIZE)) && SameRef(g, fs, fs', x, SlotOf(pos / BSIZE));
      }
    }
  }

  /** Changing other inode fields moves no block. */
  lemma MetadataKeeps(g: Geometry, fs: Fs, own: Owners, i: nat, n: Inode)
    requires Owned(g, fs, own, {}) && i < |fs.inodes| && n.addrs == fs.inodes[i].addrs
    ensures var fs' := fs.(inodes := fs.inodes[i := n]);
      Owned(g, fs', own, {}) && SameRefs(g, fs, fs') && SameBytes(g, fs, fs')
  {
    var fs' := fs.(inodes := fs.inodes[i := n]);
    forall x: nat, k: nat ensures SameRef(g, fs, fs', x, k) && OwningSlot(g, fs', own, x, k) {
      assert OwningSlot(g, fs, own, x, k);
    }
    forall x: nat ensures OwnedBlock(g, fs', own, x) && MarkedBlock(g, fs', own, {}, x) {
      assert OwnedBlock(g, fs, own, x) && MarkedBlock(g, fs, own, {}, x);
      if x in own { assert SameRef(g, fs, fs', own[x].inum, own[x].k); }
    }
    forall x: nat, pos: nat ensures SameByte(g, fs, fs', x, pos) {
      if x < |fs.inodes| && pos < MAXFILE * BSIZE { assert SameRef(g, fs, fs', x, SlotOf(pos / BSIZE)); }
    }
  }

  // ----- truncation

  function NoAddrs(): (a: seq<nat>)
    ensures |a| == NDIRECT + 1 && forall k :: 0 <= k < |a| ==> a[k] == 0
  {
    seq(NDIRECT + 1, _ => 0)
  }

  ghost function Disown(own: Owners, i: nat): Owners {
    map b | b in own && own[b].inum != i :: own[b]
  }

  ghost predicate FreedBit(fs: Fs, own: Owners, i: nat, fs': Fs, b: nat) {
    b < |fs.bitmap| == |fs'.bitmap| ==> (fs'.bitmap[b] <==> fs.bitmap[b] && !(b in own && own[b].inum == i))
  }

  /** What itrunc leaves: inode i empty, and exactly the blocks it owned free. */
  ghost predicate Truncated(g: Geometry, fs: Fs, own: Owners, i: nat, fs': Fs) {
    && Shape(g, fs) && i < |fs.inodes|
    && fs'.blocks == fs.blocks
    && fs'.inodes == fs.inodes[i := fs.inodes[i].(size := 0, addrs := NoAddrs())]
    && |fs'.bitmap| == |fs.bitmap|
    && forall b: nat :: FreedBit(fs, own, i, fs', b)
  }

  lemma TruncatedRef(g: Geometry, fs: Fs, own: Owners, i: nat, fs': Fs, x: nat, k: nat)
    requires Truncated(g, fs, own, i, fs') && x < |fs.inodes| && k < NSLOTS
    ensures Alike(g, fs, fs') && Ref(g, fs', x, k) == if x == i then 0 else Ref(g, fs, x, k)
  {
  }

  lemma TruncatedKeeps(g: Geometry, fs: Fs, own: Owners, i: nat, fs': Fs)
    requires Owned(g, fs, own, {}) && i < |fs.inodes| && Truncated(g, fs, own, i, fs')
    ensures Owned(g, fs', Disown(own, i), {})
    ensures forall x: nat, pos: nat :: x != i ==> SameByte(g, fs, fs', x, pos)
  {
    var own' := Disown(own, i);
    TruncatedRef(g, fs, own, i, fs', i, 0);
    forall x: nat, k: nat ensures OwningSlot(g, fs', own', x, k) {
      assert OwningSlot(g, fs, own, x, k);
      if x < |fs.inodes| && k < NSLOTS { TruncatedRef(g, fs, own, i, fs', x, k); }
    }
    forall x: nat ensures OwnedBlock(g, fs', own', x) && MarkedBlock(g, fs', own', {}, x) {
      assert OwnedBlock(g, fs, own, x) && MarkedBlock(g, fs, own, {}, x) && FreedBit(fs, own, i, fs', x);
      if x in own' { TruncatedRef(g, fs, own, i, fs', own[x].inum, own[x].k); }
    }
    forall x: nat, pos: nat | x != i ensures SameByte(g, fs, fs', x, pos) {
      if x < |fs.inodes| && pos < MAXFILE * BSIZE { TruncatedRef(g, fs, own, i, fs', x, SlotOf(pos / BSIZE)); }
    }
  }

  ghost predicate GrownRef(g: Geometry, fs: Fs, fs': Fs, i: nat, x: nat, k: nat)
    requires Alike(g, fs, fs')
  {
    x < |fs.inodes| && k < NSLOTS && (x != i || Ref(g, fs, x, k) != 0) ==> Ref(g, fs', x, k) == Ref(g, fs, x, k)
  }

  ghost predicate SameMetaAt(fs: Fs, fs': Fs, x: nat) {
    x < |fs.inodes| == |fs'.inodes| ==> SameMeta(fs.inodes[x], fs'.inodes[x])
  }

  /** Only slots of inode i have gained addresses, and only where they were empty. */
  ghost predicate Grows(g: Geometry, fs: Fs, fs': Fs, i: nat) {
    && Alike(g, fs, fs') && i < |fs.inodes|
    && (forall x: nat :: SameMetaAt(fs, fs', x))
    && forall x: nat, k: nat :: GrownRef(g, fs, fs', i, x, k)
  }

  predicate SameMeta(n: Inode, n': Inode) {
    n'.typ == n.typ && n'.nlink == n.nlink && n'.size == n.size
  }

  lemma GrowsTrans(g: Geometry, fs0: Fs, fs1: Fs, fs2: Fs, i: nat)
    requires Grows(g, fs0, fs1, i) && Grows(g, fs1, fs2, i)
    ensures Grows(g, fs0, fs2, i)
  {
    forall x: nat ensures SameMetaAt(fs0, fs2, x) { assert SameMetaAt(fs0, fs1, x) && SameMetaAt(fs1, fs2, x); }
    forall x: nat, k: nat ensures GrownRef(g, fs0, fs2, i, x, k) {
      assert GrownRef(g, fs0, fs1, i, x, k) && GrownRef(g, fs1, fs2, i, x, k);
    }
  }

  lemma SameBytesTrans(g: Geometry, fs0: Fs, fs1: Fs, fs2: Fs)
    requires SameBytes(g, fs0, fs1) && SameBytes(g, fs1, fs2)
    ensures SameBytes(g, fs0, fs2)
  {
    forall i: nat, pos: nat ensures SameByte(g, fs0, fs2, i, pos) {
      assert SameByte(g, fs0, fs1, i, pos) && SameByte(g, fs1, fs2, i, pos);
    }
  }

  lemma CoveredGrows(g: Geometry, fs: Fs, fs': Fs, i: nat, x: nat, lim: nat)
    requires Covered(g, fs, x, lim) && Grows(g, fs, fs', i)
    ensures Covered(g, fs', x, lim)
  {
    forall bn: nat ensures HasBlock(g, fs', x, lim, bn) {
      assert HasBlock(g, fs, x, lim, bn);
      if bn < MAXFILE { assert GrownRef(g, fs, fs', i, x, SlotOf(bn)); }
    }
  }

  /** balloc followed by storing the address in an empty slot of the inode. */
  lemma ClaimAddrKeeps(g: Geometry, fs: Fs, own: Owners, i: nat, k: nat, b: nat)
    requires Owned(g, fs, own, {}) && b < g.size && !fs.bitmap[b]
    requires i < |fs.inodes| && k <= NDIRECT && fs.inodes[i].addrs[k] == 0
    ensures var fs' := SetAddr(Alloc(fs, b), i, k, b);
      Owned(g, fs', own[b := Slot(i, k)], {}) && SameBytes(g, fs, fs') && Gains(g, fs, fs', i, k, b)
  {
    var fs1 := Alloc(fs, b);
    var fs2 := SetAddr(fs1, i, k, b);
    AllocKeeps(g, fs, own, {}, b);
    SetAddrGains(g, fs1, own, {} + {b}, i, k, b);
    forall x: nat ensures SameUnless(fs1, fs2, own, x) { }
    GainsKeeps(g, fs1, fs2, own, {} + {b}, i, k, b);
    assert {} + {b} - {b} == {};
    SameBytesTrans(g, fs, fs1, fs2);
    GainsAfter(g, fs, fs1, fs2, i, k, b);
  }

  /** balloc followed by storing the address in an empty word of the indirect block. */
  lemma ClaimWordKeeps(g: Geometry, fs: Fs, own: Owners, i: nat, j: nat, b: nat)
    requires Owned(g, fs, own, {}) && b < g.size && !fs.bitmap[b]
    requires i < |fs.inodes| && j < NINDIRECT && fs.inodes[i].addrs[NDIRECT] != 0 && Ref(g, fs, i, NDIRECT + 1 + j) == 0
    ensures var fs' := SetWord(Alloc(fs, b), fs.inodes[i].addrs[NDIRECT], j, b);
      Owned(g, fs', own[b := Slot(i, NDIRECT + 1 + j)], {}) && SameBytes(g, fs, fs')
        && Gains(g, fs, fs', i, NDIRECT + 1 + j, b)
  {
    var fs1 := Alloc(fs, b);
    var fs2 := SetWord(fs1, fs.inodes[i].addrs[NDIRECT], j, b);
    AllocKeeps(g, fs, own, {}, b);
    assert SameRef(g, fs, fs1, i, NDIRECT + 1 + j);
    SetWordGains(g, fs1, own, {} + {b}, i, j, b);
    assert OwningSlot(g, fs1, own, i, NDIRECT);
    forall x: nat ensures SameUnless(fs1, fs2, own, x) { }
    GainsKeeps(g, fs1, fs2, own, {} + {b}, i, NDIRECT + 1 + j, b);
    assert {} + {b} - {b} == {};
    SameBytesTrans(g, fs, fs1, fs2);
    GainsAfter(g, fs, fs1, fs2, i, NDIRECT + 1 + j, b);
  }

  lemma GainsAfter(g: Geometry, fs0: Fs, fs1: Fs, fs2: Fs, i: nat, k: nat, b: nat)
    requires SameRefs(g, fs0, fs1) && Gains(g, fs1, fs2, i, k, b)
    ensures Gains(g, fs0, fs2, i, k, b)
  {
    assert SameRef(g, fs0, fs1, i, k);
    forall x: nat, y: nat ensures GainedRef(g, fs0, fs2, i, k, b, x, y) {
      assert SameRef(g, fs0, fs1, x, y) && GainedRef(g, fs1, fs2, i, k, b, x, y);
    }
  }

  /** A slot that gained an address did so by growing. */
  lemma GainsGrows(g: Geometry, fs: Fs, fs': Fs, i: nat, k: nat, b: nat)
    requires Gains(g, fs, fs', i, k, b) && (forall x: nat :: SameMetaAt(fs, fs', x))
    ensures Grows(g, fs, fs', i) && Ref(g, fs', i, k) == b
      && (k != NDIRECT ==> Ref(g, fs', i, NDIRECT) == Ref(g, fs, i, NDIRECT))
  {
    assert GainedRef(g, fs, fs', i, k, b, i, k) && GainedRef(g, fs, fs', i, k, b, i, NDIRECT);
    forall x: nat, y: nat ensures GrownRef(g, fs, fs', i, x, y) { assert GainedRef(g, fs, fs', i, k, b, x, y); }
  }
}
