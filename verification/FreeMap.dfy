/**
  The free bitmap of kernel/fs.c as bits of the bytes of the bitmap blocks, and the view of
  all blocks of the disk as a bitmap, data blocks and inodes.
 */
module FreeMap {
  import opened FsLayout

  // ----- bits of a byte

  function Mask(k: nat): bv8
    requires k < 8
  {
    (1 as bv8) << k
  }

  predicate Bit(v: byte, k: nat)
    requires k < 8
  {
    (v as bv8) & Mask(k) != 0
  }

  function SetBit(v: byte, k: nat): byte
    requires k < 8
  {
    ((v as bv8) | Mask(k)) as byte
  }

  function ClearBit(v: byte, k: nat): byte
    requires k < 8
  {
    ((v as bv8) & !Mask(k)) as byte
  }

  lemma MaskIs(k: nat)
    requires k < 8
    ensures Mask(k) == if k == 0 then 1 else if k == 1 then 2 else if k == 2 then 4 else if k == 3 then 8
                       else if k == 4 then 16 else if k == 5 then 32 else if k == 6 then 64 else 128
  {
  }

  lemma MasksApart(k: nat, j: nat)
    requires k < 8 && j < 8
    ensures Mask(k) != 0 && (k != j ==> Mask(k) & Mask(j) == 0)
  {
    MaskIs(k);
    MaskIs(j);
  }

  lemma MaskedBits(w: bv8, m: bv8, n: bv8)
    ensures (w | m) & m == m && (w & !m) & m == 0
    ensures m & n == 0 ==> (w | m) & n == w & n && (w & !m) & n == w & n
  {
  }

  lemma ByteOfBits(w: bv8)
    ensures (w as byte) as bv8 == w
  {
  }

  /** Setting a bit of a byte changes that bit and no other. */
  lemma BitsAfterSet(v: byte, k: nat, j: nat)
    requires k < 8 && j < 8
    ensures Bit(SetBit(v, k), j) <==> j == k || Bit(v, j)
  {
    MasksApart(k, j);
    MaskedBits(v as bv8, Mask(k), Mask(j));
    ByteOfBits((v as bv8) | Mask(k));
  }

  lemma BitsAfterClear(v: byte, k: nat, j: nat)
    requires k < 8 && j < 8
    ensures Bit(ClearBit(v, k), j) <==> j != k && Bit(v, j)
  {
    MasksApart(k, j);
    MaskedBits(v as bv8, Mask(k), Mask(j));
    ByteOfBits((v as bv8) & !Mask(k));
  }

  // ----- the bitmap blocks

  /** How many blocks the bitmap takes. */
  function BitmapBlocks(g: Geometry): nat {
    if g.size == 0 then 0 else (g.size - 1) / BPB + 1
  }

  /** Blocks of the right size, with the bitmap below the data. */
  predicate Raw(g: Geometry, blocks: seq<Block>) {
    && g.bmapStart + BitmapBlocks(g) <= g.dataStart <= g.size == |blocks|
    && forall b :: 0 <= b < |blocks| ==> |blocks[b]| == BSIZE
  }

  /** IBLOCK. */
  function InodeBlock(g: Geometry, i: nat): nat {
    i / IPB + g.inodeStart
  }

  /** The inode blocks follow each other from inodeStart on, and two inodes share one exactly
      if they are in the same group of IPB.  In a layout with room for n inodes they end
      before the bitmap. */
  lemma InodePlaces(g: Geometry, i: nat, j: nat, n: nat)
    ensures i < IPB ==> InodeBlock(g, i) == g.inodeStart
    ensures InodeBlock(g, i + IPB) == InodeBlock(g, i) + 1
    ensures InodeBlock(g, i) == InodeBlock(g, j) <==> i / IPB == j / IPB
    ensures i < n && g.inodeStart + n / IPB + 1 <= g.bmapStart ==> g.inodeStart <= InodeBlock(g, i) < g.bmapStart
  {
    assert (i + IPB) / IPB == i / IPB + 1;
    if i < n { assert i / IPB <= n / IPB; }
  }

  /** BBLOCK. */
  function BitBlock(g: Geometry, b: nat): nat {
    b / BPB + g.bmapStart
  }

  lemma BitPlace(g: Geometry, b: nat)
    requires b < g.size
    ensures g.bmapStart <= BitBlock(g, b) < g.bmapStart + BitmapBlocks(g) && b % BPB / 8 < BSIZE
  {
  }

  /** Block b is marked in use. */
  predicate Used(g: Geometry, blocks: seq<Block>, b: nat)
    requires Raw(g, blocks) && b < g.size
  {
    BitPlace(g, b);
    Bit(blocks[BitBlock(g, b)][b % BPB / 8], b % BPB % 8)
  }

  /** balloc's way to the bit of block b + bi. */
  lemma BitOfPair(g: Geometry, b: nat, bi: nat)
    requires b % BPB == 0 && bi < BPB && b + bi < g.size
    ensures (b + bi) / BPB == b / BPB && (b + bi) % BPB == bi
    ensures BitBlock(g, b) < g.bmapStart + BitmapBlocks(g) && bi / 8 < BSIZE
  {
    var q := b / BPB;
    assert b + bi == BPB * q + bi;
    BitPlace(g, b);
  }

  lemma NoBits(k: nat)
    requires k < 8
    ensures !Bit(0, k)
  {
    MaskIs(k);
  }

  /** The bitmap block of b, with the byte of b's bit replaced. */
  function PutByte(g: Geometry, blocks: seq<Block>, b: nat, v: byte): (r: seq<Block>)
    requires Raw(g, blocks) && b < g.size
    ensures Raw(g, r)
  {
    BitPlace(g, b);
    var row: Block := blocks[BitBlock(g, b)];
    var row': Block := row[b % BPB / 8 := v];
    blocks[BitBlock(g, b) := row']
  }

  /** Two blocks whose bits are the same bit are the same block. */
  lemma BitUnique(b: nat, c: nat)
    requires b / BPB == c / BPB && b % BPB / 8 == c % BPB / 8 && b % BPB % 8 == c % BPB % 8
    ensures b == c
  {
  }

  /** The byte of b's bit, with that bit set or cleared. */
  function NewByte(g: Geometry, blocks: seq<Block>, b: nat, on: bool): byte
    requires Raw(g, blocks) && b < g.size
  {
    var v := OldByte(g, blocks, b);
    if on then SetBit(v, b % BPB % 8) else ClearBit(v, b % BPB % 8)
  }

  lemma UsedAfterPut(g: Geometry, blocks: seq<Block>, b: nat, on: bool, c: nat)
    requires Raw(g, blocks) && b < g.size && c < g.size
    ensures Used(g, PutByte(g, blocks, b, NewByte(g, blocks, b, on)), c) <==> if c == b then on else Used(g, blocks, c)
  {
    BitPlace(g, b);
    BitPlace(g, c);
    if on { BitsAfterSet(OldByte(g, blocks, b), b % BPB % 8, c % BPB % 8); }
      else { BitsAfterClear(OldByte(g, blocks, b), b % BPB % 8, c % BPB % 8); }
    if b / BPB == c / BPB && b % BPB / 8 == c % BPB / 8 && b % BPB % 8 == c % BPB % 8 { BitUnique(b, c); }
  }

  function OldByte(g: Geometry, blocks: seq<Block>, b: nat): byte
    requires Raw(g, blocks) && b < g.size
  {
    BitPlace(g, b);
    blocks[BitBlock(g, b)][b % BPB / 8]
  }

  // ----- the view of the disk

  ghost function BitmapOf(g: Geometry, blocks: seq<Block>): (m: seq<bool>)
    requires Raw(g, blocks)
    ensures |m| == g.size && forall b :: 0 <= b < g.size ==> m[b] == Used(g, blocks, b)
  {
    seq(g.size, b requires 0 <= b < g.size => Used(g, blocks, b))
  }

  /** The data blocks; the blocks below them count as zeros. */
  ghost function DataOf(g: Geometry, blocks: seq<Block>): (r: seq<Block>)
    requires Raw(g, blocks)
    ensures |r| == g.size && forall b :: 0 <= b < g.size ==> r[b] == if b < g.dataStart then Zeros(BSIZE) else blocks[b]
  {
    seq(g.size, b requires 0 <= b < g.size => if b < g.dataStart then Zeros(BSIZE) else blocks[b])
  }

  /** bitmap and data are what the blocks stand for.  The two predicates between Tied and its
      meaning keep that folded until a proof names TiedIs; n only counts. */
  ghost predicate Tied(g: Geometry, blocks: seq<Block>, bitmap: seq<bool>, data: seq<Block>, n: nat)
    decreases n, 2
  {
    TiedNow(g, blocks, bitmap, data, n)
  }

  ghost predicate TiedNow(g: Geometry, blocks: seq<Block>, bitmap: seq<bool>, data: seq<Block>, n: nat)
    decreases n, 1
  {
    TiedHere(g, blocks, bitmap, data, n) && (n > 0 ==> Tied(g, blocks, bitmap, data, n - 1))
  }

  ghost predicate TiedHere(g: Geometry, blocks: seq<Block>, bitmap: seq<bool>, data: seq<Block>, n: nat)
    decreases n, 0
  {
    (n > 0 ==> TiedNow(g, blocks, bitmap, data, n - 1)) && Raw(g, blocks) && bitmap == BitmapOf(g, blocks)
      && data == DataOf(g, blocks)
  }

  lemma {:induction false} TiedIs(g: Geometry, blocks: seq<Block>, bitmap: seq<bool>, data: seq<Block>, n: nat)
    ensures Tied(g, blocks, bitmap, data, n) <==>
      Raw(g, blocks) && bitmap == BitmapOf(g, blocks) && data == DataOf(g, blocks)
    decreases n
  {
    if n > 0 {
      TiedIs(g, blocks, bitmap, data, n - 1);
      assert Tied(g, blocks, bitmap, data, n - 1) <==> TiedNow(g, blocks, bitmap, data, n - 1);
    }
    assert TiedNow(g, blocks, bitmap, data, n) <==>
      TiedHere(g, blocks, bitmap, data, n) && (n > 0 ==> Tied(g, blocks, bitmap, data, n - 1));
  }

  /** The bit of block b is where the code looks for it. */
  lemma TiedBit(g: Geometry, blocks: seq<Block>, bitmap: seq<bool>, data: seq<Block>, n: nat, b: nat)
    requires Tied(g, blocks, bitmap, data, n) && b < g.size
    ensures BitBlock(g, b) < |blocks| == |bitmap| == |data| == g.size && |blocks[BitBlock(g, b)]| == BSIZE
      && b % BPB / 8 < BSIZE
    ensures bitmap[b] <==> Bit(blocks[BitBlock(g, b)][b % BPB / 8], b % BPB % 8)
  {
    TiedIs(g, blocks, bitmap, data, n);
    BitPlace(g, b);
  }

  lemma TiedData(g: Geometry, blocks: seq<Block>, bitmap: seq<bool>, data: seq<Block>, n: nat, a: nat)
    requires Tied(g, blocks, bitmap, data, n) && g.dataStart <= a < g.size
    ensures |blocks| == |data| == g.size && blocks[a] == data[a] && |blocks[a]| == BSIZE
  {
    TiedIs(g, blocks, bitmap, data, n);
  }

  /** One bit of the bitmap is changed. */
  lemma TiedMark(g: Geometry, blocks: seq<Block>, bitmap: seq<bool>, data: seq<Block>, n: nat, b: nat, on: bool,
      row: Block)
    requires Tied(g, blocks, bitmap, data, n) && b < g.size && BitBlock(g, b) < |blocks|
      && |blocks[BitBlock(g, b)]| == BSIZE && b % BPB / 8 < BSIZE
    requires var v := blocks[BitBlock(g, b)][b % BPB / 8];
      row == blocks[BitBlock(g, b)][b % BPB / 8 := if on then SetBit(v, b % BPB % 8) else ClearBit(v, b % BPB % 8)]
    ensures |bitmap| == g.size && Tied(g, blocks[BitBlock(g, b) := row], bitmap[b := on], data, n)
  {
    var blocks' := blocks[BitBlock(g, b) := row];
    TiedIs(g, blocks, bitmap, data, n);
    BitPlace(g, b);
    assert blocks' == PutByte(g, blocks, b, NewByte(g, blocks, b, on));
    forall c | 0 <= c < g.size ensures Used(g, blocks', c) == bitmap[b := on][c] {
      UsedAfterPut(g, blocks, b, on, c);
    }
    assert BitmapOf(g, blocks') == bitmap[b := on];
    assert DataOf(g, blocks') == data;
    TiedIs(g, blocks', bitmap[b := on], data, n);
  }

  /** A data block is stored. */
  lemma TiedStore(g: Geometry, blocks: seq<Block>, bitmap: seq<bool>, data: seq<Block>, n: nat, a: nat, v: Block)
    requires Tied(g, blocks, bitmap, data, n) && g.dataStart <= a < g.size && |v| == BSIZE
    ensures |blocks| == |data| == g.size && Tied(g, blocks[a := v], bitmap, data[a := v], n)
  {
    TiedIs(g, blocks, bitmap, data, n);
    var blocks' := blocks[a := v];
    forall c | 0 <= c < g.size ensures Used(g, blocks', c) == Used(g, blocks, c) { BitPlace(g, c); }
    assert BitmapOf(g, blocks') == bitmap;
    assert DataOf(g, blocks') == data[a := v];
    TiedIs(g, blocks', bitmap, data[a := v], n);
  }

  // ----- what is logged

  ghost predicate ChangeLogged(bs0: seq<Block>, bs1: seq<Block>, log: set<nat>, skip: set<nat>, b: nat) {
    b < |bs0| && b < |bs1| && bs1[b] != bs0[b] && b !in skip ==> b in log
  }

  /** The log has grown, and every block that has changed is in it, except those in skip. */
  ghost predicate LoggedBut(bs0: seq<Block>, bs1: seq<Block>, log0: set<nat>, log1: set<nat>, skip: set<nat>) {
    |bs1| == |bs0| && log0 <= log1 && forall b: nat :: ChangeLogged(bs0, bs1, log1, skip, b)
  }

  lemma LoggedThen(bs0: seq<Block>, bs1: seq<Block>, bs2: seq<Block>, log0: set<nat>, log1: set<nat>, log2: set<nat>,
      skip: set<nat>)
    requires LoggedBut(bs0, bs1, log0, log1, {}) && LoggedBut(bs1, bs2, log1, log2, skip)
    ensures LoggedBut(bs0, bs2, log0, log2, skip)
  {
    forall b: nat ensures ChangeLogged(bs0, bs2, log2, skip, b) {
      assert ChangeLogged(bs0, bs1, log1, {}, b) && ChangeLogged(bs1, bs2, log2, skip, b);
    }
  }

  /** A block that is stored and not logged is the only exception; logging it removes that. */
  lemma LoggedStore(bs0: seq<Block>, bs1: seq<Block>, log0: set<nat>, log1: set<nat>, a: nat, v: Block)
    requires LoggedBut(bs0, bs1, log0, log1, {}) && a < |bs1|
    ensures LoggedBut(bs0, bs1[a := v], log0, log1, {a}) && LoggedBut(bs0, bs1[a := v], log0, log1 + {a}, {})
  {
    var bs2 := bs1[a := v];
    forall b: nat ensures ChangeLogged(bs0, bs2, log1, {a}, b) && ChangeLogged(bs0, bs2, log1 + {a}, {}, b) {
      assert ChangeLogged(bs0, bs1, log1, {}, b);
    }
  }

  lemma LoggedMore(bs0: seq<Block>, bs1: seq<Block>, log0: set<nat>, log1: set<nat>, log2: set<nat>, skip: set<nat>)
    requires LoggedBut(bs0, bs1, log0, log1, skip) && log1 <= log2
    ensures LoggedBut(bs0, bs1, log0, log2, skip)
  {
    forall b: nat ensures ChangeLogged(bs0, bs1, log2, skip, b) { assert ChangeLogged(bs0, bs1, log1, skip, b); }
  }
}
