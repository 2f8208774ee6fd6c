/**
  Directories of kernel/fs.c: a directory is a file of 16-byte entries, each a 16-bit inode
  number, low byte first, and a name of DIRSIZ bytes, NUL-terminated if shorter.
 */
module Directory {
  import opened FsLayout
  import opened FsCode

  const DIRSIZ := 14
  const DESIZE := 16
  const T_DIR := 1

  type Name = seq<byte>

  datatype Dirent = Dirent(inum: nat, name: Name)

  // ----- names

  /** Byte i of a C string; past the end there is a NUL. */
  function CharAt(s: seq<byte>, i: nat): byte {
    if i < |s| then s[i] else 0
  }

  function NameLen(s: seq<byte>, i: nat): (n: nat)
    requires i <= DIRSIZ
    ensures i <= n <= DIRSIZ && (n < DIRSIZ ==> CharAt(s, n) == 0) && (i <= |s| ==> n <= |s|)
    ensures forall k :: i <= k < n ==> CharAt(s, k) != 0
    decreases DIRSIZ - i
  {
    if i == DIRSIZ || CharAt(s, i) == 0 then i else NameLen(s, i + 1)
  }

  /** The name a buffer stands for: up to DIRSIZ bytes, or the first NUL. */
  function Canon(s: seq<byte>): (c: Name)
    ensures |c| <= DIRSIZ && c <= s && (forall k :: 0 <= k < |c| ==> c[k] != 0)
      && (|c| < DIRSIZ ==> CharAt(s, |c|) == 0)
  {
    s[..NameLen(s, 0)]
  }

  lemma {:induction false} NameLenSkips(s: seq<byte>, i: nat, n: nat)
    requires i <= n <= DIRSIZ && forall k :: i <= k < n ==> CharAt(s, k) != 0
    ensures NameLen(s, i) == NameLen(s, n)
    decreases n - i
  {
    if i < n { NameLenSkips(s, i + 1, n); }
  }

  /** namecmp(), that is strncmp() over DIRSIZ bytes: equal exactly if both buffers stand
      for the same name. */
  method Namecmp(s: seq<byte>, t: seq<byte>) returns (eq: bool)
    ensures eq <==> Canon(s) == Canon(t)
  {
    var n := 0;
    while n < DIRSIZ && CharAt(s, n) != 0 && CharAt(s, n) == CharAt(t, n)
      invariant 0 <= n <= DIRSIZ
      invariant forall k :: 0 <= k < n ==> CharAt(s, k) != 0 && CharAt(s, k) == CharAt(t, k)
    {
      n := n + 1;
    }
    eq := n == DIRSIZ || CharAt(s, n) == CharAt(t, n);
    SameCanon(s, t, n, eq);
  }

  lemma SameCanon(s: seq<byte>, t: seq<byte>, n: nat, eq: bool)
    requires n <= DIRSIZ && (forall k :: 0 <= k < n ==> CharAt(s, k) != 0 && CharAt(s, k) == CharAt(t, k))
    requires n < DIRSIZ ==> CharAt(s, n) == 0 || CharAt(s, n) != CharAt(t, n)
    requires eq <==> n == DIRSIZ || CharAt(s, n) == CharAt(t, n)
    ensures eq <==> Canon(s) == Canon(t)
  {
    CanonReaches(s, n);
    CanonReaches(t, n);
    if eq {
      forall k | 0 <= k < n ensures Canon(s)[k] == Canon(t)[k] { assert CharAt(s, k) == CharAt(t, k); }
    }
  }

  lemma CanonReaches(s: seq<byte>, n: nat)
    requires n <= DIRSIZ && forall k :: 0 <= k < n ==> CharAt(s, k) != 0
    ensures |Canon(s)| >= n && (|Canon(s)| > n <==> n < DIRSIZ && CharAt(s, n) != 0)
    ensures forall k :: 0 <= k < |Canon(s)| ==> Canon(s)[k] == CharAt(s, k)
  {
    NameLenSkips(s, 0, n);
  }

  // ----- entries

  function Inum(data: seq<byte>, e: nat): nat
    requires DESIZE * e + DESIZE <= |data|
  {
    var lo: int, hi: int := data[DESIZE * e], data[DESIZE * e + 1];
    lo + 256 * hi
  }

  function RawName(data: seq<byte>, e: nat): seq<byte>
    requires DESIZE * e + DESIZE <= |data|
  {
    data[DESIZE * e + 2..DESIZE * e + DESIZE]
  }

  function EntryAt(data: seq<byte>, e: nat): Dirent
    requires DESIZE * e + DESIZE <= |data|
  {
    Dirent(Inum(data, e), Canon(RawName(data, e)))
  }

  function Decode(data: seq<byte>): (es: seq<Dirent>)
    ensures |es| == |data| / DESIZE
  {
    seq(|data| / DESIZE, e requires 0 <= e < |data| / DESIZE => EntryAt(data, e))
  }

  /** A directory entry as dirlink() builds it: strncpy() pads the name with NULs. */
  function Encode(inum: nat, name: seq<byte>): (b: seq<byte>)
    requires inum < 65536
    ensures |b| == DESIZE
  {
    [inum % 256, inum / 256] + Canon(name) + Zeros(DIRSIZ - |Canon(name)|)
  }

  lemma PaddedName(c: Name)
    requires |c| <= DIRSIZ && forall k :: 0 <= k < |c| ==> c[k] != 0
    ensures Canon(c + Zeros(DIRSIZ - |c|)) == c
  {
    var raw := c + Zeros(DIRSIZ - |c|);
    assert forall k :: 0 <= k < |c| ==> CharAt(raw, k) == c[k];
    NameLenSkips(raw, 0, |c|);
    assert raw[..|c|] == c;
  }

  lemma EncodeDecodes(inum: nat, name: seq<byte>)
    requires inum < 65536
    ensures EntryAt(Encode(inum, name), 0) == Dirent(inum, Canon(name))
  {
    var b, c := Encode(inum, name), Canon(name);
    var pad := Zeros(DIRSIZ - |c|);
    assert b == [inum % 256, inum / 256] + (c + pad);
    assert RawName(b, 0) == c + pad;
    PaddedName(c);
  }

  /** The unused entry that sys_unlink() writes: all zero bytes. */
  lemma ZeroDecodes()
    ensures EntryAt(Zeros(DESIZE), 0).inum == 0
  {
  }

  /** Writing 16 bytes at entry e changes that entry, or appends it. */
  lemma SpliceEntry(data: seq<byte>, e: nat, b: seq<byte>)
    requires |data| % DESIZE == 0 && e <= |data| / DESIZE && |b| == DESIZE
    ensures DESIZE * e <= |data|
    ensures var data' := Spliced(data, DESIZE * e, b); var d := EntryAt(b, 0);
      && |data'| % DESIZE == 0
      && Decode(data') == if e < |data| / DESIZE then Decode(data)[e := d] else Decode(data) + [d]
  {
    var n := |data| / DESIZE;
    assert |data| == DESIZE * n;
    var data' := Spliced(data, DESIZE * e, b);
    assert |data'| == DESIZE * (if e < n then n else n + 1);
    var n' := if e < n then n else n + 1;
    var es := if e < n then Decode(data)[e := EntryAt(b, 0)] else Decode(data) + [EntryAt(b, 0)];
    forall x | 0 <= x < n' ensures Decode(data')[x] == es[x] {
      SpliceOne(data, e, b, x);
    }
  }

  lemma SpliceOne(data: seq<byte>, e: nat, b: seq<byte>, x: nat)
    requires |data| % DESIZE == 0 && e <= |data| / DESIZE && |b| == DESIZE
    requires x < |data| / DESIZE || x == e
    ensures DESIZE * e <= |data|
    ensures var data' := Spliced(data, DESIZE * e, b);
      && DESIZE * x + DESIZE <= |data'|
      && (x == e ==> Inum(data', x) == Inum(b, 0) && RawName(data', x) == RawName(b, 0))
      && (x != e ==>
          DESIZE * x + DESIZE <= |data| && Inum(data', x) == Inum(data, x) && RawName(data', x) == RawName(data, x))
  {
    var data' := Spliced(data, DESIZE * e, b);
    var lo := DESIZE * x;
    if x < e {
      assert lo + DESIZE <= DESIZE * e;
      assert data'[lo..lo + DESIZE] == data[lo..lo + DESIZE];
    } else if x == e {
      assert data'[lo..lo + DESIZE] == b;
    } else {
      assert DESIZE * e + DESIZE <= lo;
      assert data'[lo..lo + DESIZE] == data[lo..lo + DESIZE];
    }
    var row := if x == e then b else data[lo..lo + DESIZE];
    assert data'[lo..lo + DESIZE] == row;
    assert data'[lo] == row[0] && data'[lo + 1] == row[1];
    assert data'[lo + 2..lo + DESIZE] == data'[lo..lo + DESIZE][2..];
    if x != e { assert data[lo + 2..lo + DESIZE] == data[lo..lo + DESIZE][2..]; }
  }

  // ----- a directory as a finite map

  /** No two entries in use have the same name. */
  ghost predicate Unique(es: seq<Dirent>) {
    forall e, f :: 0 <= e < f < |es| && es[e].inum != 0 && es[f].inum != 0 ==> es[e].name != es[f].name
  }

  /** The first entry from e on that is in use and has the name; |es| if there is none. */
  function Seek(es: seq<Dirent>, n: Name, e: nat): (x: nat)
    requires e <= |es|
    ensures e <= x <= |es| && (x < |es| ==> es[x].inum != 0 && es[x].name == n)
    ensures forall f :: e <= f < x ==> !(es[f].inum != 0 && es[f].name == n)
    decreases |es| - e
  {
    if e == |es| || (es[e].inum != 0 && es[e].name == n) then e else Seek(es, n, e + 1)
  }

  function IndexOf(es: seq<Dirent>, n: Name): (x: nat)
    ensures x <= |es|
  {
    Seek(es, n, 0)
  }

  /** The first unused entry from e on; |es| if there is none. */
  function FirstUnused(es: seq<Dirent>, e: nat): (x: nat)
    requires e <= |es|
    ensures e <= x <= |es| && (x < |es| ==> es[x].inum == 0)
    ensures forall f :: e <= f < x ==> es[f].inum != 0
    decreases |es| - e
  {
    if e == |es| || es[e].inum == 0 then e else FirstUnused(es, e + 1)
  }

  /** The finite map a directory stands for: the inode number bound to a name, 0 if none. */
  function Lookup(es: seq<Dirent>, n: Name): nat {
    var e := IndexOf(es, n);
    if e < |es| then es[e].inum else 0
  }

  ghost predicate DirOk(data: seq<byte>) {
    |data| % DESIZE == 0 && Unique(Decode(data))
  }

  ghost function Entries(fs: FileSystem, dp: nat): seq<Dirent>
    requires fs.Valid() && dp < |fs.inodes|
    reads fs
  {
    Decode(Contents(fs.g, fs.Disk(), dp))
  }

  ghost predicate IsDir(fs: FileSystem, dp: nat)
    reads fs
  {
    fs.Valid() && dp < |fs.inodes| && fs.inodes[dp].typ == T_DIR && DirOk(Contents(fs.g, fs.Disk(), dp))
  }

  /** dirlookup: the inode number bound to the name, or 0, and where its entry is.  It panics
      on an inode that is no directory, and at a last entry that is cut short. */
  method Dirlookup(fs: FileSystem, dp: nat, name: seq<byte>) returns (inum: nat, off: nat, panicked: bool)
    requires fs.Valid() && dp < |fs.inodes|
    modifies fs
    ensures unchanged(fs)
    ensures panicked <==>
      fs.inodes[dp].typ != T_DIR || (fs.inodes[dp].size % DESIZE != 0 && Lookup(Entries(fs, dp), Canon(name)) == 0)
    ensures !panicked ==> inum == Lookup(Entries(fs, dp), Canon(name))
    ensures !panicked && inum != 0 ==> off == DESIZE * IndexOf(Entries(fs, dp), Canon(name))
  {
    if fs.inodes[dp].typ != T_DIR {
      return 0, 0, true;
    }
    ghost var es := Entries(fs, dp);
    assert |es| == fs.inodes[dp].size / DESIZE;
    var e := 0;
    while DESIZE * e < fs.inodes[dp].size
      invariant 0 <= e <= |es|
      invariant unchanged(fs)
      invariant IndexOf(es, Canon(name)) == Seek(es, Canon(name), e)
      decreases |es| - e
    {
      var ok, i, raw := ReadEntry(fs, dp, e);
      if !ok {
        return 0, 0, true;
      }
      if i != 0 {
        var same := Namecmp(name, raw);
        if same {
          return i, DESIZE * e, false;
        }
      }
      e := e + 1;
    }
    return 0, 0, false;
  }

  /** readi of entry e; not ok if the file ends within the entry. */
  method ReadEntry(fs: FileSystem, dp: nat, e: nat) returns (ok: bool, inum: nat, raw: seq<byte>)
    requires fs.Valid() && dp < |fs.inodes| && DESIZE * e < fs.inodes[dp].size
    modifies fs
    ensures unchanged(fs)
    ensures ok <==> e < |Entries(fs, dp)|
    ensures ok ==> Entries(fs, dp)[e] == Dirent(inum, Canon(raw))
    ensures !ok ==> e == |Entries(fs, dp)| && fs.inodes[dp].size % DESIZE != 0
  {
    ghost var data := Contents(fs.g, fs.Disk(), dp);
    assert Dense(fs.g, fs.Disk(), dp);
    EntryEnds(|data|, e);
    var r, de := fs.Readi(dp, DESIZE * e, DESIZE, DESIZE);
    ok := r == DESIZE;
    if ok {
      EntryRow(data, e);
      assert de == data[DESIZE * e..DESIZE * e + DESIZE];
      inum, raw := Inum(de, 0), RawName(de, 0);
    } else {
      inum, raw := 0, [];
    }
  }

  lemma EntryEnds(size: nat, e: nat)
    requires DESIZE * e < size
    ensures DESIZE * e + DESIZE <= size <==> e < size / DESIZE
    ensures e <= size / DESIZE && (e == size / DESIZE ==> size % DESIZE != 0)
  {
  }

  lemma EntryRow(data: seq<byte>, e: nat)
    requires DESIZE * e + DESIZE <= |data|
    ensures e < |Decode(data)|
    ensures var de := data[DESIZE * e..DESIZE * e + DESIZE];
      Decode(data)[e] == EntryAt(de, 0) == Dirent(Inum(de, 0), Canon(RawName(de, 0)))
  {
    var de := data[DESIZE * e..DESIZE * e + DESIZE];
    assert RawName(data, e) == RawName(de, 0);
  }

  lemma EntryIsBound(es: seq<Dirent>, f: nat)
    requires Unique(es) && f < |es| && es[f].inum != 0
    ensures IndexOf(es, es[f].name) == f && Lookup(es, es[f].name) == es[f].inum
  {
  }

  /** es' has the same entries in use as es, except entry e. */
  ghost predicate AgreeBut(es: seq<Dirent>, es': seq<Dirent>, e: nat) {
    && |es| <= |es'| <= |es| + 1 && e < |es'| && (|es'| > |es| ==> e == |es|)
    && forall f :: 0 <= f < |es| && f != e ==> es'[f] == es[f]
  }

  lemma AgreeLookup(es: seq<Dirent>, es': seq<Dirent>, e: nat, n: Name)
    requires Unique(es) && Unique(es') && AgreeBut(es, es', e)
    requires es'[e].inum != 0 ==> es'[e].name != n
    requires e < |es| && es[e].inum != 0 ==> es[e].name != n
    ensures Lookup(es', n) == Lookup(es, n)
  {
    var f, f' := IndexOf(es, n), IndexOf(es', n);
    if f' < |es'| { assert es'[f'] == es[f']; EntryIsBound(es, f'); }
    if f < |es| { assert es'[f] == es[f]; EntryIsBound(es', f); }
  }

  /** Filling an unused entry, or appending one, with a name not present binds that name and
      no other. */
  lemma PutEntry(es: seq<Dirent>, e: nat, d: Dirent)
    requires Unique(es) && e <= |es| && (e < |es| ==> es[e].inum == 0) && d.inum != 0 && Lookup(es, d.name) == 0
    ensures var es' := if e < |es| then es[e := d] else es + [d];
      Unique(es') && forall n :: Lookup(es', n) == if n == d.name then d.inum else Lookup(es, n)
  {
    var es' := if e < |es| then es[e := d] else es + [d];
    forall f | 0 <= f < |es| && es[f].inum != 0 ensures es[f].name != d.name { EntryIsBound(es, f); }
    assert Unique(es');
    EntryIsBound(es', e);
    forall n | n != d.name ensures Lookup(es', n) == Lookup(es, n) { AgreeLookup(es, es', e, n); }
  }

  /** Clearing an entry unbinds its name and no other. */
  lemma ClearEntry(es: seq<Dirent>, e: nat, d: Dirent)
    requires Unique(es) && e < |es| && es[e].inum != 0 && d.inum == 0
    ensures var es' := es[e := d];
      Unique(es') && forall n :: Lookup(es', n) == if n == es[e].name then 0 else Lookup(es, n)
  {
    var es' := es[e := d];
    forall f | 0 <= f < |es| && f != e && es[f].inum != 0 ensures es[f].name != es[e].name { EntryIsBound(es, f); }
    forall n | n != es[e].name ensures Lookup(es', n) == Lookup(es, n) { AgreeLookup(es, es', e, n); }
  }

  /** The first unused entry, or one past the last. */
  method FindEmpty(fs: FileSystem, dp: nat) returns (e: nat)
    requires IsDir(fs, dp)
    modifies fs
    ensures unchanged(fs)
    ensures e == FirstUnused(Entries(fs, dp), 0)
  {
    ghost var es := Entries(fs, dp);
    e := 0;
    while DESIZE * e < fs.inodes[dp].size
      invariant 0 <= e <= |es|
      invariant unchanged(fs)
      invariant IsDir(fs, dp) && Entries(fs, dp) == es
      invariant FirstUnused(es, 0) == FirstUnused(es, e)
      decreases |es| - e
    {
      var ok, i, raw := ReadEntry(fs, dp, e);
      assert es[e].inum == i;
      if i == 0 {
        return;
      }
      e := e + 1;
    }
  }

  /** The map has changed at one name only. */
  ghost predicate Rebound(es: seq<Dirent>, es': seq<Dirent>, n: Name, inum: nat) {
    forall m :: Lookup(es', m) == if m == n then inum else Lookup(es, m)
  }

  /** One more entry would not fit: the file is as large as can be, or it ends with its last
      block and the disk is full. */
  ghost predicate NoRoom(fs: FileSystem, dp: nat)
    requires dp < |fs.inodes|
    reads fs
  {
    fs.inodes[dp].size == MAXFILE * BSIZE || (fs.inodes[dp].size % BSIZE == 0 && fs.Full())
  }

  /** Entry e is replaced, or added at the end. */
  function WithEntry(es: seq<Dirent>, e: nat, d: Dirent): seq<Dirent>
    requires e <= |es|
  {
    if e < |es| then es[e := d] else es + [d]
  }

  /** dirlink: bind a new name in the first unused entry, or behind the last; or fail and
      change nothing in the directory. */
  method Dirlink(fs: FileSystem, dp: nat, name: seq<byte>, inum: nat) returns (r: int)
    requires IsDir(fs, dp) && 0 < inum < 65536
    modifies fs
    ensures IsDir(fs, dp) && |fs.inodes| == |old(fs.inodes)| && UntouchedBut(fs.g, old(fs.Disk()), fs.Disk(), dp)
    ensures r == 0 || r == -1
    ensures old(Lookup(Entries(fs, dp), Canon(name))) != 0 ==> r == -1
    ensures r == 0 ==> Rebound(old(Entries(fs, dp)), Entries(fs, dp), Canon(name), inum)
    ensures r == 0 ==>
      var es := old(Entries(fs, dp)); Entries(fs, dp) == WithEntry(es, FirstUnused(es, 0), Dirent(inum, Canon(name)))
    ensures r == -1 ==> Entries(fs, dp) == old(Entries(fs, dp))
    ensures r == -1 ==>
      || old(Lookup(Entries(fs, dp), Canon(name))) != 0
      || (old(FirstUnused(Entries(fs, dp), 0) == |Entries(fs, dp)|) && NoRoom(fs, dp))
  {
    var found, o, panicked := Dirlookup(fs, dp, name);
    if found != 0 {
      return -1;
    }
    var e := FindEmpty(fs, dp);
    r := AddEntry(fs, dp, e, name, inum);
  }

  /** The part of dirlink that writes: entry e is unused or one past the last. */
  method AddEntry(fs: FileSystem, dp: nat, e: nat, name: seq<byte>, inum: nat) returns (r: int)
    requires IsDir(fs, dp) && 0 < inum < 65536 && e == FirstUnused(Entries(fs, dp), 0)
      && Lookup(Entries(fs, dp), Canon(name)) == 0
    modifies fs
    ensures IsDir(fs, dp) && |fs.inodes| == |old(fs.inodes)| && UntouchedBut(fs.g, old(fs.Disk()), fs.Disk(), dp)
    ensures r == 0 || r == -1
    ensures r == 0 ==> Rebound(old(Entries(fs, dp)), Entries(fs, dp), Canon(name), inum)
    ensures r == 0 ==> Entries(fs, dp) == WithEntry(old(Entries(fs, dp)), e, Dirent(inum, Canon(name)))
    ensures r == -1 ==>
      Entries(fs, dp) == old(Entries(fs, dp)) && e == |old(Entries(fs, dp))| && NoRoom(fs, dp)
  {
    EncodeDecodes(inum, name);
    PutEntry(Entries(fs, dp), e, Dirent(inum, Canon(name)));
    r := WriteEntry(fs, dp, e, Encode(inum, name));
  }

  /** writei of one entry, which writes all 16 bytes or none. */
  method WriteEntry(fs: FileSystem, dp: nat, e: nat, de: seq<byte>) returns (r: int)
    requires fs.Valid() && dp < |fs.inodes| && fs.inodes[dp].size % DESIZE == 0 && |de| == DESIZE
    requires e <= |Entries(fs, dp)|
    modifies fs
    ensures fs.Valid() && |fs.inodes| == |old(fs.inodes)| && fs.inodes[dp].size % DESIZE == 0
      && fs.inodes[dp].typ == old(fs.inodes)[dp].typ
    ensures UntouchedBut(fs.g, old(fs.Disk()), fs.Disk(), dp)
    ensures r == 0 || (r == -1 && e == |old(Entries(fs, dp))|)
    ensures r == 0 ==> Entries(fs, dp) == WithEntry(old(Entries(fs, dp)), e, EntryAt(de, 0))
    ensures r == -1 ==> Entries(fs, dp) == old(Entries(fs, dp)) && NoRoom(fs, dp)
  {
    ghost var data := Contents(fs.g, fs.Disk(), dp);
    assert Dense(fs.g, fs.Disk(), dp);
    EntryOffset(data, e);
    var ok := WriteBytes(fs, dp, DESIZE * e, de);
    if ok {
      EntryWritten(data, Contents(fs.g, fs.Disk(), dp), e, de);
      return 0;
    }
    EntryRefused(fs, dp, e);
    return -1;
  }

  lemma EntryWritten(data: seq<byte>, data': seq<byte>, e: nat, de: seq<byte>)
    requires |data| % DESIZE == 0 && e <= |data| / DESIZE && |de| == DESIZE && DESIZE * e <= |data|
    requires data' == Spliced(data, DESIZE * e, de)
    ensures |data'| % DESIZE == 0 && Decode(data') == WithEntry(Decode(data), e, EntryAt(de, 0))
  {
    SpliceEntry(data, e, de);
  }

  /** An entry that cannot be written is one past the last, and there is no room for it. */
  lemma EntryRefused(fs: FileSystem, dp: nat, e: nat)
    requires fs.Valid() && dp < |fs.inodes| && fs.inodes[dp].size % DESIZE == 0 && DESIZE * e <= fs.inodes[dp].size
    requires DESIZE * e + DESIZE > MAXFILE * BSIZE || (fs.Full() && NoBlockAt(fs.g, fs.Disk(), dp, DESIZE * e))
    ensures DESIZE * e == fs.inodes[dp].size && NoRoom(fs, dp)
  {
    assert Dense(fs.g, fs.Disk(), dp);
    if NoBlockAt(fs.g, fs.Disk(), dp, DESIZE * e) { NoBlockBehind(fs.g, fs.Disk(), dp, DESIZE * e); }
  }

  /** writei of 16 bytes at an offset that is a multiple of 16. */
  method WriteBytes(fs: FileSystem, dp: nat, off: nat, de: seq<byte>) returns (ok: bool)
    requires fs.Valid() && dp < |fs.inodes| && off <= fs.inodes[dp].size && off % DESIZE == 0 && |de| == DESIZE
    modifies fs
    ensures fs.Valid() && |fs.inodes| == |old(fs.inodes)| && fs.inodes[dp].typ == old(fs.inodes)[dp].typ
    ensures UntouchedBut(fs.g, old(fs.Disk()), fs.Disk(), dp) && off <= |old(Contents(fs.g, fs.Disk(), dp))|
    ensures ok ==> Contents(fs.g, fs.Disk(), dp) == Spliced(old(Contents(fs.g, fs.Disk(), dp)), off, de)
    ensures !ok ==> Contents(fs.g, fs.Disk(), dp) == old(Contents(fs.g, fs.Disk(), dp))
    ensures off + DESIZE <= old(fs.inodes)[dp].size ==> ok
    ensures !ok ==> off + DESIZE > MAXFILE * BSIZE || (fs.Full() && NoBlockAt(fs.g, fs.Disk(), dp, off))
  {
    ghost var data := Contents(fs.g, fs.Disk(), dp);
    assert Dense(fs.g, fs.Disk(), dp);
    var w; ghost var W, stray;
    w, W, stray := fs.Writei(dp, de, off, DESIZE);
    ok := w == DESIZE;
    if ok {
      StoredAll(data, off, de, w);
      assert de[..w] == de;
    } else if w != -1 {
      assert off == DESIZE * (off / DESIZE);
      NothingStored(data, off / DESIZE, de, w);
    }
  }

  /** A write of one entry that stops short has stored nothing. */
  lemma NothingStored(data: seq<byte>, e: nat, de: seq<byte>, w: nat)
    requires |de| == DESIZE && w < DESIZE && Stops(DESIZE * e, w) && DESIZE * e <= |data|
    ensures w == 0 && Stored(data, DESIZE * e, de, w, 0) == data
  {
    WholeEntry(e, w);
    StoredAll(data, DESIZE * e, de, w);
    assert Spliced(data, DESIZE * e, []) == data;
    assert de[..w] == [];
  }

  lemma EntryOffset(data: seq<byte>, e: nat)
    requires |data| % DESIZE == 0 && e <= |data| / DESIZE && |data| <= MAXFILE * BSIZE
    ensures DESIZE * e <= |data| && (e < |data| / DESIZE ==> DESIZE * e + DESIZE <= |data|)
    ensures DESIZE * e + DESIZE > MAXFILE * BSIZE ==> e == |data| / DESIZE && |data| == MAXFILE * BSIZE
  {
  }

  /** If the file has no block for a place up to its end, it ends there with its last block. */
  lemma NoBlockBehind(g: Geometry, d: Fs, i: nat, pos: nat)
    requires Dense(g, d, i) && i < |d.inodes| && NoBlockAt(g, d, i, pos) && pos <= d.inodes[i].size
    ensures pos == d.inodes[i].size && pos % BSIZE == 0
  {
    assert HasBlock(g, d, i, d.inodes[i].size, pos / BSIZE);
  }

  lemma WholeEntry(e: nat, w: nat)
    requires w < DESIZE && Stops(DESIZE * e, w)
    ensures w == 0
  {
    assert BSIZE == DESIZE * 64;
  }

  /** What sys_unlink does to the parent: the entry at off becomes all zeros.  The write cannot
      fail, so its panic is unreachable. */
  method UnlinkEntry(fs: FileSystem, dp: nat, off: nat) returns (r: int)
    requires IsDir(fs, dp) && off % DESIZE == 0 && off / DESIZE < |Entries(fs, dp)|
    requires Entries(fs, dp)[off / DESIZE].inum != 0
    modifies fs
    ensures IsDir(fs, dp) && |fs.inodes| == |old(fs.inodes)| && UntouchedBut(fs.g, old(fs.Disk()), fs.Disk(), dp)
    ensures r == 0 && Rebound(old(Entries(fs, dp)), Entries(fs, dp), old(Entries(fs, dp))[off / DESIZE].name, 0)
    ensures Entries(fs, dp) == old(Entries(fs, dp))[off / DESIZE := EntryAt(Zeros(DESIZE), 0)]
  {
    r := WriteEntry(fs, dp, off / DESIZE, Zeros(DESIZE));
    ZeroDecodes();
    ClearEntry(old(Entries(fs, dp)), off / DESIZE, EntryAt(Zeros(DESIZE), 0));
  }

  /** isdirempty: no entry after the first two is in use. */
  method IsDirEmpty(fs: FileSystem, dp: nat) returns (empty: bool)
    requires IsDir(fs, dp)
    modifies fs
    ensures unchanged(fs)
    ensures empty <==> |Entries(fs, dp)| <= 2 || FirstUsed(Entries(fs, dp), 2) == |Entries(fs, dp)|
  {
    ghost var es := Entries(fs, dp);
    var e := 2;
    while DESIZE * e < fs.inodes[dp].size
      invariant unchanged(fs) && IsDir(fs, dp) && Entries(fs, dp) == es
      invariant 2 <= e && (e <= |es| || e == 2) && (e <= |es| ==> FirstUsed(es, 2) == FirstUsed(es, e))
      decreases |es| - e
    {
      var ok, i, raw := ReadEntry(fs, dp, e);
      assert es[e].inum == i;
      if i != 0 {
        return false;
      }
      e := e + 1;
    }
    empty := true;
  }

  /** The first entry in use from e on; |es| if there is none. */
  function FirstUsed(es: seq<Dirent>, e: nat): (x: nat)
    requires e <= |es|
    ensures e <= x <= |es| && (x < |es| ==> es[x].inum != 0)
    ensures forall f :: e <= f < x ==> es[f].inum == 0
    decreases |es| - e
  {
    if e == |es| || es[e].inum != 0 then e else FirstUsed(es, e + 1)
  }
}
