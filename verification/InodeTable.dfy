/**
  The in-memory inode table of kernel/fs.c and path names: iget, idup, ilock and iput keep
  one counted entry per referenced inode, and namex walks a path from the root or the
  current directory.  Sleep locks are not modelled: one walk runs at a time.
 */
module InodeTable {
  import opened FsLayout
  import opened FsCode
  import opened Directory

  const NINODE := 50
  const ROOTINO := 1
  const SLASH: byte := 47

  // ----- path components

  /** The bytes of a C string from i up to the next slash or the end. */
  function ElemEnd(path: seq<byte>, i: nat): (j: nat)
    requires i <= |path|
    ensures i <= j <= |path| && (j < |path| ==> path[j] == SLASH || path[j] == 0)
    ensures forall k :: i <= k < j ==> path[k] != SLASH && path[k] != 0
    decreases |path| - i
  {
    if i == |path| || path[i] == SLASH || path[i] == 0 then i else ElemEnd(path, i + 1)
  }

  /** The non-empty slash-separated components from i on, each cut to DIRSIZ bytes. */
  function Components(path: seq<byte>, i: nat): seq<Name>
    requires i <= |path|
    decreases |path| - i
  {
    if i == |path| || path[i] == 0 then []
    else if path[i] == SLASH then Components(path, i + 1)
    else
      var j := ElemEnd(path, i);
      [Truncate(path[i..j])] + Components(path, j)
  }

  function Truncate(s: seq<byte>): Name {
    if |s| <= DIRSIZ then s else s[..DIRSIZ]
  }

  method SkipSlashes(path: seq<byte>, start: nat) returns (p: nat)
    requires start <= |path|
    ensures start <= p <= |path| && CharAt(path, p) != SLASH && Components(path, start) == Components(path, p)
  {
    p := start;
    while CharAt(path, p) == SLASH
      invariant start <= p <= |path|
      invariant Components(path, start) == Components(path, p)
      decreases |path| - p
    {
      p := p + 1;
    }
  }

  /** skipelem: the next component and where the rest of the path starts. */
  method Skipelem(path: seq<byte>, start: nat) returns (found: bool, rest: nat, name: Name)
    requires start <= |path|
    ensures start <= rest <= |path|
    ensures !found ==> Components(path, start) == []
    ensures found ==> start < rest && Components(path, start) == [name] + Components(path, rest) && Canon(name) == name
    ensures found ==> (CharAt(path, rest) == 0 <==> Components(path, rest) == [])
  {
    var p := SkipSlashes(path, start);
    if CharAt(path, p) == 0 {
      return false, p, [];
    }
    var s := p;
    while CharAt(path, p) != SLASH && CharAt(path, p) != 0
      invariant s <= p <= |path|
      invariant ElemEnd(path, s) == ElemEnd(path, p)
      decreases |path| - p
    {
      p := p + 1;
    }
    name := if p - s >= DIRSIZ then path[s..s + DIRSIZ] else path[s..p];
    TruncateSlice(path, s, p);
    NameIsCanon(name);
    rest := SkipSlashes(path, p);
    return true, rest, name;
  }

  lemma TruncateSlice(path: seq<byte>, s: nat, p: nat)
    requires s <= p <= |path|
    ensures Truncate(path[s..p]) == if p - s >= DIRSIZ then path[s..s + DIRSIZ] else path[s..p]
  {
    if p - s >= DIRSIZ { assert path[s..p][..DIRSIZ] == path[s..s + DIRSIZ]; }
  }

  lemma NameIsCanon(name: Name)
    requires |name| <= DIRSIZ && forall k :: 0 <= k < |name| ==> name[k] != 0
    ensures Canon(name) == name
  {
    NameLenSkips(name, 0, |name|);
  }

  // ----- reference counts

  datatype Entry = Entry(inum: nat, ref: nat, valid: bool, copy: Inode)

  function RefIn(e: Entry, i: nat): nat {
    if e.inum == i then e.ref else 0
  }

  /** The number of references to inode i in the whole table. */
  function Refs(es: seq<Entry>, i: nat): nat {
    if es == [] then 0 else Refs(es[..|es| - 1], i) + RefIn(es[|es| - 1], i)
  }

  /** The number of entries in use. */
  function Busy(es: seq<Entry>): (n: nat)
    ensures n <= |es|
  {
    if es == [] then 0 else Busy(es[..|es| - 1]) + (if es[|es| - 1].ref > 0 then 1 else 0)
  }

  lemma {:induction false} RefsUpdate(es: seq<Entry>, s: nat, e: Entry, i: nat)
    requires s < |es|
    ensures Refs(es[s := e], i) == Refs(es, i) - RefIn(es[s], i) + RefIn(e, i)
  {
    var n := |es| - 1;
    if s < n {
      RefsUpdate(es[..n], s, e, i);
      assert es[s := e][..n] == es[..n][s := e];
    } else {
      assert es[s := e][..n] == es[..n];
    }
  }

  lemma {:induction false} BusyUpdate(es: seq<Entry>, s: nat, e: Entry)
    requires s < |es|
    ensures Busy(es[s := e]) == Busy(es) - (if es[s].ref > 0 then 1 else 0) + (if e.ref > 0 then 1 else 0)
  {
    var n := |es| - 1;
    if s < n {
      BusyUpdate(es[..n], s, e);
      assert es[s := e][..n] == es[..n][s := e];
    } else {
      assert es[s := e][..n] == es[..n];
    }
  }

  lemma {:induction false} AllBusy(es: seq<Entry>)
    requires forall s :: 0 <= s < |es| ==> es[s].ref > 0
    ensures Busy(es) == |es|
  {
    if es != [] { AllBusy(es[..|es| - 1]); }
  }

  /** At most one entry in use per inode. */
  ghost predicate OnePerInode(es: seq<Entry>) {
    forall s, t :: 0 <= s < t < |es| && es[s].ref > 0 && es[t].ref > 0 ==> es[s].inum != es[t].inum
  }

  ghost predicate InRange(es: seq<Entry>, n: nat) {
    forall s :: 0 <= s < |es| && es[s].ref > 0 ==> es[s].inum < n
  }

  lemma {:induction false} NoRefs(es: seq<Entry>, i: nat)
    requires forall s :: 0 <= s < |es| && es[s].ref > 0 ==> es[s].inum != i
    ensures Refs(es, i) == 0
  {
    if es != [] { NoRefs(es[..|es| - 1], i); }
  }

  /** The entry in use for an inode holds all its references. */
  lemma EntryHoldsAll(es: seq<Entry>, s: nat)
    requires OnePerInode(es) && s < |es| && es[s].ref > 0
    ensures Refs(es, es[s].inum) == es[s].ref
  {
    var i := es[s].inum;
    RefsUpdate(es, s, es[s].(ref := 0), i);
    NoRefs(es[s := es[s].(ref := 0)], i);
  }

  /** From es to es', d references to inode i were added and nothing else changed. */
  ghost predicate Moved(es: seq<Entry>, es': seq<Entry>, i: nat, d: int) {
    forall j: nat :: Refs(es', j) == Refs(es, j) + (if j == i then d else 0)
  }

  /** es' has one reference more, to inode i. */
  ghost predicate Plus(es: seq<Entry>, es': seq<Entry>, i: nat) {
    Moved(es, es', i, 1) && Busy(es') == Busy(es) + (if Refs(es, i) == 0 then 1 else 0)
  }

  ghost predicate Minus(es: seq<Entry>, es': seq<Entry>, i: nat) {
    Moved(es, es', i, -1) && Busy(es') == Busy(es) - (if Refs(es, i) == 1 then 1 else 0)
  }

  lemma MovedOn(es0: seq<Entry>, es1: seq<Entry>, es2: seq<Entry>, es3: seq<Entry>, i: nat, j: nat)
    requires Plus(es0, es1, i) && Plus(es1, es2, j) && Minus(es2, es3, i)
    ensures Plus(es0, es3, j)
  {
    assert Refs(es2, i) == Refs(es0, i) + (if i == j then 2 else 1);
  }

  lemma MovedBack(es0: seq<Entry>, es1: seq<Entry>, es2: seq<Entry>, i: nat)
    requires Plus(es0, es1, i) && Minus(es1, es2, i)
    ensures Moved(es0, es2, 0, 0) && Busy(es2) == Busy(es0)
  {
  }

  lemma EntryMoves(es: seq<Entry>, s: nat, e: Entry, d: int)
    requires s < |es| && e.ref == es[s].ref + d && (es[s].ref > 0 ==> e.inum == es[s].inum)
    ensures Moved(es, es[s := e], e.inum, d)
    ensures Busy(es[s := e]) == Busy(es) - (if es[s].ref > 0 then 1 else 0) + (if e.ref > 0 then 1 else 0)
  {
    forall j: nat ensures Refs(es[s := e], j) == Refs(es, j) + (if j == e.inum then d else 0) {
      RefsUpdate(es, s, e, j);
    }
    BusyUpdate(es, s, e);
  }

  lemma {:induction false} SomeUnused(es: seq<Entry>, t: nat)
    requires t < |es| && es[t].ref == 0
    ensures Busy(es) < |es|
  {
    if t < |es| - 1 { SomeUnused(es[..|es| - 1], t); }
  }

  lemma {:induction false} NoneBusy(es: seq<Entry>)
    requires forall s :: 0 <= s < |es| ==> es[s].ref == 0
    ensures Busy(es) == 0
  {
    if es != [] { NoneBusy(es[..|es| - 1]); }
  }

  // ----- the table

  /** iget's loop: the entry in use for inode i, else the first entry not in use; NINODE
      stands for none. */
  method Scan(es: seq<Entry>, i: nat) returns (s: nat, empty: nat)
    requires |es| == NINODE
    ensures s <= NINODE && empty <= NINODE
    ensures s < NINODE ==> es[s].ref > 0 && es[s].inum == i
    ensures s == NINODE ==> forall t :: 0 <= t < NINODE && es[t].ref > 0 ==> es[t].inum != i
    ensures empty < NINODE ==> es[empty].ref == 0
    ensures s == empty == NINODE ==> forall t :: 0 <= t < NINODE ==> es[t].ref > 0
  {
    empty := NINODE;
    s := 0;
    while s < NINODE
      invariant 0 <= s <= NINODE && 0 <= empty <= NINODE
      invariant forall t :: 0 <= t < s && es[t].ref > 0 ==> es[t].inum != i
      invariant empty == NINODE ==> forall t :: 0 <= t < s ==> es[t].ref > 0
      invariant empty < NINODE ==> es[empty].ref == 0
    {
      if es[s].ref > 0 && es[s].inum == i {
        return;
      }
      if empty == NINODE && es[s].ref == 0 {
        empty := s;
      }
      s := s + 1;
    }
  }

  /** What freeing inode i on disk leaves. */
  ghost predicate Freed(fs: FileSystem, was: Fs, i: nat)
    reads fs
  {
    && fs.Valid() && |was.inodes| == |fs.inodes| && i < |fs.inodes|
    && fs.inodes == was.inodes[i := Inode(0, was.inodes[i].nlink, 0, NoAddrs())]
    && Contents(fs.g, fs.Disk(), i) == [] && UntouchedBut(fs.g, was, fs.Disk(), i)
  }

  /** The entries of every directory. */
  type Tree = map<nat, seq<Dirent>>

  ghost function TreeOf(fs: FileSystem): Tree
    requires fs.Valid()
    reads fs
  {
    map i: nat | i < |fs.inodes| && fs.inodes[i].typ == T_DIR :: Entries(fs, i)
  }

  /** The inode that a component names in inode i; 0 if it is missing or i is no directory. */
  function Next(tree: Tree, i: nat, name: Name): nat {
    if i in tree then Lookup(tree[i], name) else 0
  }

  /** The walk of a path: fold Next over the components; 0 once one is missing. */
  function Walk(tree: Tree, i: nat, comps: seq<Name>): nat
    decreases |comps|
  {
    if comps == [] then i
    else if Next(tree, i, comps[0]) == 0 then 0
    else Walk(tree, Next(tree, i, comps[0]), comps[1..])
  }

  /** The walk that stops one level early, at the directory of the last component. */
  function WalkParent(tree: Tree, i: nat, comps: seq<Name>): nat {
    if comps == [] then 0
    else
      var d := Walk(tree, i, comps[..|comps| - 1]);
      if d in tree then d else 0
  }

  function Resolve(tree: Tree, i: nat, comps: seq<Name>, parent: bool): nat {
    if parent then WalkParent(tree, i, comps) else Walk(tree, i, comps)
  }

  lemma ParentStep(tree: Tree, i: nat, comps: seq<Name>)
    requires |comps| > 1 
    ensures var next := Next(tree, i, comps[0]);
      WalkParent(tree, i, comps) == if next == 0 then 0 else WalkParent(tree, next, comps[1..])
  {
    var next, init := Next(tree, i, comps[0]), comps[..|comps| - 1];
    assert init[0] == comps[0] && init[1..] == comps[1..][..|comps[1..]| - 1];
    assert Walk(tree, i, init) == if next == 0 then 0 else Walk(tree, next, init[1..]);
  }

  /** A walk of comps from start that has come to inode i with `rest` still to go. */
  ghost predicate Remaining(tree: Tree, start: nat, comps: seq<Name>, i: nat, rest: seq<Name>, parent: bool) {
    && Resolve(tree, start, comps, parent) == Resolve(tree, i, rest, parent)
    && |rest| <= |comps| && rest == comps[|comps| - |rest|..]
    && (parent && rest == [] ==> comps == [])
  }

  lemma RemainingStep(tree: Tree, start: nat, comps: seq<Name>, i: nat, rest: seq<Name>, parent: bool)
    requires Remaining(tree, start, comps, i, rest, parent) && |rest| > (if parent then 1 else 0)
    ensures var next := Next(tree, i, rest[0]);
      if next == 0 then Resolve(tree, start, comps, parent) == 0
      else Remaining(tree, start, comps, next, rest[1..], parent)
  {
    if parent { ParentStep(tree, i, rest); }
    assert rest[1..] == comps[|comps| - |rest[1..]|..];
  }

  lemma WalkEnds(tree: Tree, start: nat, comps: seq<Name>, i: nat, rest: seq<Name>, parent: bool, found: bool)
    requires Remaining(tree, start, comps, i, rest, parent)
    requires found && parent ==> |rest| == 1 && i in tree
    requires found && !parent ==> rest == []
    requires !found && rest == [] ==> parent
    requires !found && rest != [] ==> if parent && |rest| == 1 then i !in tree else Next(tree, i, rest[0]) == 0
    ensures Resolve(tree, start, comps, parent) == if found then i else 0
    ensures found && parent ==> comps != [] && rest == [comps[|comps| - 1]]
  {
    if !found && |rest| > 1 && parent { ParentStep(tree, i, rest); }
    if parent && |rest| == 1 { assert rest[..0] == []; }
  }

  /** What a walk depends on: the directories, and which inodes are free. */
  datatype View = View(tree: Tree, free: set<nat>)

  ghost function ViewOf(fs: FileSystem): View
    requires fs.Valid()
    reads fs
  {
    View(TreeOf(fs), set i: nat | i < |fs.inodes| && fs.inodes[i].typ == 0)
  }

  /** A walk that holds inode i and looks up j needs a table entry, and there is none. */
  ghost predicate NoEntry(es: seq<Entry>, i: nat, j: nat) {
    Refs(es, j) == 0 && j != i && Busy(es) + (if Refs(es, i) == 0 then 1 else 0) == NINODE
  }

  /** A walk from i, begun with table es, comes to an inode that it has to lock and that is
      free, or that it has to enter in a full table. */
  ghost predicate MustPanic(v: View, es: seq<Entry>, i: nat, comps: seq<Name>, parent: bool)
    decreases |comps|
  {
    && comps != []
    && (i in v.free
        || (i in v.tree && !(parent && |comps| == 1) && Next(v.tree, i, comps[0]) != 0
            && (NoEntry(es, i, Next(v.tree, i, comps[0]))
                || MustPanic(v, es, Next(v.tree, i, comps[0]), comps[1..], parent))))
  }

  /** A walk of comps from start that has come to i, with `rest` to go, panics if the rest does. */
  ghost predicate SameDanger(v: View, es: seq<Entry>, start: nat, comps: seq<Name>, i: nat, rest: seq<Name>,
      parent: bool)
  {
    MustPanic(v, es, start, comps, parent) <==> MustPanic(v, es, i, rest, parent)
  }

  /** How one pass of namex's loop ends: in a panic, with nothing found, at the parent that
      was asked for, or one level down. */
  datatype Pass = Stuck | Missing | Arrived | Onward

  /** What pass o says about inode i and the component; `stop` if only the parent is wanted. */
  ghost predicate PassAt(v: View, es: seq<Entry>, i: nat, name: Name, stop: bool, o: Pass) {
    var next := Next(v.tree, i, name);
    match o
    case Stuck => i in v.free || (i in v.tree && !stop && next != 0 && NoEntry(es, i, next))
    case Missing => i !in v.free && (i !in v.tree || (!stop && next == 0))
    case Arrived => i !in v.free && i in v.tree && stop
    case Onward => i !in v.free && i in v.tree && !stop && next != 0 && !NoEntry(es, i, next)
  }

  /** A walk of comps from start that has come to i with `rest` to go, wrapped so that the
      loop need not see inside it. */
  ghost predicate OnPath(v: View, es: seq<Entry>, start: nat, comps: seq<Name>, i: nat, rest: seq<Name>, parent: bool,
      wrap: nat)
    decreases wrap
  {
    if wrap > 0 then OnPath(v, es, start, comps, i, rest, parent, wrap - 1)
    else
      && Remaining(v.tree, start, comps, i, rest, parent) && (i == start || |rest| < |comps|)
      && SameDanger(v, es, start, comps, i, rest, parent)
  }

  lemma {:induction false} UnwrapPath(v: View, es: seq<Entry>, start: nat, comps: seq<Name>, i: nat, rest: seq<Name>,
      parent: bool, wrap: nat)
    ensures OnPath(v, es, start, comps, i, rest, parent, wrap) <==> OnPath(v, es, start, comps, i, rest, parent, 0)
    decreases wrap
  {
    if wrap > 0 { UnwrapPath(v, es, start, comps, i, rest, parent, wrap - 1); }
  }

  lemma PathStep(v: View, es: seq<Entry>, start: nat, comps: seq<Name>, i: nat, rest: seq<Name>, parent: bool,
      wrap: nat)
    requires OnPath(v, es, start, comps, i, rest, parent, wrap) && rest != []
    requires PassAt(v, es, i, rest[0], parent && |rest| == 1, Onward)
    ensures OnPath(v, es, start, comps, Next(v.tree, i, rest[0]), rest[1..], parent, wrap)
  {
    UnwrapPath(v, es, start, comps, i, rest, parent, wrap);
    RemainingStep(v.tree, start, comps, i, rest, parent);
    UnwrapPath(v, es, start, comps, Next(v.tree, i, rest[0]), rest[1..], parent, wrap);
  }

  /** A walk that ends at i before its last component decides the whole walk. */
  lemma PathStops(v: View, es: seq<Entry>, start: nat, comps: seq<Name>, i: nat, rest: seq<Name>, parent: bool, o: Pass,
      wrap: nat)
    requires OnPath(v, es, start, comps, i, rest, parent, wrap) && rest != [] && !o.Onward?
    requires PassAt(v, es, i, rest[0], parent && |rest| == 1, o)
    ensures MustPanic(v, es, start, comps, parent) <==> o.Stuck?
    ensures o.Missing? ==> Resolve(v.tree, start, comps, parent) == 0
    ensures o.Arrived? ==>
      parent && comps != [] && Resolve(v.tree, start, comps, parent) == i && rest[0] == comps[|comps| - 1]
  {
    UnwrapPath(v, es, start, comps, i, rest, parent, wrap);
    if !o.Stuck? { WalkEnds(v.tree, start, comps, i, rest, parent, o.Arrived?); }
  }

  /** So does one that has no component left. */
  lemma PathEnds(v: View, es: seq<Entry>, start: nat, comps: seq<Name>, i: nat, parent: bool, wrap: nat)
    requires OnPath(v, es, start, comps, i, [], parent, wrap)
    ensures !MustPanic(v, es, start, comps, parent) && (parent ==> i == start)
    ensures Resolve(v.tree, start, comps, parent) == if parent then 0 else i
  {
    UnwrapPath(v, es, start, comps, i, [], parent, wrap);
    WalkEnds(v.tree, start, comps, i, [], parent, !parent);
  }

  /** With two table entries to spare, only a component that names a free inode is a danger. */
  lemma {:induction false} NoPanic(v: View, es: seq<Entry>, i: nat, comps: seq<Name>, parent: bool)
    requires Busy(es) + 1 < NINODE && i !in v.free
    requires forall d, n :: d in v.tree && n in comps ==> Next(v.tree, d, n) !in v.free
    ensures !MustPanic(v, es, i, comps, parent)
    decreases |comps|
  {
    if comps != [] && i in v.tree && Next(v.tree, i, comps[0]) != 0 {
      NoPanic(v, es, Next(v.tree, i, comps[0]), comps[1..], parent);
    }
  }

  /** A link, or a reference in the table, keeps inode i from being freed. */
  ghost predicate Kept(d: Fs, es: seq<Entry>, i: nat) {
    i < |d.inodes| && (d.inodes[i].nlink > 0 || Refs(es, i) > 0)
  }

  ghost predicate KeptIfUsed(d: Fs, es: seq<Entry>, i: nat) {
    i < |d.inodes| && d.inodes[i].typ != 0 ==> Kept(d, es, i)
  }

  /** Inode dp, if a directory, is whole entries that name inodes of the disk, free or not. */
  ghost predicate WholeDir(g: Geometry, d: Fs, dp: nat) {
    Shape(g, d) && dp < |d.inodes| && d.inodes[dp].typ == T_DIR ==>
      d.inodes[dp].size % DESIZE == 0 && forall n :: Lookup(Decode(Contents(g, d, dp)), n) < |d.inodes|
  }

  /** The root exists, inodes in use are linked or referenced, and directories are whole. */
  ghost predicate Sound(g: Geometry, d: Fs, es: seq<Entry>) {
    && Shape(g, d) && ROOTINO < |d.inodes| && d.inodes[ROOTINO].typ != 0
    && (forall i: nat :: KeptIfUsed(d, es, i))
    && forall dp: nat :: WholeDir(g, d, dp)
  }

  /** References that are taken do no harm. */
  lemma SoundGrows(g: Geometry, d: Fs, es: seq<Entry>, es': seq<Entry>)
    requires Sound(g, d, es) && forall j: nat :: Refs(es', j) >= Refs(es, j)
    ensures Sound(g, d, es')
  {
    forall i: nat ensures KeptIfUsed(d, es', i) { assert KeptIfUsed(d, es, i); }
  }

  lemma SoundHeld(g: Geometry, d: Fs, es: seq<Entry>, es': seq<Entry>, i: nat, held: bool)
    requires Sound(g, d, es) && Moved(es, es', i, if held then 1 else 0)
    ensures Sound(g, d, es')
  {
    SoundGrows(g, d, es, es');
  }

  /** Nor does one that is given back, if something else keeps the inode. */
  lemma SoundShrinks(g: Geometry, d: Fs, es: seq<Entry>, es': seq<Entry>, i: nat)
    requires Sound(g, d, es) && Moved(es, es', i, -1) && KeptIfUsed(d, es', i)
    ensures Sound(g, d, es')
  {
    forall j: nat ensures KeptIfUsed(d, es', j) { assert KeptIfUsed(d, es, j); }
  }

  /** Nor does freeing an inode that nothing keeps. */
  lemma SoundFreed(g: Geometry, d: Fs, d': Fs, es: seq<Entry>, es': seq<Entry>, i: nat)
    requires Sound(g, d, es) && Moved(es, es', i, -1) && i < |d.inodes| && i != ROOTINO
    requires UntouchedBut(g, d, d', i) && d'.inodes[i].typ == 0
    ensures Sound(g, d', es')
  {
    assert UntouchedAt(g, d, d', i, ROOTINO);
    forall j: nat ensures KeptIfUsed(d', es', j) { assert UntouchedAt(g, d, d', i, j) && KeptIfUsed(d, es, j); }
    forall dp: nat ensures WholeDir(g, d', dp) { assert UntouchedAt(g, d, d', i, dp) && WholeDir(g, d, dp); }
  }

  /** iput of a loaded entry keeps a sound table sound. */
  lemma PutSound(g: Geometry, d: Fs, d': Fs, es: seq<Entry>, es': seq<Entry>, s: nat)
    requires OnePerInode(es) && s < |es| && es[s].ref > 0 && es[s].inum < |d.inodes| && Moved(es, es', es[s].inum, -1)
    requires if es[s].ref == 1 && es[s].valid && d.inodes[es[s].inum].nlink == 0
             then UntouchedBut(g, d, d', es[s].inum) && d'.inodes[es[s].inum].typ == 0
             else d' == d
    ensures Sound(g, d, es) && es[s].valid && es[s].inum != ROOTINO ==> Sound(g, d', es')
  {
    EntryHoldsAll(es, s);
    if Sound(g, d, es) && es[s].valid && es[s].inum != ROOTINO {
      if es[s].ref == 1 && d.inodes[es[s].inum].nlink == 0 {
        SoundFreed(g, d, d', es, es', es[s].inum);
      } else {
        SoundShrinks(g, d, es, es', es[s].inum);
      }
    }
  }

  /** A loaded entry holds a copy of its inode, which is in use. */
  ghost predicate Loaded(es: seq<Entry>, inodes: seq<Inode>) {
    forall s :: 0 <= s < |es| && es[s].ref > 0 && es[s].valid ==>
      es[s].inum < |inodes| && es[s].copy == inodes[es[s].inum] && es[s].copy.typ != 0
  }

  class ITable {
    const fs: FileSystem
    var slots: seq<Entry>

    /** One entry per referenced inode; between operations every inode is as on disk, and
        one that an entry has loaded is in use. */
    ghost predicate Valid()
      reads this, fs
    {
      && |slots| == NINODE && OnePerInode(slots) && InRange(slots, |fs.inodes|)
      && fs.Valid() && fs.inodes == fs.dinodes
      && Loaded(slots, fs.inodes)
    }

    constructor (fs: FileSystem)
      requires fs.Valid() && fs.inodes == fs.dinodes
      ensures Valid() && this.fs == fs && Busy(slots) == 0
      ensures forall i: nat :: Refs(slots, i) == 0
    {
      this.fs := fs;
      slots := seq(NINODE, _ => Entry(0, 0, false, Inode(0, 0, 0, NoAddrs())));
      new;
      forall i: nat ensures Refs(slots, i) == 0 { NoRefs(slots, i); }
      NoneBusy(slots);
    }

    /** iget: one more reference to inode i; panics if it has none and the table is full. */
    method Iget(i: nat) returns (s: nat, panicked: bool)
      requires Valid() && i < |fs.inodes|
      modifies this
      ensures Valid()
      ensures panicked <==> Refs(old(slots), i) == 0 && Busy(old(slots)) == NINODE
      ensures panicked ==> slots == old(slots)
      ensures !panicked ==> s < NINODE && slots[s].inum == i && slots[s].ref > 0
      ensures forall t :: 0 <= t < NINODE && old(slots)[t].ref > 0 ==>
        slots[t] == old(slots)[t].(ref := slots[t].ref) && slots[t].ref > 0
      ensures !panicked ==> Plus(old(slots), slots, i)
    {
      var empty;
      s, empty := Scan(slots, i);
      if s < NINODE {
        EntryHoldsAll(slots, s);
        EntryMoves(slots, s, slots[s].(ref := slots[s].ref + 1), 1);
        slots := slots[s := slots[s].(ref := slots[s].ref + 1)];
        return s, false;
      }
      NoRefs(slots, i);
      if empty == NINODE {
        AllBusy(slots);
        return 0, true;
      }
      SomeUnused(slots, empty);
      Recycle(empty, i);
      return empty, false;
    }

    /** The part of iget that takes an unused entry for inode i. */
    method Recycle(s: nat, i: nat)
      requires Valid() && i < |fs.inodes| && s < NINODE && slots[s].ref == 0
      requires forall t :: 0 <= t < NINODE && slots[t].ref > 0 ==> slots[t].inum != i
      modifies this
      ensures Valid() && slots == old(slots)[s := slots[s]] && slots[s].inum == i && slots[s].ref > 0
      ensures Plus(old(slots), slots, i)
    {
      NoRefs(slots, i);
      EntryMoves(slots, s, Entry(i, 1, false, slots[s].copy), 1);
      slots := slots[s := Entry(i, 1, false, slots[s].copy)];
    }

    /** idup: one more reference through an entry in use. */
    method Idup(s: nat)
      requires Valid() && s < NINODE && slots[s].ref > 0
      modifies this
      ensures Valid() && slots[s].inum == old(slots)[s].inum && slots[s].ref > 0
      ensures Plus(old(slots), slots, slots[s].inum)
    {
      EntryHoldsAll(slots, s);
      EntryMoves(slots, s, slots[s].(ref := slots[s].ref + 1), 1);
      slots := slots[s := slots[s].(ref := slots[s].ref + 1)];
    }

    /** ilock: load the inode from disk if the entry holds no copy; panics on a free inode. */
    method Ilock(s: nat) returns (panicked: bool)
      requires Valid() && s < NINODE && slots[s].ref > 0
      modifies this
      ensures |slots| == NINODE && slots[s].inum < |fs.inodes|
      ensures slots == old(slots)[s := old(slots)[s].(valid := true, copy := fs.inodes[slots[s].inum])]
      ensures Moved(old(slots), slots, slots[s].inum, 0) && Busy(slots) == Busy(old(slots))
      ensures panicked <==> fs.inodes[slots[s].inum].typ == 0
      ensures !panicked ==> Valid()
    {
      panicked := false;
      if !slots[s].valid {
        var i := slots[s].inum;
        EntryMoves(slots, s, slots[s].(valid := true, copy := fs.dinodes[i]), 0);
        slots := slots[s := slots[s].(valid := true, copy := fs.dinodes[i])];
        panicked := slots[s].copy.typ == 0;
      } else {
        assert slots[s := slots[s].(valid := true, copy := fs.inodes[slots[s].inum])] == slots;
      }
    }

    /** iput drops the last reference to a cached inode without links. */
    ghost predicate Frees(s: nat)
      requires Valid() && s < NINODE && slots[s].ref > 0
      reads this, fs
    {
      slots[s].ref == 1 && slots[s].valid && fs.inodes[slots[s].inum].nlink == 0
    }

    /** iput: one reference less; if it was the last and the inode has no links, the inode
        is emptied and freed on disk, and nothing else changes. */
    method Iput(s: nat) returns (panicked: bool)
      requires Valid() && s < NINODE && slots[s].ref > 0
      modifies this, fs
      ensures Valid() && !panicked && |fs.inodes| == |old(fs.inodes)|
      ensures Minus(old(slots), slots, old(slots)[s].inum)
      ensures slots == old(slots)[s := slots[s]] && slots[s].inum == old(slots)[s].inum
        && slots[s].ref == old(slots)[s].ref - 1
      ensures !old(Frees(s)) ==> unchanged(fs)
      ensures old(Frees(s)) ==> Freed(fs, old(fs.Disk()), old(slots)[s].inum)
      ensures old(Sound(fs.g, fs.Disk(), slots) && slots[s].valid && slots[s].inum != ROOTINO) ==>
        Sound(fs.g, fs.Disk(), slots)
    {
      panicked := false;
      ghost var d := fs.Disk();
      if slots[s].ref == 1 && slots[s].valid && slots[s].copy.nlink == 0 {
        panicked := FreeLast(s);
      }
      DropRef(s);
      PutSound(fs.g, d, fs.Disk(), old(slots), slots, s);
    }

    method DropRef(s: nat)
      requires Valid() && s < NINODE && slots[s].ref > 0
      modifies this
      ensures Valid() && slots == old(slots)[s := old(slots)[s].(ref := old(slots)[s].ref - 1)]
        && Minus(old(slots), slots, slots[s].inum)
    {
      EntryHoldsAll(slots, s);
      EntryMoves(slots, s, slots[s].(ref := slots[s].ref - 1), -1);
      slots := slots[s := slots[s].(ref := slots[s].ref - 1)];
    }

    /** The branch of iput that frees the inode. */
    method FreeLast(s: nat) returns (panicked: bool)
      requires Valid() && s < NINODE && slots[s].ref > 0 && Frees(s)
      modifies this, fs
      ensures Valid() && !panicked && |fs.inodes| == |old(fs.inodes)|
      ensures slots == old(slots)[s := old(slots)[s].(valid := false, copy := slots[s].copy)]
      ensures Moved(old(slots), slots, slots[s].inum, 0)
      ensures Busy(slots) == Busy(old(slots)) && Freed(fs, old(fs.Disk()), old(slots)[s].inum)
    {
      panicked := fs.FreeInode(slots[s].inum);
      var copy := fs.inodes[slots[s].inum];
      EntryMoves(slots, s, slots[s].(valid := false, copy := copy), 0);
      slots := slots[s := slots[s].(valid := false, copy := copy)];
    }

    /** iput of an entry taken during a walk that began with table `before`: some link or
        earlier reference keeps the inode. */
    method Release(s: nat, ghost before: seq<Entry>)
      requires Valid() && s < NINODE && slots[s].ref > 0
      requires Kept(fs.Disk(), before, slots[s].inum) && Refs(slots, slots[s].inum) > Refs(before, slots[s].inum)
      modifies this, fs
      ensures Valid() && unchanged(fs) && Minus(old(slots), slots, old(slots)[s].inum)
      ensures slots == old(slots)[s := slots[s]] && slots[s].inum == old(slots)[s].inum
      ensures slots[s].ref == Refs(old(slots), slots[s].inum) - 1
    {
      EntryHoldsAll(slots, s);
      var panicked := Iput(s);
    }

    /** A walk that began with table `before` holds entry s, for inode i, and has changed no
        other count; s == NINODE if it has let go of everything. */
    ghost predicate WalkState(before: seq<Entry>, v: View, s: nat, i: nat)
      reads this, fs
    {
      && Valid() && Sound(fs.g, fs.Disk(), before) && v == ViewOf(fs)
      && if s < NINODE
         then slots[s].ref > 0 && slots[s].inum == i && i < |fs.inodes| && Plus(before, slots, i)
         else Moved(before, slots, 0, 0)
    }

    /** WalkState, wrapped so that the loop need not see inside it. */
    ghost predicate Walking(before: seq<Entry>, v: View, s: nat, i: nat, wrap: nat)
      reads this, fs
      decreases wrap
    {
      if wrap == 0 then WalkState(before, v, s, i) else Walking(before, v, s, i, wrap - 1)
    }

    lemma {:induction false} Unwrap(before: seq<Entry>, v: View, s: nat, i: nat, wrap: nat)
      ensures Walking(before, v, s, i, wrap) <==> WalkState(before, v, s, i)
      decreases wrap
    {
      if wrap > 0 { Unwrap(before, v, s, i, wrap - 1); }
    }

    /** The last inode of a walk that names nothing is let go. */
    method LetGo(s: nat, ghost before: seq<Entry>, ghost v: View, ghost i: nat, ghost wrap: nat)
      requires s < NINODE && Walking(before, v, s, i, wrap) && Kept(fs.Disk(), before, i) && wrap > 2
      modifies this, fs
      ensures Walking(before, v, NINODE, 0, wrap) && unchanged(fs)
    {
      Unwrap(before, v, s, i, wrap);
      ghost var here := slots;
      Release(s, before);
      MovedBack(before, here, slots, i);
      Unwrap(before, v, NINODE, 0, wrap);
    }

    /** A walk that holds entry s, and, since table `here`, also entry next for inode j. */
    ghost predicate BothState(before: seq<Entry>, here: seq<Entry>, v: View, s: nat, i: nat, next: nat, j: nat)
      reads this, fs
    {
      && Valid() && Sound(fs.g, fs.Disk(), before) && v == ViewOf(fs)
      && s < NINODE && slots[s].ref > 0 && slots[s].inum == i && Kept(fs.Disk(), before, i) && Plus(before, here, i)
      && next < NINODE && slots[next].ref > 0 && slots[next].inum == j && j < |fs.inodes| && Plus(here, slots, j)
    }

    ghost predicate Both(before: seq<Entry>, here: seq<Entry>, v: View, s: nat, i: nat, next: nat, j: nat, wrap: nat)
      reads this, fs
      decreases wrap
    {
      if wrap == 0 then BothState(before, here, v, s, i, next, j) else Both(before, here, v, s, i, next, j, wrap - 1)
    }

    lemma {:induction false} UnwrapBoth(before: seq<Entry>, here: seq<Entry>, v: View, s: nat, i: nat, next: nat,
        j: nat, wrap: nat)
      ensures Both(before, here, v, s, i, next, j, wrap) <==> BothState(before, here, v, s, i, next, j)
      decreases wrap
    {
      if wrap > 0 { UnwrapBoth(before, here, v, s, i, next, j, wrap - 1); }
    }

    /** The reference to i is given back after one to j was taken. */
    method Exchange(s: nat, next: nat, ghost before: seq<Entry>, ghost here: seq<Entry>, ghost v: View, ghost i: nat,
        ghost j: nat, ghost wrap: nat)
      requires Both(before, here, v, s, i, next, j, wrap) && s < NINODE && next < NINODE && wrap > 2
      modifies this, fs
      ensures unchanged(fs) && Walking(before, v, next, j, wrap)
    {
      UnwrapBoth(before, here, v, s, i, next, j, wrap);
      ghost var both := slots;
      EntryHoldsAll(slots, s);
      Release(s, before);
      MovedOn(before, here, both, slots, i, j);
      Unwrap(before, v, next, j, wrap);
    }

    /** dirlookup of the component. */
    method LookUp(s: nat, name: Name, ghost before: seq<Entry>, ghost v: View, ghost i: nat, ghost wrap: nat)
        returns (inum: nat)
      requires s < NINODE && i in v.tree && Walking(before, v, s, i, wrap) && Canon(name) == name && wrap > 2
      modifies fs
      ensures unchanged(fs) && inum == Next(v.tree, i, name) < |fs.inodes|
    {
      Unwrap(before, v, s, i, wrap);
      assert WholeDir(fs.g, fs.Disk(), i);
      var off, panicked;
      inum, off, panicked := Dirlookup(fs, slots[s].inum, name);
    }

    /** iget of what the component names. */
    method TakeChild(s: nat, j: nat, ghost before: seq<Entry>, ghost v: View, ghost i: nat, ghost wrap: nat)
        returns (next: nat, panicked: bool)
      requires s < NINODE && Walking(before, v, s, i, wrap) && Kept(fs.Disk(), before, i) && j < |fs.inodes| && wrap > 2
      modifies this
      ensures panicked <==> NoEntry(before, i, j)
      ensures !panicked ==> next < NINODE && Both(before, old(slots), v, s, i, next, j, wrap)
    {
      Unwrap(before, v, s, i, wrap);
      assert Refs(slots, j) == Refs(before, j) + if j == i then 1 else 0;
      next, panicked := Iget(j);
      if !panicked {
        UnwrapBoth(before, old(slots), v, s, i, next, j, wrap);
      }
    }

    /** dirlookup of the component, and iget of what it names. */
    method Child(s: nat, name: Name, ghost before: seq<Entry>, ghost v: View, ghost i: nat, ghost wrap: nat)
      returns (next: nat, found: bool, panicked: bool)
      requires s < NINODE && i in v.tree && Walking(before, v, s, i, wrap) && Kept(fs.Disk(), before, i)
        && Canon(name) == name && wrap > 2
      modifies this, fs
      ensures unchanged(fs)
      ensures panicked <==> Next(v.tree, i, name) != 0 && NoEntry(before, i, Next(v.tree, i, name))
      ensures !panicked ==> (found <==> Next(v.tree, i, name) != 0)
      ensures !panicked && found ==>
        next < NINODE && Both(before, old(slots), v, s, i, next, Next(v.tree, i, name), wrap)
      ensures !panicked && !found ==> slots == old(slots) && Walking(before, v, s, i, wrap)
    {
      Unwrap(before, v, s, i, wrap);
      var inum := LookUp(s, name, before, v, i, wrap);
      if inum == 0 {
        Unwrap(before, v, s, i, wrap);
        return 0, false, false;
      }
      Unwrap(before, v, s, i, wrap);
      next, panicked := TakeChild(s, inum, before, v, i, wrap);
      found := true;
    }

    /** dirlookup of the component, and the exchange of references if it is found. */
    method Descend(s: nat, name: Name, ghost before: seq<Entry>, ghost v: View, ghost i: nat, ghost wrap: nat)
      returns (next: nat, found: bool, panicked: bool)
      requires s < NINODE && i in v.tree && Walking(before, v, s, i, wrap) && Kept(fs.Disk(), before, i)
        && Canon(name) == name && wrap > 2
      modifies this, fs
      ensures unchanged(fs)
      ensures panicked <==> Next(v.tree, i, name) != 0 && NoEntry(before, i, Next(v.tree, i, name))
      ensures !panicked ==> (found <==> Next(v.tree, i, name) != 0)
      ensures !panicked && found ==> next < NINODE && Walking(before, v, next, Next(v.tree, i, name), wrap)
      ensures !panicked && !found ==> Walking(before, v, NINODE, 0, wrap)
    {
      ghost var here := slots;
      next, found, panicked := Child(s, name, before, v, i, wrap);
      if panicked {
        return;
      }
      if found {
        Exchange(s, next, before, here, v, i, Next(v.tree, i, name), wrap);
      } else {
        LetGo(s, before, v, i, wrap);
      }
    }

    /** ilock, which panics on a free inode, and the test for a directory. */
    method CheckDir(s: nat, ghost before: seq<Entry>, ghost v: View, ghost i: nat, ghost wrap: nat)
        returns (dir: bool, panicked: bool)
      requires s < NINODE && Walking(before, v, s, i, wrap) && wrap > 2
      modifies this, fs
      ensures unchanged(fs) && (panicked <==> i in v.free)
      ensures !panicked ==> Walking(before, v, s, i, wrap) && Kept(fs.Disk(), before, i) && (dir <==> i in v.tree)
      ensures i in v.tree ==> i !in v.free
    {
      Unwrap(before, v, s, i, wrap);
      assert KeptIfUsed(fs.Disk(), before, i);
      panicked := Ilock(s);
      assert Plus(before, slots, i);
      dir := slots[s].copy.typ == T_DIR;
      Unwrap(before, v, s, i, wrap);
    }

    /** namex: the entry of the inode that the path names, with one more reference; with
        `parent`, that of its directory, and the last component.  No reference count
        changes otherwise.  It panics exactly if the walk has to lock a free inode or to
        enter an inode in a full table. */
    method Namex(path: seq<byte>, parent: bool, cwd: nat) returns (found: bool, s: nat, name: Name, panicked: bool)
      requires Valid() && Sound(fs.g, fs.Disk(), slots) && cwd < NINODE && slots[cwd].ref > 0 && slots[cwd].inum != 0
      modifies this, fs
      ensures unchanged(fs)
      ensures panicked <==>
        var start := if CharAt(path, 0) == SLASH then ROOTINO else old(slots)[cwd].inum;
        || (CharAt(path, 0) == SLASH && Refs(old(slots), ROOTINO) == 0 && Busy(old(slots)) == NINODE)
        || MustPanic(ViewOf(fs), old(slots), start, Components(path, 0), parent)
      ensures !panicked ==> Valid() && Sound(fs.g, fs.Disk(), slots)
      ensures !panicked && !found ==> Moved(old(slots), slots, 0, 0)
      ensures !panicked && found ==> s < NINODE && slots[s].ref > 0 && Plus(old(slots), slots, slots[s].inum)
      ensures !panicked ==>
        var start := if CharAt(path, 0) == SLASH then ROOTINO else old(slots)[cwd].inum;
        var comps := Components(path, 0);
        var target := Resolve(TreeOf(fs), start, comps, parent);
        (found <==> target != 0)
          && (found ==> slots[s].inum == target && (parent ==> comps != [] && name == comps[|comps| - 1]))
    {
      found, name := false, [];
      ghost var v, wrap := ViewOf(fs), |path| + 3;
      s, panicked := StartWalk(path, cwd, v, wrap);
      if panicked {
        return;
      }
      ghost var start := slots[s].inum;
      found, s, name, panicked := WalkFrom(path, parent, s, old(slots), v, start, wrap);
      if !panicked {
        Unwrap(old(slots), v, if found then s else NINODE,
          if found then Resolve(v.tree, start, Components(path, 0), parent) else 0, wrap);
        SoundHeld(fs.g, fs.Disk(), old(slots), slots, if found then slots[s].inum else 0, found);
      }
    }

    /** The start of namex: the root or the current directory, with one more reference. */
    method StartWalk(path: seq<byte>, cwd: nat, ghost v: View, ghost wrap: nat) returns (s: nat, panicked: bool)
      requires Valid() && Sound(fs.g, fs.Disk(), slots) && cwd < NINODE && slots[cwd].ref > 0 && slots[cwd].inum != 0
        && v == ViewOf(fs)
      modifies this
      ensures panicked <==> CharAt(path, 0) == SLASH && Refs(old(slots), ROOTINO) == 0 && Busy(old(slots)) == NINODE
      ensures !panicked ==>
        s < NINODE == |slots| && slots[s].inum == if CharAt(path, 0) == SLASH then ROOTINO else old(slots)[cwd].inum
      ensures !panicked ==> Walking(old(slots), v, s, slots[s].inum, wrap) && Kept(fs.Disk(), old(slots), slots[s].inum)
    {
      s, panicked := cwd, false;
      assert KeptIfUsed(fs.Disk(), slots, ROOTINO);
      if CharAt(path, 0) == SLASH {
        s, panicked := Iget(ROOTINO);
        if panicked {
          return;
        }
      } else {
        EntryHoldsAll(slots, cwd);
        Idup(s);
      }
      Unwrap(old(slots), v, s, slots[s].inum, wrap);
    }

    /** One pass of namex's loop. */
    method WalkPass(s: nat, name: Name, stop: bool, ghost before: seq<Entry>, ghost v: View, ghost i: nat,
        ghost wrap: nat)
      returns (o: Pass, next: nat)
      requires s < NINODE && Walking(before, v, s, i, wrap) && Canon(name) == name && wrap > 2
      modifies this, fs
      ensures unchanged(fs) && PassAt(v, before, i, name, stop, o)
      ensures o.Missing? ==> Walking(before, v, NINODE, 0, wrap)
      ensures o.Arrived? ==> Walking(before, v, s, i, wrap)
      ensures o.Onward? ==> next < NINODE && Walking(before, v, next, Next(v.tree, i, name), wrap)
    {
      var dir, panicked := CheckDir(s, before, v, i, wrap);
      if panicked {
        return Stuck, s;
      }
      if !dir {
        LetGo(s, before, v, i, wrap);
        return Missing, s;
      }
      if stop {
        return Arrived, s;
      }
      var found;
      next, found, panicked := Descend(s, name, before, v, i, wrap);
      o := if panicked then Stuck else if found then Onward else Missing;
    }

    /** namex's loop, from a directory just referenced: it stops at inode i with `rest` to go. */
    method WalkLoop(path: seq<byte>, parent: bool, s0: nat, ghost before: seq<Entry>, ghost v: View, ghost start: nat,
        ghost wrap: nat)
      returns (o: Pass, s: nat, name: Name, ghost i: nat, ghost rest: seq<Name>)
      requires s0 < NINODE && Walking(before, v, s0, start, wrap) && start != 0 && wrap > 2
      modifies this, fs
      ensures unchanged(fs) && i != 0 && OnPath(v, before, start, Components(path, 0), i, rest, parent, wrap)
        && (o.Onward? <==> rest == [])
      ensures rest != [] ==> rest[0] == name && PassAt(v, before, i, rest[0], parent && |rest| == 1, o)
      ensures o.Missing? ==> Walking(before, v, NINODE, 0, wrap)
      ensures o.Arrived? || o.Onward? ==> s < NINODE && Walking(before, v, s, i, wrap)
    {
      i, rest := start, Components(path, 0);
      ghost var comps := rest;
      var more, p;
      s := s0;
      UnwrapPath(v, before, start, comps, i, rest, parent, wrap);
      more, p, name := Skipelem(path, 0);
      while more
        invariant p <= |path| && (more ==> Canon(name) == name && (CharAt(path, p) == 0 <==> Components(path, p) == []))
        invariant rest == if more then [name] + Components(path, p) else []
        invariant s < NINODE && i != 0 && Walking(before, v, s, i, wrap) && unchanged(fs)
        invariant OnPath(v, before, start, comps, i, rest, parent, wrap)
        decreases |rest|
      {
        var next;
        o, next := WalkPass(s, name, parent && CharAt(path, p) == 0, before, v, i, wrap);
        if !o.Onward? {
          return;
        }
        PathStep(v, before, start, comps, i, rest, parent, wrap);
        s, i, rest := next, Next(v.tree, i, name), rest[1..];
        more, p, name := Skipelem(path, p);
      }
      o := Onward;
    }

    /** The loop, and the return after it. */
    method WalkFrom(path: seq<byte>, parent: bool, s0: nat, ghost before: seq<Entry>, ghost v: View, ghost start: nat,
        ghost wrap: nat)
      returns (found: bool, s: nat, name: Name, panicked: bool)
      requires s0 < NINODE && Walking(before, v, s0, start, wrap) && Kept(fs.Disk(), before, start) && start != 0
        && wrap > 2
      modifies this, fs
      ensures unchanged(fs)
      ensures panicked <==> MustPanic(v, before, start, Components(path, 0), parent)
      ensures !panicked && !found ==>
        Walking(before, v, NINODE, 0, wrap) && Resolve(v.tree, start, Components(path, 0), parent) == 0
      ensures !panicked && found ==>
        var comps := Components(path, 0);
        var target := Resolve(v.tree, start, comps, parent);
        s < NINODE && target != 0 && Walking(before, v, s, target, wrap)
          && (parent ==> comps != [] && name == comps[|comps| - 1])
    {
      var o; ghost var i, rest;
      o, s, name, i, rest := WalkLoop(path, parent, s0, before, v, start, wrap);
      if !o.Onward? {
        PathStops(v, before, start, Components(path, 0), i, rest, parent, o, wrap);
        return o.Arrived?, s, name, o.Stuck?;
      }
      PathEnds(v, before, start, Components(path, 0), i, parent, wrap);
      if parent {
        LetGo(s, before, v, i, wrap);
        return false, s, name, false;
      }
      return true, s, name, false;
    }
  }

  // ----- a directory whose parent is free

  const DOT: Name := [46]
  const DOTDOT: Name := [46, 46]

  lemma OrphanEntries(data: seq<byte>)
    requires data == Encode(3, DOT) + Encode(2, DOTDOT)
    ensures Decode(data) == [Dirent(3, DOT), Dirent(2, DOTDOT)]
  {
    var first := Encode(3, DOT);
    NameIsCanon(DOT);
    NameIsCanon(DOTDOT);
    EncodeDecodes(3, DOT);
    EncodeDecodes(2, DOTDOT);
    SpliceEntry([], 0, first);
    assert Spliced([], 0, first) == first && Decode([]) == [];
    SpliceEntry(first, 1, Encode(2, DOTDOT));
    assert Spliced(first, DESIZE, Encode(2, DOTDOT)) == data;
  }

  const ORPHAN_DATA: seq<byte> := Encode(3, DOT) + Encode(2, DOTDOT)
  const ORPHAN_GEOMETRY := Geometry(3, 2, 0, 1)

  /** A disk with a root directory and, as inode 3, a directory without a name whose ".."
      names inode 2, which is free. */
  function OrphanDisk(): Fs {
    var free := Inode(0, 0, 0, NoAddrs());
    Fs([true, true, true], [Zeros(BSIZE), Zeros(BSIZE), ORPHAN_DATA + Zeros(BSIZE - 2 * DESIZE)],
       [free, free.(typ := T_DIR, nlink := 1), free, Inode(T_DIR, 0, 2 * DESIZE, NoAddrs()[0 := 2])])
  }

  lemma OrphanOwned()
    ensures Owned(ORPHAN_GEOMETRY, OrphanDisk(), map[2 := Slot(3, 0)], {})
  {
    var g, fs, own := ORPHAN_GEOMETRY, OrphanDisk(), map[2 := Slot(3, 0)];
    forall i, k | 0 <= i < |fs.inodes| && 0 <= k < NSLOTS ensures OwningSlot(g, fs, own, i, k) {
      assert fs.inodes[i].addrs[NDIRECT] == 0;
    }
  }

  lemma OrphanContents()
    ensures Owned(ORPHAN_GEOMETRY, OrphanDisk(), map[2 := Slot(3, 0)], {})
    ensures forall i :: 0 <= i < 4 ==> Dense(ORPHAN_GEOMETRY, OrphanDisk(), i)
    ensures Contents(ORPHAN_GEOMETRY, OrphanDisk(), 3) == ORPHAN_DATA
  {
    OrphanOwned();
  }

  method OrphanImage() returns (fs: FileSystem)
    ensures fresh(fs) && fs.Valid() && fs.inodes == fs.dinodes && |fs.inodes| == 4
    ensures fs.inodes[1].typ == T_DIR && fs.inodes[1].nlink == 1 && fs.inodes[1].size == 0
    ensures fs.inodes[0].typ == fs.inodes[2].typ == 0
    ensures fs.inodes[3].typ == T_DIR && fs.inodes[3].size == 2 * DESIZE
      && Entries(fs, 3) == [Dirent(3, DOT), Dirent(2, DOTDOT)]
  {
    fs := new FileSystem(ORPHAN_GEOMETRY, 4);
    fs.ChangeBit(2, true);
    fs.StoreBlock(2, ORPHAN_DATA + Zeros(BSIZE - 2 * DESIZE));
    fs.inodes := OrphanDisk().inodes;
    fs.dinodes := fs.inodes;
    fs.own := map[2 := Slot(3, 0)];
    assert fs.Disk() == OrphanDisk();
    OrphanContents();
    OrphanEntries(ORPHAN_DATA);
  }

  lemma DotDotX()
    ensures Components([46, 46, 47, 120], 0) == [DOTDOT, [120]]
  {
    var path: seq<byte> := [46, 46, 47, 120];
    assert ElemEnd(path, 1) == 2 && ElemEnd(path, 3) == 4;
    assert Components(path, 4) == [] && path[3..4] == [120] && path[0..2] == DOTDOT;
    assert Components(path, 2) == Components(path, 3) == [[120]];
  }

  /** A process is in that directory. */
  method OrphanProcess() returns (table: ITable, s: nat)
    ensures fresh(table) && fresh(table.fs) && table.Valid() && Sound(table.fs.g, table.fs.Disk(), table.slots)
    ensures s < NINODE && table.slots[s].ref > 0 && table.slots[s].inum == 3
    ensures var fs := table.fs; |fs.inodes| == 4 && fs.inodes[2].typ == 0 && fs.inodes[3].typ == T_DIR
    ensures Entries(table.fs, 3) == [Dirent(3, DOT), Dirent(2, DOTDOT)]
  {
    var fs := OrphanImage();
    table := new ITable(fs);
    ghost var before := table.slots;
    var full;
    s, full := table.Iget(3);
    assert Refs(table.slots, 3) == Refs(before, 3) + 1;
    assert Entries(fs, 1) == [];
    assert WholeDir(fs.g, fs.Disk(), 1) && WholeDir(fs.g, fs.Disk(), 3);
  }

  lemma OrphanDanger(v: View, es: seq<Entry>)
    requires 3 in v.tree && v.tree[3] == [Dirent(3, DOT), Dirent(2, DOTDOT)] && 2 in v.free
    ensures MustPanic(v, es, 3, [DOTDOT, [120]], false)
  {
    assert Seek(v.tree[3], DOTDOT, 1) == 1;
    assert Next(v.tree, 3, DOTDOT) == 2;
    assert [DOTDOT, [120]][1..] == [[120]];
    assert MustPanic(v, es, 2, [[120]], false);
  }

  /** From that directory, the walk of "../x" has to lock inode 2, and panics. */
  method OrphanWalk() returns (panicked: bool)
    ensures panicked
  {
    var table, s := OrphanProcess();
    DotDotX();
    OrphanDanger(ViewOf(table.fs), table.slots);
    var found, t, name;
    found, t, name, panicked := table.Namex([46, 46, 47, 120], false, s);
  }
}
