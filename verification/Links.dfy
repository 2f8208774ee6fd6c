/**
  Link counts: create, sys_link and sys_unlink of kernel/sysfile.c with iput and ialloc of
  kernel/fs.c, over inodes whose directories are finite maps.  Each call is one transaction.
  Whether the disk has room for a directory entry is a parameter of the call.
 */
module Links {
  import Directory

  type Name = Directory.Name

  const DOT: Name := [46]
  const DOTDOT: Name := [46, 46]
  const ROOTINO: nat := 1
  const T_DIR: nat := 1
  const T_FILE: nat := 2
  const T_DEVICE: nat := 3

  datatype Node = Node(typ: nat, nlink: nat, entries: map<Name, nat>)

  const FREE := Node(0, 0, map[])

  /** A directory that still has a name. */
  predicate Live(nodes: seq<Node>, d: nat) {
    d < |nodes| && nodes[d].typ == T_DIR && nodes[d].nlink > 0
  }

  /** The entries other than "." that name inode i in live directories. */
  ghost function Links(nodes: seq<Node>, i: nat): set<(nat, Name)> {
    set d: nat, n: Name | d < |nodes| && n in nodes[d].entries && Live(nodes, d) && n != DOT
      && nodes[d].entries[n] == i :: (d, n)
  }

  /** Those that are not "..". */
  ghost function Names(nodes: seq<Node>, i: nat): set<(nat, Name)> {
    set e | e in Links(nodes, i) && e.1 != DOTDOT
  }

  // ----- the invariant

  ghost predicate CountOk(nodes: seq<Node>, i: nat)
    requires i < |nodes|
  {
    nodes[i].nlink == |Links(nodes, i)|
  }

  ghost predicate Counted(nodes: seq<Node>) {
    forall i :: 0 <= i < |nodes| ==> CountOk(nodes, i)
  }

  ghost predicate NodeOk(nodes: seq<Node>, refs: seq<nat>, i: nat)
    requires i < |nodes| == |refs|
  {
    var node := nodes[i];
    && (node.typ == 0 ==> node == FREE && refs[i] == 0)
    && (node.typ != 0 ==> node.nlink > 0 || refs[i] > 0)
    && (node.typ != T_DIR ==> node.entries == map[])
    && (node.typ == T_DIR && node.nlink == 0 ==> Removed(nodes, i))
  }

  /** A directory without a name has only "." and "..". */
  ghost predicate Removed(nodes: seq<Node>, d: nat)
    requires d < |nodes|
  {
    && nodes[d].entries.Keys == {DOT, DOTDOT} && nodes[d].entries[DOT] == d
    && 0 < nodes[d].entries[DOTDOT] < |nodes| && nodes[d].entries[DOTDOT] != d
  }

  /** A live directory has "." and ".." and names inodes in use. */
  ghost predicate Linked(nodes: seq<Node>, d: nat)
    requires d < |nodes|
  {
    var es := nodes[d].entries;
    && DOT in es && es[DOT] == d && DOTDOT in es && Live(nodes, es[DOTDOT])
    && forall n :: n in es ==> 0 < es[n] < |nodes| && nodes[es[n]].typ != 0
  }

  function Parent(nodes: seq<Node>, d: nat): nat
    requires d < |nodes| && DOTDOT in nodes[d].entries
  {
    nodes[d].entries[DOTDOT]
  }

  /** A live directory other than the root has one name, in its parent, which is less deep. */
  ghost predicate InTree(nodes: seq<Node>, depth: seq<nat>, d: nat)
    requires d < |nodes| == |depth|
  {
    && Linked(nodes, d)
    && if d == ROOTINO then Parent(nodes, d) == d && Names(nodes, d) == {}
       else
         && depth[Parent(nodes, d)] < depth[d]
         && |Names(nodes, d)| == 1
         && forall e :: e in Names(nodes, d) ==> e.0 == Parent(nodes, d)
  }

  ghost predicate DirOk(nodes: seq<Node>, depth: seq<nat>, d: nat)
    requires d < |nodes| == |depth|
  {
    Live(nodes, d) ==> InTree(nodes, depth, d)
  }

  ghost predicate Inv(nodes: seq<Node>, refs: seq<nat>, depth: seq<nat>) {
    && |nodes| == |refs| == |depth| && Live(nodes, ROOTINO) && nodes[0] == FREE
    && Counted(nodes)
    && (forall i :: 0 <= i < |nodes| ==> NodeOk(nodes, refs, i))
    && (forall d :: 0 <= d < |nodes| ==> DirOk(nodes, depth, d))
  }

  // ----- how the entries change

  /** Replace the node of one inode. */
  function Set(nodes: seq<Node>, i: nat, node: Node): (r: seq<Node>)
    requires i < |nodes|
    ensures |r| == |nodes|
  {
    nodes[i := node]
  }

  /** The entries of directory d that count for inode j. */
  ghost function LinksIn(nodes: seq<Node>, d: nat, j: nat): set<(nat, Name)>
    requires d < |nodes|
  {
    set n | n in nodes[d].entries && Live(nodes, d) && n != DOT && nodes[d].entries[n] == j :: (d, n)
  }

  /** Replacing one node changes the links by what that node's own entries count for. */
  lemma SetLinks(nodes: seq<Node>, d: nat, node: Node, j: nat)
    requires d < |nodes|
    ensures Links(Set(nodes, d, node), j) == Links(nodes, j) - LinksIn(nodes, d, j) + LinksIn(Set(nodes, d, node), d, j)
    ensures LinksIn(nodes, d, j) <= Links(nodes, j)
    ensures LinksIn(Set(nodes, d, node), d, j) !! (Links(nodes, j) - LinksIn(nodes, d, j))
  {
  }

  /** A change of link count that leaves liveness alone changes no links. */
  lemma RecountLinks(nodes: seq<Node>, i: nat, k: nat, j: nat)
    requires i < |nodes| && (nodes[i].typ == T_DIR ==> (k > 0 <==> nodes[i].nlink > 0))
      && (nodes[i].typ != T_DIR ==> nodes[i].entries == map[])
    ensures Links(Set(nodes, i, nodes[i].(nlink := k)), j) == Links(nodes, j)
  {
    SetLinks(nodes, i, nodes[i].(nlink := k), j);
  }

  /** A new entry counts once, for the inode it names. */
  lemma AddLinks(nodes: seq<Node>, d: nat, n: Name, i: nat, j: nat)
    requires Live(nodes, d) && n !in nodes[d].entries && n != DOT
    ensures var nodes' := Set(nodes, d, nodes[d].(entries := nodes[d].entries[n := i]));
      Links(nodes', j) == Links(nodes, j) + (if j == i then {(d, n)} else {}) && (d, n) !in Links(nodes, j)
  {
    var nodes' := Set(nodes, d, nodes[d].(entries := nodes[d].entries[n := i]));
    SetLinks(nodes, d, nodes'[d], j);
    assert LinksIn(nodes', d, j) == LinksIn(nodes, d, j) + (if j == i then {(d, n)} else {});
  }

  lemma RemoveLinks(nodes: seq<Node>, d: nat, n: Name, j: nat)
    requires Live(nodes, d) && n in nodes[d].entries && n != DOT
    ensures var nodes' := Set(nodes, d, nodes[d].(entries := nodes[d].entries - {n}));
      Links(nodes', j) == Links(nodes, j) - {(d, n)} && ((d, n) in Links(nodes, j) <==> j == nodes[d].entries[n])
  {
    var nodes' := Set(nodes, d, nodes[d].(entries := nodes[d].entries - {n}));
    SetLinks(nodes, d, nodes'[d], j);
    assert LinksIn(nodes', d, j) == LinksIn(nodes, d, j) - {(d, n)};
  }

  // ----- create

  predicate Creatable(typ: nat) {
    typ == T_DIR || typ == T_FILE || typ == T_DEVICE
  }

  function Child(dp: nat, ip: nat, typ: nat): Node {
    Node(typ, 1, if typ == T_DIR then map[DOT := ip, DOTDOT := dp] else map[])
  }

  /** What a successful create leaves. */
  function Created(nodes: seq<Node>, dp: nat, name: Name, ip: nat, typ: nat): (r: seq<Node>)
    requires ip < |nodes| && dp < |nodes| && ip != dp
    ensures |r| == |nodes|
  {
    Set(Set(nodes, ip, Child(dp, ip, typ)), dp,
        Node(nodes[dp].typ, nodes[dp].nlink + (if typ == T_DIR then 1 else 0), nodes[dp].entries[name := ip]))
  }

  ghost predicate CanCreate(nodes: seq<Node>, dp: nat, name: Name, ip: nat, typ: nat) {
    && 0 < ip < |nodes| && ip != dp && nodes[ip] == FREE && Creatable(typ)
    && dp < |nodes| && nodes[dp].typ == T_DIR && name !in nodes[dp].entries && name != DOT && name != DOTDOT
  }

  /** The new entries count once for the new inode, and ".." once for the parent. */
  lemma CreatedLinks(nodes: seq<Node>, dp: nat, name: Name, ip: nat, typ: nat, j: nat)
    requires CanCreate(nodes, dp, name, ip, typ) && Live(nodes, dp)
    ensures Links(Created(nodes, dp, name, ip, typ), j) ==
      Links(nodes, j) + (if j == ip then {(dp, name)} else {})
        + (if j == dp && typ == T_DIR then {(ip, DOTDOT)} else {})
    ensures (dp, name) !in Links(nodes, j) && (ip, DOTDOT) !in Links(nodes, j)
  {
    var n1 := Set(nodes, ip, Child(dp, ip, typ));
    var n2 := Set(n1, dp, nodes[dp].(entries := nodes[dp].entries[name := ip]));
    SetLinks(nodes, ip, Child(dp, ip, typ), j);
    assert LinksIn(n1, ip, j) == if j == dp && typ == T_DIR then {(ip, DOTDOT)} else {};
    AddLinks(n1, dp, name, ip, j);
    RecountLinks(n2, dp, nodes[dp].nlink + (if typ == T_DIR then 1 else 0), j);
    assert Created(nodes, dp, name, ip, typ)
      == Set(n2, dp, n2[dp].(nlink := nodes[dp].nlink + (if typ == T_DIR then 1 else 0)));
  }

  lemma CreatedKeepsCount(nodes: seq<Node>, dp: nat, name: Name, ip: nat, typ: nat)
    requires CanCreate(nodes, dp, name, ip, typ) && Live(nodes, dp) && Counted(nodes)
    ensures Counted(Created(nodes, dp, name, ip, typ))
  {
    var nodes' := Created(nodes, dp, name, ip, typ);
    forall j | 0 <= j < |nodes'| ensures CountOk(nodes', j) {
      CreatedLinks(nodes, dp, name, ip, typ, j);
      assert CountOk(nodes, j);
    }
  }

  lemma CreatedChild(nodes: seq<Node>, depth: seq<nat>, dp: nat, name: Name, ip: nat, typ: nat)
    requires CanCreate(nodes, dp, name, ip, typ) && Live(nodes, dp) && typ == T_DIR && dp != 0
    requires |depth| == |nodes| && Links(nodes, ip) == {} && ip != ROOTINO
    ensures InTree(Created(nodes, dp, name, ip, typ), depth[ip := depth[dp] + 1], ip)
  {
    var nodes' := Created(nodes, dp, name, ip, typ);
    CreatedLinks(nodes, dp, name, ip, typ, ip);
    assert Names(nodes', ip) == {(dp, name)};
  }

  lemma CreatedTree(nodes: seq<Node>, depth: seq<nat>, dp: nat, name: Name, ip: nat, typ: nat, d: nat)
    requires CanCreate(nodes, dp, name, ip, typ) && Live(nodes, dp) && |depth| == |nodes|
    requires d < |nodes| && d != ip && InTree(nodes, depth, d)
    ensures InTree(Created(nodes, dp, name, ip, typ), depth[ip := depth[dp] + 1], d)
  {
    var nodes' := Created(nodes, dp, name, ip, typ);
    CreatedLinks(nodes, dp, name, ip, typ, d);
    assert Names(nodes', d) == Names(nodes, d);
    StillLinked(nodes, nodes', d, name, ip);
  }

  /** Names stay good if no inode is freed and at most one good entry is added. */
  lemma StillLinked(nodes: seq<Node>, nodes': seq<Node>, d: nat, name: Name, ip: nat)
    requires |nodes'| == |nodes| && d < |nodes| && Linked(nodes, d)
    requires forall i :: 0 <= i < |nodes| && nodes[i].typ != 0 ==> nodes'[i].typ != 0
    requires Live(nodes', nodes[d].entries[DOTDOT])
    requires name != DOT && name != DOTDOT && 0 < ip < |nodes| && nodes'[ip].typ != 0
    requires nodes'[d].entries == nodes[d].entries || nodes'[d].entries == nodes[d].entries[name := ip]
    ensures Linked(nodes', d) && Parent(nodes', d) == Parent(nodes, d)
  {
  }

  lemma CreatedNodes(nodes: seq<Node>, refs: seq<nat>, dp: nat, name: Name, ip: nat, typ: nat, i: nat)
    requires CanCreate(nodes, dp, name, ip, typ) && Live(nodes, dp) && i < |nodes| == |refs| && NodeOk(nodes, refs, i)
    ensures NodeOk(Created(nodes, dp, name, ip, typ), refs[ip := 1], i)
  {
  }

  lemma CreatedKeeps(nodes: seq<Node>, refs: seq<nat>, depth: seq<nat>, dp: nat, name: Name, ip: nat, typ: nat)
    requires Inv(nodes, refs, depth) && CanCreate(nodes, dp, name, ip, typ) && Live(nodes, dp)
    ensures Inv(Created(nodes, dp, name, ip, typ), refs[ip := 1], depth[ip := depth[dp] + 1])
  {
    var nodes', refs', depth' := Created(nodes, dp, name, ip, typ), refs[ip := 1], depth[ip := depth[dp] + 1];
    CreatedKeepsCount(nodes, dp, name, ip, typ);
    forall i | 0 <= i < |nodes| ensures NodeOk(nodes', refs', i) { CreatedNodes(nodes, refs, dp, name, ip, typ, i); }
    NotInode0(nodes, refs, depth, dp);
    assert CountOk(nodes, ip);
    forall d | 0 <= d < |nodes| ensures DirOk(nodes', depth', d) {
      if Live(nodes', d) {
        if d == ip {
          CreatedChild(nodes, depth, dp, name, ip, typ);
        } else {
          assert DirOk(nodes, depth, d);
          CreatedTree(nodes, depth, dp, name, ip, typ, d);
        }
      }
    }
  }

  lemma NotInode0(nodes: seq<Node>, refs: seq<nat>, depth: seq<nat>, d: nat)
    requires Inv(nodes, refs, depth) && Live(nodes, d)
    ensures d != 0
  {
    assert DirOk(nodes, depth, d);
  }

  /** The entry of a new file in a directory without a name does not count. */
  lemma CreatedFileUncounted(nodes: seq<Node>, dp: nat, name: Name, ip: nat, typ: nat)
    requires CanCreate(nodes, dp, name, ip, typ) && nodes[dp].nlink == 0 && typ != T_DIR && CountOk(nodes, ip)
    ensures !CountOk(Created(nodes, dp, name, ip, typ), ip)
  {
    var nodes' := Created(nodes, dp, name, ip, typ);
    var n1 := Set(nodes, ip, Child(dp, ip, typ));
    SetLinks(nodes, ip, n1[ip], ip);
    SetLinks(n1, dp, nodes'[dp], ip);
    assert LinksIn(n1, ip, ip) == {} && LinksIn(nodes', dp, ip) == {};
  }

  /** A new subdirectory brings such a directory back to life, and with it its "..". */
  lemma RevivedLinks(nodes: seq<Node>, dp: nat, name: Name, ip: nat)
    requires CanCreate(nodes, dp, name, ip, T_DIR) && nodes[dp].nlink == 0 && Removed(nodes, dp)
    ensures var nodes', p := Created(nodes, dp, name, ip, T_DIR), nodes[dp].entries[DOTDOT];
      && Links(nodes', p) == Links(nodes, p) + ({(dp, DOTDOT)} + (if p == ip then {(dp, name)} else {}))
      && (dp, DOTDOT) !in Links(nodes, p)
  {
    var nodes', p := Created(nodes, dp, name, ip, T_DIR), nodes[dp].entries[DOTDOT];
    var n1 := Set(nodes, ip, Child(dp, ip, T_DIR));
    SetLinks(nodes, ip, n1[ip], p);
    SetLinks(n1, dp, nodes'[dp], p);
    assert LinksIn(nodes, ip, p) == {} && LinksIn(n1, ip, p) == {} && LinksIn(n1, dp, p) == {};
    assert LinksIn(nodes', dp, p) == {(dp, DOTDOT)} + (if p == ip then {(dp, name)} else {});
  }

  lemma CreatedDirMiscounted(nodes: seq<Node>, dp: nat, name: Name, ip: nat)
    requires CanCreate(nodes, dp, name, ip, T_DIR) && nodes[dp].nlink == 0 && Removed(nodes, dp)
    requires CountOk(nodes, nodes[dp].entries[DOTDOT])
    ensures !CountOk(Created(nodes, dp, name, ip, T_DIR), nodes[dp].entries[DOTDOT])
  {
    var nodes', p := Created(nodes, dp, name, ip, T_DIR), nodes[dp].entries[DOTDOT];
    RevivedLinks(nodes, dp, name, ip);
    if p == ip {
      assert Links(nodes, p) == {};
      assert |{(dp, DOTDOT)} + {(dp, name)}| == 2;
    } else {
      assert |Links(nodes, p) + {(dp, DOTDOT)}| == |Links(nodes, p)| + 1;
      assert nodes'[p].nlink == nodes[p].nlink;
    }
  }

  lemma CreateMiscounts(nodes: seq<Node>, refs: seq<nat>, depth: seq<nat>, dp: nat, name: Name, ip: nat, typ: nat)
      returns (j: nat)
    requires Inv(nodes, refs, depth) && CanCreate(nodes, dp, name, ip, typ) && nodes[dp].nlink == 0
    ensures j < |nodes| && j != dp && !CountOk(Created(nodes, dp, name, ip, typ), j)
  {
    assert NodeOk(nodes, refs, dp) && CountOk(nodes, ip) && CountOk(nodes, nodes[dp].entries[DOTDOT]);
    if typ == T_DIR {
      CreatedDirMiscounted(nodes, dp, name, ip);
      j := nodes[dp].entries[DOTDOT];
    } else {
      CreatedFileUncounted(nodes, dp, name, ip, typ);
      j := ip;
    }
  }

  /** create keeps the link counts exactly if the parent still has a name. */
  lemma CreateCountsIff(nodes: seq<Node>, refs: seq<nat>, depth: seq<nat>, dp: nat, name: Name, ip: nat, typ: nat)
    requires Inv(nodes, refs, depth) && CanCreate(nodes, dp, name, ip, typ)
    ensures Counted(Created(nodes, dp, name, ip, typ)) <==> nodes[dp].nlink > 0
  {
    if nodes[dp].nlink > 0 {
      CreatedKeepsCount(nodes, dp, name, ip, typ);
    } else {
      var j := CreateMiscounts(nodes, refs, depth, dp, name, ip, typ);
    }
  }

  // ----- sys_link

  function Relinked(nodes: seq<Node>, ip: nat, dp: nat, name: Name): (r: seq<Node>)
    requires ip < |nodes| && dp < |nodes| && ip != dp
    ensures |r| == |nodes|
  {
    Set(Set(nodes, ip, nodes[ip].(nlink := nodes[ip].nlink + 1)), dp,
        nodes[dp].(entries := nodes[dp].entries[name := ip]))
  }

  ghost predicate CanLink(nodes: seq<Node>, ip: nat, dp: nat, name: Name) {
    && 0 < ip < |nodes| && nodes[ip].typ != T_DIR && nodes[ip].typ != 0 && nodes[ip].entries == map[]
    && dp < |nodes| && nodes[dp].typ == T_DIR && name !in nodes[dp].entries && name != DOT && name != DOTDOT
  }

  lemma RelinkedLinks(nodes: seq<Node>, ip: nat, dp: nat, name: Name, j: nat)
    requires CanLink(nodes, ip, dp, name) && Live(nodes, dp)
    ensures Links(Relinked(nodes, ip, dp, name), j) == Links(nodes, j) + (if j == ip then {(dp, name)} else {})
    ensures (dp, name) !in Links(nodes, j)
  {
    RecountLinks(nodes, ip, nodes[ip].nlink + 1, j);
    AddLinks(Set(nodes, ip, nodes[ip].(nlink := nodes[ip].nlink + 1)), dp, name, ip, j);
  }

  lemma RelinkedTree(nodes: seq<Node>, depth: seq<nat>, ip: nat, dp: nat, name: Name, d: nat)
    requires CanLink(nodes, ip, dp, name) && Live(nodes, dp) && d < |nodes| == |depth| && InTree(nodes, depth, d)
    ensures InTree(Relinked(nodes, ip, dp, name), depth, d) || d == ip
  {
    var nodes' := Relinked(nodes, ip, dp, name);
    if d != ip {
      RelinkedLinks(nodes, ip, dp, name, d);
      assert Names(nodes', d) == Names(nodes, d);
      StillLinked(nodes, nodes', d, name, ip);
    }
  }

  lemma RelinkedNodes(nodes: seq<Node>, refs: seq<nat>, ip: nat, dp: nat, name: Name, i: nat)
    requires CanLink(nodes, ip, dp, name) && Live(nodes, dp) && i < |nodes| == |refs| && NodeOk(nodes, refs, i)
    ensures NodeOk(Relinked(nodes, ip, dp, name), refs, i)
  {
  }

  lemma RelinkedKeepsCount(nodes: seq<Node>, ip: nat, dp: nat, name: Name)
    requires CanLink(nodes, ip, dp, name) && Live(nodes, dp) && Counted(nodes)
    ensures Counted(Relinked(nodes, ip, dp, name))
  {
    var nodes' := Relinked(nodes, ip, dp, name);
    forall j | 0 <= j < |nodes'| ensures CountOk(nodes', j) {
      RelinkedLinks(nodes, ip, dp, name, j);
      assert CountOk(nodes, j);
    }
  }

  lemma RelinkedKeeps(nodes: seq<Node>, refs: seq<nat>, depth: seq<nat>, ip: nat, dp: nat, name: Name)
    requires Inv(nodes, refs, depth) && CanLink(nodes, ip, dp, name) && Live(nodes, dp)
    ensures Inv(Relinked(nodes, ip, dp, name), refs, depth)
  {
    var nodes' := Relinked(nodes, ip, dp, name);
    RelinkedKeepsCount(nodes, ip, dp, name);
    forall i | 0 <= i < |nodes| ensures NodeOk(nodes', refs, i) { RelinkedNodes(nodes, refs, ip, dp, name, i); }
    forall d | 0 <= d < |nodes| ensures DirOk(nodes', depth, d) {
      assert DirOk(nodes, depth, d);
      if Live(nodes', d) { RelinkedTree(nodes, depth, ip, dp, name, d); }
    }
  }

  lemma RelinkedUncounted(nodes: seq<Node>, ip: nat, dp: nat, name: Name)
    requires CanLink(nodes, ip, dp, name) && nodes[dp].nlink == 0 && CountOk(nodes, ip)
    ensures !CountOk(Relinked(nodes, ip, dp, name), ip)
  {
    var nodes' := Relinked(nodes, ip, dp, name);
    var n1 := Set(nodes, ip, nodes[ip].(nlink := nodes[ip].nlink + 1));
    RecountLinks(nodes, ip, nodes[ip].nlink + 1, ip);
    SetLinks(n1, dp, nodes'[dp], ip);
    assert LinksIn(n1, dp, ip) == {} && LinksIn(nodes', dp, ip) == {};
  }

  /** sys_link keeps the link counts exactly if the parent still has a name. */
  lemma LinkCountsIff(nodes: seq<Node>, ip: nat, dp: nat, name: Name)
    requires CanLink(nodes, ip, dp, name) && Counted(nodes)
    ensures Counted(Relinked(nodes, ip, dp, name)) <==> nodes[dp].nlink > 0
  {
    assert CountOk(nodes, ip);
    if nodes[dp].nlink > 0 {
      RelinkedKeepsCount(nodes, ip, dp, name);
    } else {
      RelinkedUncounted(nodes, ip, dp, name);
    }
  }

  // ----- sys_unlink

  function Unlinked(nodes: seq<Node>, dp: nat, name: Name, ip: nat): (r: seq<Node>)
    requires ip < |nodes| && dp < |nodes| && ip != dp && nodes[ip].nlink > 0 && nodes[dp].nlink > 0
    ensures |r| == |nodes|
  {
    Set(Set(nodes, dp,
      Node(nodes[dp].typ, nodes[dp].nlink - (if nodes[ip].typ == T_DIR then 1 else 0), nodes[dp].entries - {name})),
        ip, nodes[ip].(nlink := nodes[ip].nlink - 1))
  }

  ghost predicate CanUnlink(nodes: seq<Node>, dp: nat, name: Name, ip: nat) {
    && Live(nodes, dp) && name in nodes[dp].entries && name != DOT && name != DOTDOT && nodes[dp].entries[name] == ip
    && ip < |nodes| && ip != dp && nodes[ip].nlink > 0 && (nodes[ip].typ != T_DIR ==> nodes[ip].entries == map[])
    && (nodes[ip].typ == T_DIR ==>
        nodes[dp].nlink > 1 && nodes[ip].nlink == 1 && nodes[ip].entries == map[DOT := ip, DOTDOT := dp])
  }

  lemma UnlinkedLinks(nodes: seq<Node>, dp: nat, name: Name, ip: nat, j: nat)
    requires CanUnlink(nodes, dp, name, ip)
    ensures Links(Unlinked(nodes, dp, name, ip), j)
      == Links(nodes, j) - {(dp, name)} - (if nodes[ip].typ == T_DIR then {(ip, DOTDOT)} else {})
    ensures (dp, name) in Links(nodes, j) <==> j == ip
    ensures nodes[ip].typ == T_DIR ==> ((ip, DOTDOT) in Links(nodes, j) <==> j == dp)
  {
    var k := nodes[dp].nlink - (if nodes[ip].typ == T_DIR then 1 else 0);
    var n1 := Set(nodes, dp, nodes[dp].(entries := nodes[dp].entries - {name}));
    RemoveLinks(nodes, dp, name, j);
    RecountLinks(n1, dp, k, j);
    var n2 := Set(n1, dp, n1[dp].(nlink := k));
    var n3 := Unlinked(nodes, dp, name, ip);
    assert n3 == Set(n2, ip, nodes[ip].(nlink := nodes[ip].nlink - 1));
    SetLinks(n2, ip, n3[ip], j);
    assert LinksIn(n3, ip, j) == {};
    assert LinksIn(n2, ip, j) == if nodes[ip].typ == T_DIR && j == dp then {(ip, DOTDOT)} else {};
    SetLinks(nodes, ip, n3[ip], j);
  }

  lemma UnlinkedKeepsCount(nodes: seq<Node>, dp: nat, name: Name, ip: nat)
    requires CanUnlink(nodes, dp, name, ip) && Counted(nodes)
    ensures Counted(Unlinked(nodes, dp, name, ip))
  {
    var nodes' := Unlinked(nodes, dp, name, ip);
    forall j | 0 <= j < |nodes'| ensures CountOk(nodes', j) {
      UnlinkedLinks(nodes, dp, name, ip, j);
      assert CountOk(nodes, j);
    }
  }

  /** The removed inode is no other directory's parent. */
  lemma UnlinkedTree(nodes: seq<Node>, depth: seq<nat>, dp: nat, name: Name, ip: nat, d: nat)
    requires CanUnlink(nodes, dp, name, ip) && d < |nodes| == |depth| && d != ip && InTree(nodes, depth, d)
    requires Live(nodes, d) && Live(nodes, ROOTINO) && ip != ROOTINO
    ensures InTree(Unlinked(nodes, dp, name, ip), depth, d)
  {
    var nodes' := Unlinked(nodes, dp, name, ip);
    UnlinkedLinks(nodes, dp, name, ip, d);
    assert Names(nodes', d) == Names(nodes, d);
    UnlinkedLinked(nodes, depth, dp, name, ip, d);
  }

  lemma UnlinkedLinked(nodes: seq<Node>, depth: seq<nat>, dp: nat, name: Name, ip: nat, d: nat)
    requires CanUnlink(nodes, dp, name, ip) && d < |nodes| == |depth| && d != ip && InTree(nodes, depth, d)
    requires Live(nodes, d) && Live(nodes, ROOTINO) && ip != ROOTINO
    ensures Linked(Unlinked(nodes, dp, name, ip), d) && Parent(Unlinked(nodes, dp, name, ip), d) == Parent(nodes, d)
  {
    var p := Parent(nodes, d);
    if d != ROOTINO {
      var e :| e in Names(nodes, d);
      assert e.1 in nodes[p].entries && e.1 != DOT && e.1 != DOTDOT;
    }
  }

  lemma UnlinkedNodes(nodes: seq<Node>, refs: seq<nat>, dp: nat, name: Name, ip: nat, i: nat)
    requires CanUnlink(nodes, dp, name, ip) && i < |nodes| == |refs| && NodeOk(nodes, refs, i) && refs[ip] > 0
      && dp != 0
    ensures NodeOk(Unlinked(nodes, dp, name, ip), refs, i)
  {
  }

  lemma UnlinkedKeeps(nodes: seq<Node>, refs: seq<nat>, depth: seq<nat>, dp: nat, name: Name, ip: nat)
    requires Inv(nodes, refs, depth) && CanUnlink(nodes, dp, name, ip) && refs[ip] > 0
    ensures Inv(Unlinked(nodes, dp, name, ip), refs, depth)
  {
    var nodes' := Unlinked(nodes, dp, name, ip);
    UnlinkedKeepsCount(nodes, dp, name, ip);
    forall i | 0 <= i < |nodes| ensures NodeOk(nodes', refs, i) { UnlinkedNodes(nodes, refs, dp, name, ip, i); }
    assert DirOk(nodes, depth, ROOTINO);
    UnlinkedLinks(nodes, dp, name, ip, ip);
    assert (dp, name) in Names(nodes, ip);
    assert ip != ROOTINO;
    forall d | 0 <= d < |nodes| ensures DirOk(nodes', depth, d) {
      assert DirOk(nodes, depth, d);
      if Live(nodes', d) { UnlinkedTree(nodes, depth, dp, name, ip, d); }
    }
  }

  /** What sys_unlink finds: a name in a live directory names a linked inode, and an empty
      directory has exactly that one link while its parent has more than one. */
  lemma FoundToUnlink(nodes: seq<Node>, refs: seq<nat>, depth: seq<nat>, dp: nat, name: Name)
    requires Inv(nodes, refs, depth) && dp < |nodes| && nodes[dp].typ == T_DIR
    requires name in nodes[dp].entries && name != DOT && name != DOTDOT
    ensures var ip := nodes[dp].entries[name];
      && ip < |nodes| && ip != dp && nodes[ip].nlink > 0 && nodes[ip].typ != 0
      && (nodes[ip].typ == T_DIR ==> {DOT, DOTDOT} <= nodes[ip].entries.Keys)
      && (nodes[ip].typ == T_DIR && nodes[ip].entries.Keys == {DOT, DOTDOT} ==> CanUnlink(nodes, dp, name, ip))
      && (nodes[ip].typ != T_DIR ==> CanUnlink(nodes, dp, name, ip))
  {
    var ip := nodes[dp].entries[name];
    assert NodeOk(nodes, refs, dp) && DirOk(nodes, depth, dp);
    assert Live(nodes, dp);
    assert (dp, name) in Names(nodes, ip);
    assert NodeOk(nodes, refs, ip) && DirOk(nodes, depth, ip) && CountOk(nodes, ip);
    assert Links(nodes, ip) != {};
    assert DirOk(nodes, depth, ROOTINO);
    if nodes[ip].typ == T_DIR && nodes[ip].entries.Keys == {DOT, DOTDOT} {
      EmptyDir(nodes, refs, depth, dp, name, ip);
    }
  }

  lemma EmptyDir(nodes: seq<Node>, refs: seq<nat>, depth: seq<nat>, dp: nat, name: Name, ip: nat)
    requires Inv(nodes, refs, depth) && Live(nodes, dp) && Live(nodes, ip) && ip != dp && ip != ROOTINO
    requires name in nodes[dp].entries && name != DOT && name != DOTDOT && nodes[dp].entries[name] == ip
    requires nodes[ip].entries.Keys == {DOT, DOTDOT} && InTree(nodes, depth, ip)
    ensures nodes[ip].nlink == 1 && nodes[dp].nlink > 1 && nodes[ip].entries == map[DOT := ip, DOTDOT := dp]
  {
    assert (dp, name) in Names(nodes, ip);
    assert CountOk(nodes, ip) && CountOk(nodes, dp) && DirOk(nodes, depth, dp);
    forall e | e in Links(nodes, ip) ensures e in Names(nodes, ip) {
      if e.1 == DOTDOT { NoChildren(nodes, refs, depth, ip, e.0); }
    }
    assert Links(nodes, ip) == Names(nodes, ip);
    assert (ip, DOTDOT) in Links(nodes, dp);
    AnotherLink(nodes, depth, dp, ip);
  }

  lemma NoChildren(nodes: seq<Node>, refs: seq<nat>, depth: seq<nat>, ip: nat, c: nat)
    requires Inv(nodes, refs, depth) && ip < |nodes| && nodes[ip].entries.Keys == {DOT, DOTDOT} && ip != ROOTINO
    requires Live(nodes, c) && DOTDOT in nodes[c].entries
    ensures nodes[c].entries[DOTDOT] != ip
  {
    assert DirOk(nodes, depth, c);
    if c != ROOTINO {
      var e :| e in Names(nodes, c);
      assert e.1 in nodes[e.0].entries && e.1 != DOT && e.1 != DOTDOT;
    }
  }

  /** A directory with a subdirectory has a link besides the subdirectory's "..". */
  lemma AnotherLink(nodes: seq<Node>, depth: seq<nat>, dp: nat, ip: nat)
    requires Live(nodes, dp) && |depth| == |nodes| && InTree(nodes, depth, dp) && CountOk(nodes, dp)
    requires (ip, DOTDOT) in Links(nodes, dp) && ip != dp
    ensures nodes[dp].nlink > 1
  {
    var e;
    if dp == ROOTINO {
      e := (dp, DOTDOT);
      assert e in Links(nodes, dp);
    } else {
      e :| e in Names(nodes, dp);
    }
    assert {e, (ip, DOTDOT)} <= Links(nodes, dp);
    SubsetSize({e, (ip, DOTDOT)}, Links(nodes, dp));
  }

  lemma {:induction false} SubsetSize<T>(a: set<T>, b: set<T>)
    requires a <= b
    ensures |a| <= |b|
    decreases a
  {
    if a != {} {
      var x :| x in a;
      SubsetSize(a - {x}, b - {x});
    }
  }

  // ----- iput

  /** iput with the last reference frees an inode that has no links. */
  predicate PutFrees(nodes: seq<Node>, refs: seq<nat>, i: nat)
    requires i < |nodes| == |refs|
  {
    refs[i] == 1 && nodes[i].nlink == 0
  }

  function PutNodes(nodes: seq<Node>, refs: seq<nat>, i: nat): seq<Node>
    requires i < |nodes| == |refs|
  {
    if PutFrees(nodes, refs, i) then Set(nodes, i, FREE) else nodes
  }

  lemma FreedLinks(nodes: seq<Node>, i: nat, j: nat)
    requires i < |nodes| && nodes[i].nlink == 0
    ensures Links(Set(nodes, i, FREE), j) == Links(nodes, j)
  {
    SetLinks(nodes, i, FREE, j);
  }

  lemma FreedTree(nodes: seq<Node>, depth: seq<nat>, i: nat, d: nat)
    requires i < |nodes| == |depth| && nodes[i].nlink == 0 && CountOk(nodes, i)
    requires d < |nodes| && Live(nodes, d) && InTree(nodes, depth, d)
    ensures InTree(Set(nodes, i, FREE), depth, d)
  {
    var nodes' := Set(nodes, i, FREE);
    FreedLinks(nodes, i, d);
    assert Names(nodes', d) == Names(nodes, d);
    assert Links(nodes, i) == {};
    forall n | n in nodes[d].entries ensures nodes[d].entries[n] != i {
      assert n != DOT ==> (d, n) in Links(nodes, nodes[d].entries[n]);
    }
  }

  lemma PutNodeOk(nodes: seq<Node>, refs: seq<nat>, i: nat, x: nat)
    requires i < |nodes| == |refs| && refs[i] > 0 && x < |nodes| && NodeOk(nodes, refs, x)
    ensures NodeOk(PutNodes(nodes, refs, i), refs[i := refs[i] - 1], x)
  {
  }

  /** Dropping a reference keeps the invariant; what it frees has no entry and no reference. */
  lemma PutKeeps(nodes: seq<Node>, refs: seq<nat>, depth: seq<nat>, i: nat)
    requires Inv(nodes, refs, depth) && i < |nodes| && refs[i] > 0
    ensures Inv(PutNodes(nodes, refs, i), refs[i := refs[i] - 1], depth)
    ensures PutFrees(nodes, refs, i) ==> Links(nodes, i) == {}
  {
    var nodes', refs' := PutNodes(nodes, refs, i), refs[i := refs[i] - 1];
    assert CountOk(nodes, i);
    forall x | 0 <= x < |nodes| ensures NodeOk(nodes', refs', x) { PutNodeOk(nodes, refs, i, x); }
    if PutFrees(nodes, refs, i) {
      forall j | 0 <= j < |nodes| ensures CountOk(nodes', j) {
        FreedLinks(nodes, i, j);
        assert CountOk(nodes, j);
      }
      forall d | 0 <= d < |nodes| ensures DirOk(nodes', depth, d) {
        assert DirOk(nodes, depth, d);
        if Live(nodes', d) { FreedTree(nodes, depth, i, d); }
      }
    }
  }

  // ----- the live directories form a tree

  /** The directory reached from d by following names downwards, or 0. */
  function Descend(nodes: seq<Node>, d: nat, path: seq<Name>): nat
    decreases |path|
  {
    if path == [] then d
    else
      var p := Descend(nodes, d, path[..|path| - 1]);
      var n := path[|path| - 1];
      if p != 0 && Live(nodes, p) && n in nodes[p].entries && n != DOT && n != DOTDOT then nodes[p].entries[n] else 0
  }

  /** The path from the root to a live directory exists and is unique. */
  lemma {:induction false} UniquePath(nodes: seq<Node>, refs: seq<nat>, depth: seq<nat>, d: nat)
      returns (path: seq<Name>)
    requires Inv(nodes, refs, depth) && Live(nodes, d)
    ensures Descend(nodes, ROOTINO, path) == d
    ensures forall q :: Descend(nodes, ROOTINO, q) == d ==> q == path
    decreases depth[d]
  {
    assert DirOk(nodes, depth, d);
    if d == ROOTINO {
      path := [];
      forall q | Descend(nodes, ROOTINO, q) == d ensures q == [] {
        if q != [] { LastStep(nodes, refs, depth, d, q); }
      }
    } else {
      var p := Parent(nodes, d);
      assert DirOk(nodes, depth, p);
      var e :| e in Names(nodes, d);
      NotInode0(nodes, refs, depth, p);
      var up := UniquePath(nodes, refs, depth, p);
      path := up + [e.1];
      assert path[..|path| - 1] == up;
      forall q | Descend(nodes, ROOTINO, q) == d ensures q == path {
        LastStep(nodes, refs, depth, d, q);
        OnlyName(nodes, d, e, (p, q[|q| - 1]));
        assert q == q[..|q| - 1] + [q[|q| - 1]];
      }
    }
  }

  lemma OnlyName(nodes: seq<Node>, d: nat, e: (nat, Name), f: (nat, Name))
    requires |Names(nodes, d)| == 1 && e in Names(nodes, d) && f in Names(nodes, d)
    ensures e == f
  {
    SubsetSize({e, f}, Names(nodes, d));
  }

  lemma LastStep(nodes: seq<Node>, refs: seq<nat>, depth: seq<nat>, d: nat, q: seq<Name>)
    requires Inv(nodes, refs, depth) && Live(nodes, d) && Descend(nodes, ROOTINO, q) == d && (q != [] || d != ROOTINO)
    ensures d != ROOTINO && q != [] && DirOk(nodes, depth, d)
    ensures var p := Descend(nodes, ROOTINO, q[..|q| - 1]);
      Live(nodes, p) && (p, q[|q| - 1]) in Names(nodes, d) && p == Parent(nodes, d)
  {
    NotInode0(nodes, refs, depth, d);
    assert DirOk(nodes, depth, d);
    var p := Descend(nodes, ROOTINO, q[..|q| - 1]);
    assert (p, q[|q| - 1]) in Names(nodes, d);
  }

  // ----- the system calls

  class LinkFs {
    var nodes: seq<Node>
    var refs: seq<nat>
    ghost var depth: seq<nat>

    ghost predicate Valid()
      reads this
    {
      Inv(nodes, refs, depth)
    }

    /** A new file system: the root directory names itself twice. */
    constructor (ninodes: nat)
      requires ninodes > ROOTINO
      ensures Valid() && |nodes| == |refs| == ninodes
      ensures nodes[ROOTINO] == Node(T_DIR, 1, map[DOT := ROOTINO, DOTDOT := ROOTINO])
      ensures forall i :: 0 <= i < ninodes && i != ROOTINO ==> nodes[i] == FREE
      ensures forall i :: 0 <= i < ninodes ==> refs[i] == 0
    {
      var root := Node(T_DIR, 1, map[DOT := ROOTINO, DOTDOT := ROOTINO]);
      nodes := seq(ninodes, i => if i == ROOTINO then root else FREE);
      refs := seq(ninodes, _ => 0);
      depth := seq(ninodes, _ => 0);
      new;
      forall j | 0 <= j < ninodes ensures CountOk(nodes, j) {
        assert Links(nodes, j) == if j == ROOTINO then {(ROOTINO, DOTDOT)} else {};
      }
      assert Names(nodes, ROOTINO) == {};
    }

    /** ialloc: the first free inode from 1 on, now of the given type and referenced once. */
    method Ialloc(typ: nat) returns (ip: nat)
      requires Valid() && typ != 0
      modifies this`nodes, this`refs
      ensures ip == 0 ==> nodes == old(nodes) && refs == old(refs) && forall i :: 1 <= i < |nodes| ==> nodes[i].typ != 0
      ensures ip != 0 ==> ip < |old(nodes)| && old(nodes)[ip] == FREE && old(refs)[ip] == 0
      ensures forall i :: 1 <= i < ip ==> old(nodes)[i].typ != 0
      ensures ip != 0 ==> nodes == old(nodes)[ip := Node(typ, 0, map[])] && refs == old(refs)[ip := 1]
    {
      ip := 1;
      while ip < |nodes|
        invariant 1 <= ip
        invariant nodes == old(nodes) && refs == old(refs)
        invariant forall i :: 1 <= i < ip && i < |nodes| ==> nodes[i].typ != 0
      {
        if nodes[ip].typ == 0 {
          assert NodeOk(nodes, refs, ip);
          nodes := nodes[ip := Node(typ, 0, map[])];
          refs := refs[ip := refs[ip] + 1];
          return;
        }
        ip := ip + 1;
      }
      ip := 0;
    }

    /** iget, as namei does for an inode in use. */
    method Iget(i: nat)
      requires Valid() && i < |nodes| && nodes[i].typ != 0
      modifies this`refs
      ensures Valid() && refs == old(refs)[i := old(refs)[i] + 1]
    {
      GetKeeps(nodes, refs, depth, i);
      refs := refs[i := refs[i] + 1];
    }

    /** iput. */
    method Iput(i: nat)
      requires i < |nodes| == |refs| && refs[i] > 0
      modifies this`nodes, this`refs
      ensures nodes == PutNodes(old(nodes), old(refs), i) && refs == old(refs)[i := old(refs)[i] - 1]
    {
      if refs[i] == 1 && nodes[i].nlink == 0 {
        nodes := nodes[i := FREE];
      }
      refs := refs[i := refs[i] - 1];
    }

    /** dirlink: -1 if the name is taken or the disk has no room. */
    method Dirlink(d: nat, name: Name, i: nat, room: bool) returns (r: int)
      requires d < |nodes|
      modifies this`nodes
      ensures r == if name !in old(nodes)[d].entries && room then 0 else -1
      ensures nodes == if r == 0 then old(nodes)[d := old(nodes)[d].(entries := old(nodes)[d].entries[name := i])]
        else old(nodes)
    {
      if name in nodes[d].entries {
        return -1;
      }
      if !room {
        return -1;
      }
      nodes := nodes[d := nodes[d].(entries := nodes[d].entries[name := i])];
      return 0;
    }

    method SetNlink(i: nat, k: nat)
      requires i < |nodes|
      modifies this`nodes
      ensures nodes == old(nodes)[i := old(nodes)[i].(nlink := k)]
    {
      nodes := nodes[i := nodes[i].(nlink := k)];
    }

    /** The part of create for a name that exists: the inode if a file was asked for and it
        is one.  ilock panics on a freed inode, which only ".." of a directory without a
        name can name. */
    method OpenExisting(dp: nat, name: Name, typ: nat) returns (ip: nat, panicked: bool)
      requires Valid() && dp < |nodes| && nodes[dp].typ == T_DIR && refs[dp] > 0 && name in nodes[dp].entries
      modifies this
      ensures panicked <==> TypeOf(old(nodes), old(nodes)[dp].entries[name]) == 0
      ensures panicked ==> old(nodes)[dp].nlink == 0 && name == DOTDOT
      ensures !panicked ==> Valid() && nodes == PutNodes(old(nodes), old(refs), dp)
      ensures !panicked ==> ip < |nodes| == |old(nodes)| && refs == Held(old(refs), dp, ip)
      ensures !panicked && ip != 0 ==> ip == old(nodes)[dp].entries[name]
      ensures !panicked ==>
        (ip != 0 <==> typ == T_FILE && TypeOf(old(nodes), old(nodes)[dp].entries[name]) in {T_FILE, T_DEVICE})
    {
      EntryInRange(nodes, refs, depth, dp, name);
      var i := nodes[dp].entries[name];
      panicked := nodes[i].typ == 0;
      if panicked {
        return 0, true;
      }
      GetKeeps(nodes, refs, depth, i);
      assert NodeOk(nodes, refs, i);
      refs := refs[i := refs[i] + 1];
      PutKeeps(nodes, refs, depth, dp);
      Iput(dp);
      if typ == T_FILE && (nodes[i].typ == T_FILE || nodes[i].typ == T_DEVICE) {
        return i, false;
      }
      PutKeeps(nodes, refs, depth, i);
      Iput(i);
      return 0, false;
    }

    /** create, in a directory that nameiparent has referenced: the inode, referenced, or 0.
        A failed call gives back everything; one that makes an inode keeps the invariant if
        the directory still had a name, and breaks the counts if it had none. */
    method Create(dp: nat, name: Name, typ: nat, roomDot: bool, roomDotDot: bool, roomName: bool)
        returns (ip: nat, panicked: bool)
      requires Valid() && dp < |nodes| && nodes[dp].typ == T_DIR && refs[dp] > 0 && Creatable(typ)
      modifies this
      ensures panicked <==> name in old(nodes)[dp].entries && TypeOf(old(nodes), old(nodes)[dp].entries[name]) == 0
      ensures panicked ==> old(nodes)[dp].nlink == 0 && name == DOTDOT
      ensures name !in old(nodes)[dp].entries ==>
        (ip != 0 <==> CreateSucceeds(old(nodes), typ, roomDot, roomDotDot, roomName))
      ensures !panicked ==> ip < |nodes| == |old(nodes)| && refs == Held(old(refs), dp, ip)
      ensures !panicked && (ip == 0 || name in old(nodes)[dp].entries) ==>
        Valid() && nodes == PutNodes(old(nodes), old(refs), dp)
      ensures !panicked && name in old(nodes)[dp].entries ==>
        && (ip != 0 <==> typ == T_FILE && TypeOf(old(nodes), old(nodes)[dp].entries[name]) in {T_FILE, T_DEVICE})
        && (ip != 0 ==> ip == old(nodes)[dp].entries[name])
      ensures !panicked && ip != 0 && name !in old(nodes)[dp].entries ==>
        && CanCreate(old(nodes), dp, name, ip, typ)
        && nodes == PutNodes(Created(old(nodes), dp, name, ip, typ), old(refs), dp)
        && forall i :: 1 <= i < ip ==> old(nodes)[i].typ != 0
      ensures !panicked && ip != 0 && name !in old(nodes)[dp].entries ==>
        if old(nodes)[dp].nlink > 0 then Valid() else !Counted(nodes)
    {
      panicked := false;
      if name in nodes[dp].entries {
        ip, panicked := OpenExisting(dp, name, typ);
        return;
      }
      ip := MakeNew(dp, name, typ, roomDot, roomDotDot, roomName);
    }

    /** The part of create for a name that does not exist. */
    method MakeNew(dp: nat, name: Name, typ: nat, roomDot: bool, roomDotDot: bool, roomName: bool) returns (ip: nat)
      requires Valid() && dp < |nodes| && nodes[dp].typ == T_DIR && refs[dp] > 0 && Creatable(typ)
        && name !in nodes[dp].entries
      modifies this
      ensures ip != 0 <==> CreateSucceeds(old(nodes), typ, roomDot, roomDotDot, roomName)
      ensures ip < |nodes| == |old(nodes)| && refs == Held(old(refs), dp, ip)
      ensures ip == 0 ==> Valid() && nodes == PutNodes(old(nodes), old(refs), dp)
      ensures forall i :: 1 <= i < ip ==> old(nodes)[i].typ != 0
      ensures ip != 0 ==>
        CanCreate(old(nodes), dp, name, ip, typ)
        && nodes == PutNodes(Created(old(nodes), dp, name, ip, typ), old(refs), dp)
      ensures ip != 0 ==> if old(nodes)[dp].nlink > 0 then Valid() else !Counted(nodes)
    {
      HasDots(nodes, refs, depth, dp);
      ip := Ialloc(typ);
      if ip == 0 {
        PutKeeps(nodes, refs, depth, dp);
        Iput(dp);
        return;
      }
      SetNlink(ip, 1);
      var ok := Fill(dp, name, ip, typ, roomDot, roomDotDot, roomName);
      if !ok {
        Abandon(dp, ip, old(nodes), old(refs));
        return 0;
      }
      Finish(dp, name, ip, typ, old(nodes), old(refs));
    }

    /** The success exit of create. */
    method Finish(dp: nat, name: Name, ip: nat, typ: nat, ghost was: seq<Node>, ghost wasRefs: seq<nat>)
      requires Inv(was, wasRefs, depth) && CanCreate(was, dp, name, ip, typ) && wasRefs[dp] > 0
      requires nodes == was[ip := Child(dp, ip, typ)][dp := was[dp].(entries := was[dp].entries[name := ip])]
        && refs == wasRefs[ip := 1]
      modifies this
      ensures nodes == PutNodes(Created(was, dp, name, ip, typ), wasRefs, dp)
        && refs == wasRefs[ip := 1][dp := wasRefs[dp] - 1]
      ensures if was[dp].nlink > 0 then Valid() else !Counted(nodes)
    {
      if typ == T_DIR {
        SetNlink(dp, nodes[dp].nlink + 1);
      }
      assert nodes == Created(was, dp, name, ip, typ);
      CreateDone(was, wasRefs, depth, dp, name, ip, typ);
      depth := depth[ip := depth[dp] + 1];
      Iput(dp);
    }

    /** The failure exit of create: the new inode is freed, and all is as in state `was`. */
    method Abandon(dp: nat, ip: nat, ghost was: seq<Node>, ghost wasRefs: seq<nat>)
      requires Inv(was, wasRefs, depth) && dp < |was| && wasRefs[dp] > 0
      requires 0 < ip < |was| && ip != dp && was[ip] == FREE && wasRefs[ip] == 0
      requires |nodes| == |was| && nodes == was[ip := nodes[ip]] && refs == wasRefs[ip := 1]
      modifies this`nodes, this`refs
      ensures Valid() && nodes == PutNodes(was, wasRefs, dp) && refs == Held(wasRefs, dp, 0)
    {
      SetNlink(ip, 0);
      Iput(ip);
      assert nodes == was && refs == wasRefs;
      PutKeeps(nodes, refs, depth, dp);
      Iput(dp);
    }

    /** The directory entries that create makes; false if one of them fails. */
    method Fill(dp: nat, name: Name, ip: nat, typ: nat, roomDot: bool, roomDotDot: bool, roomName: bool)
        returns (ok: bool)
      requires ip < |nodes| && dp < |nodes| && ip != dp && name !in nodes[dp].entries
        && nodes[ip] == Node(typ, 1, map[])
      modifies this`nodes
      ensures |nodes| == |old(nodes)| && nodes[ip].typ == typ && nodes[ip].nlink == 1
      ensures ok ==>
        nodes == old(nodes)[ip := Child(dp, ip,
        typ)][dp := old(nodes)[dp].(entries := old(nodes)[dp].entries[name := ip])]
      ensures !ok ==> nodes == old(nodes)[ip := nodes[ip]]
      ensures ok <==> roomName && (typ == T_DIR ==> roomDot && roomDotDot)
    {
      if typ == T_DIR {
        var r := Dirlink(ip, DOT, ip, roomDot);
        if r < 0 {
          return false;
        }
        r := Dirlink(ip, DOTDOT, dp, roomDotDot);
        if r < 0 {
          return false;
        }
      }
      var r := Dirlink(dp, name, ip, roomName);
      ok := r == 0;
    }

    /** sys_link, after namei has referenced ip (0 if it found nothing) and nameiparent dp
        (likewise). */
    method Link(ip: nat, dp: nat, name: Name, room: bool) returns (r: int)
      requires Valid() && ip < |nodes| && dp < |nodes|
      requires ip != 0 ==> nodes[ip].typ != 0 && refs[ip] > 0
      requires dp != 0 ==> nodes[dp].typ == T_DIR && refs[dp] > 0
      requires ip == 0 || nodes[ip].typ == T_DIR ==> dp == 0    // not looked up then
      modifies this
      ensures refs == Put(Put(old(refs), dp), ip)
      ensures r == if ip != 0 && dp != 0 && name !in old(nodes)[dp].entries && room then 0 else -1
      ensures r == 0 ==>
        CanLink(old(nodes), ip, dp, name) && nodes == PutNodes(Relinked(old(nodes), ip, dp, name), old(refs), dp)
      ensures r == 0 ==> if old(nodes)[dp].nlink > 0 then Valid() else !Counted(nodes)
      ensures r == -1 ==> Valid() && nodes == PutIf(PutIf(old(nodes), old(refs), dp), Put(old(refs), dp), ip)
    {
      if ip == 0 {
        return -1;
      }
      if nodes[ip].typ == T_DIR {
        PutKeeps(nodes, refs, depth, ip);
        Iput(ip);
        return -1;
      }
      assert NodeOk(nodes, refs, ip);
      SetNlink(ip, nodes[ip].nlink + 1);
      if dp == 0 {
        Undo(ip, old(nodes));
        return -1;
      }
      HasDots(old(nodes), refs, depth, dp);
      r := Dirlink(dp, name, ip, room);
      if r < 0 {
        PutKeeps(old(nodes), refs, depth, dp);
        Iput(dp);
        Undo(ip, PutNodes(old(nodes), old(refs), dp));
        return -1;
      }
      LeaveLinked(ip, dp, name, old(nodes));
    }

    /** The success exit of sys_link. */
    method LeaveLinked(ip: nat, dp: nat, name: Name, ghost was: seq<Node>)
      requires Inv(was, refs, depth) && CanLink(was, ip, dp, name) && refs[ip] > 0 && refs[dp] > 0
      requires nodes == Relinked(was, ip, dp, name)
      modifies this`nodes, this`refs
      ensures nodes == PutNodes(Relinked(was, ip, dp, name), old(refs), dp) && refs == Put(Put(old(refs), dp), ip)
      ensures if was[dp].nlink > 0 then Valid() else !Counted(nodes)
    {
      LinkDone(was, refs, depth, ip, dp, name);
      Iput(dp);
      Iput(ip);
    }

    /** The failure exit of sys_link: the count goes back to what it was, in state `was`. */
    method Undo(ip: nat, ghost was: seq<Node>)
      requires Inv(was, refs, depth) && ip < |was| && refs[ip] > 0
        && nodes == was[ip := was[ip].(nlink := was[ip].nlink + 1)]
      modifies this`nodes, this`refs
      ensures Valid() && nodes == PutNodes(was, old(refs), ip) && refs == old(refs)[ip := old(refs)[ip] - 1]
    {
      SetNlink(ip, nodes[ip].nlink - 1);
      assert nodes == was;
      PutKeeps(nodes, refs, depth, ip);
      Iput(ip);
    }

    /** sys_unlink, in a directory that nameiparent has referenced.  It fails exactly for "."
        and "..", a missing name or a directory that is not empty; the two panics cannot
        happen; and the inode is freed exactly if this was its last link and nobody refers
        to it. */
    method Unlink(dp: nat, name: Name) returns (r: int, panicked: bool)
      requires Valid() && dp < |nodes| && nodes[dp].typ == T_DIR && refs[dp] > 0
      modifies this
      ensures Valid() && !panicked && refs == old(refs)[dp := old(refs)[dp] - 1]
      ensures r == if Unlinkable(old(nodes), dp, name) then 0 else -1
      ensures r == -1 ==> nodes == PutNodes(old(nodes), old(refs), dp)
      ensures r == 0 ==>
        var ip := old(nodes)[dp].entries[name];
        && CanUnlink(old(nodes), dp, name, ip)
        && nodes == PutNodes(Unlinked(old(nodes), dp, name, ip), old(refs)[ip := old(refs)[ip] + 1], ip)
    {
      panicked := false;
      if name == DOT || name == DOTDOT || name !in nodes[dp].entries {
        PutKeeps(nodes, refs, depth, dp);
        Iput(dp);
        return -1, false;
      }
      FoundToUnlink(nodes, refs, depth, dp, name);
      var ip := nodes[dp].entries[name];
      GetKeeps(nodes, refs, depth, ip);
      refs := refs[ip := refs[ip] + 1];
      if nodes[ip].nlink < 1 {
        return -1, true;
      }
      if nodes[ip].typ == T_DIR && nodes[ip].entries.Keys != {DOT, DOTDOT} {
        Iput(ip);
        assert refs == old(refs);
        PutKeeps(nodes, refs, depth, dp);
        Iput(dp);
        return -1, false;
      }
      RemoveEntry(dp, name, ip);
      assert refs == old(refs)[dp := old(refs)[dp] - 1];
      r := 0;
    }

    /** The part of sys_unlink that changes the disk. */
    method RemoveEntry(dp: nat, name: Name, ip: nat)
      requires Valid() && CanUnlink(nodes, dp, name, ip) && refs[ip] > 0 && refs[dp] > 0
      modifies this`nodes, this`refs
      ensures Valid() && nodes == PutNodes(Unlinked(old(nodes), dp, name, ip), old(refs), ip)
      ensures refs == old(refs)[dp := old(refs)[dp] - 1][ip := old(refs)[ip] - 1]
    {
      UnlinkDone(nodes, refs, depth, dp, name, ip);
      nodes := nodes[dp := nodes[dp].(entries := nodes[dp].entries - {name})];
      if nodes[ip].typ == T_DIR {
        SetNlink(dp, nodes[dp].nlink - 1);
      }
      Iput(dp);
      SetNlink(ip, nodes[ip].nlink - 1);
      assert nodes == Unlinked(old(nodes), dp, name, ip);
      Iput(ip);
    }
  }

  /** Making a new inode needs a free one and room for its entries. */
  predicate CreateSucceeds(nodes: seq<Node>, typ: nat, roomDot: bool, roomDotDot: bool, roomName: bool) {
    (exists i :: 1 <= i < |nodes| && nodes[i].typ == 0) && roomName && (typ == T_DIR ==> roomDot && roomDotDot)
  }

  function TypeOf(nodes: seq<Node>, i: nat): nat {
    if i < |nodes| then nodes[i].typ else 0
  }

  /** The references after the call: one less to dp, one more to ip unless it is 0. */
  function Held(refs: seq<nat>, dp: nat, ip: nat): seq<nat>
    requires dp < |refs| && refs[dp] > 0 && ip < |refs|
  {
    var r := refs[dp := refs[dp] - 1];
    if ip == 0 then r else r[ip := r[ip] + 1]
  }

  /** One reference less, unless i is 0. */
  function Put(refs: seq<nat>, i: nat): (r: seq<nat>)
    requires i < |refs| && (i != 0 ==> refs[i] > 0)
    ensures |r| == |refs|
  {
    if i == 0 then refs else refs[i := refs[i] - 1]
  }

  function PutIf(nodes: seq<Node>, refs: seq<nat>, i: nat): (r: seq<Node>)
    requires i < |nodes| == |refs|
    ensures |r| == |nodes|
  {
    if i == 0 then nodes else PutNodes(nodes, refs, i)
  }

  predicate Unlinkable(nodes: seq<Node>, dp: nat, name: Name)
    requires dp < |nodes|
  {
    && name != DOT && name != DOTDOT && name in nodes[dp].entries
    && var ip := nodes[dp].entries[name];
       ip < |nodes| && (nodes[ip].typ == T_DIR ==> nodes[ip].entries.Keys == {DOT, DOTDOT})
  }

  lemma EntryInRange(nodes: seq<Node>, refs: seq<nat>, depth: seq<nat>, dp: nat, name: Name)
    requires Inv(nodes, refs, depth) && dp < |nodes| && nodes[dp].typ == T_DIR && name in nodes[dp].entries
    ensures 0 < nodes[dp].entries[name] < |nodes|
    ensures nodes[nodes[dp].entries[name]].typ == 0 ==> nodes[dp].nlink == 0 && name == DOTDOT
  {
    assert NodeOk(nodes, refs, dp) && DirOk(nodes, depth, dp);
  }

  lemma HasDots(nodes: seq<Node>, refs: seq<nat>, depth: seq<nat>, dp: nat)
    requires Inv(nodes, refs, depth) && dp < |nodes| && nodes[dp].typ == T_DIR
    ensures DOT in nodes[dp].entries && DOTDOT in nodes[dp].entries
  {
    assert NodeOk(nodes, refs, dp) && DirOk(nodes, depth, dp);
  }

  /** Taking another reference keeps the invariant. */
  lemma GetKeeps(nodes: seq<Node>, refs: seq<nat>, depth: seq<nat>, i: nat)
    requires Inv(nodes, refs, depth) && i < |nodes| && nodes[i].typ != 0
    ensures Inv(nodes, refs[i := refs[i] + 1], depth)
  {
    var refs' := refs[i := refs[i] + 1];
    forall x | 0 <= x < |nodes| ensures NodeOk(nodes, refs', x) { assert NodeOk(nodes, refs, x); }
  }

  /** A link that was made, followed by the two iputs. */
  lemma LinkDone(nodes: seq<Node>, refs: seq<nat>, depth: seq<nat>, ip: nat, dp: nat, name: Name)
    requires Inv(nodes, refs, depth) && CanLink(nodes, ip, dp, name) && refs[ip] > 0 && refs[dp] > 0
    ensures var nodes' := PutNodes(Relinked(nodes, ip, dp, name), refs, dp);
      var refs' := refs[dp := refs[dp] - 1];
      && |nodes'| == |nodes| && nodes'[ip].nlink > 0
      && if nodes[dp].nlink > 0 then Inv(nodes', refs'[ip := refs'[ip] - 1], depth) else !Counted(nodes')
  {
    var n1 := Relinked(nodes, ip, dp, name);
    if nodes[dp].nlink > 0 {
      RelinkedKeeps(nodes, refs, depth, ip, dp, name);
      PutKeeps(n1, refs, depth, dp);
      PutKeeps(n1, refs[dp := refs[dp] - 1], depth, ip);
    } else {
      assert CountOk(nodes, ip);
      RelinkedUncounted(nodes, ip, dp, name);
      FreedLinks(n1, dp, ip);
      assert !CountOk(PutNodes(n1, refs, dp), ip);
    }
  }

  /** An inode that was made, followed by the iput of its directory. */
  lemma CreateDone(nodes: seq<Node>, refs: seq<nat>, depth: seq<nat>, dp: nat, name: Name, ip: nat, typ: nat)
    requires Inv(nodes, refs, depth) && CanCreate(nodes, dp, name, ip, typ) && refs[dp] > 0
    ensures var nodes', refs' := Created(nodes, dp, name, ip, typ), refs[ip := 1];
      if nodes[dp].nlink > 0
      then Inv(PutNodes(nodes', refs', dp), refs'[dp := refs'[dp] - 1], depth[ip := depth[dp] + 1])
      else !Counted(PutNodes(nodes', refs', dp))
  {
    var nodes', refs' := Created(nodes, dp, name, ip, typ), refs[ip := 1];
    if nodes[dp].nlink > 0 {
      CreatedKeeps(nodes, refs, depth, dp, name, ip, typ);
      PutKeeps(nodes', refs', depth[ip := depth[dp] + 1], dp);
    } else {
      var j := CreateMiscounts(nodes, refs, depth, dp, name, ip, typ);
      if nodes'[dp].nlink == 0 { FreedLinks(nodes', dp, j); }
      assert !CountOk(PutNodes(nodes', refs', dp), j);
    }
  }

  /** A link that was removed, followed by the two iputs: the parent stays. */
  lemma UnlinkDone(nodes: seq<Node>, refs: seq<nat>, depth: seq<nat>, dp: nat, name: Name, ip: nat)
    requires Inv(nodes, refs, depth) && CanUnlink(nodes, dp, name, ip) && refs[ip] > 0 && refs[dp] > 0
    ensures var nodes', refs' := Unlinked(nodes, dp, name, ip), refs[dp := refs[dp] - 1];
      nodes'[dp].nlink > 0 && Inv(PutNodes(nodes', refs', ip), refs'[ip := refs'[ip] - 1], depth)
  {
    var nodes', refs' := Unlinked(nodes, dp, name, ip), refs[dp := refs[dp] - 1];
    UnlinkedKeeps(nodes, refs, depth, dp, name, ip);
    PutKeeps(nodes', refs, depth, dp);
    PutKeeps(nodes', refs', depth, ip);
  }

  // ----- directories that are removed while a process is in them

  const A: Name := [97]
  const B: Name := [98]

  /** A path lookup of a live directory and create in it, where inode i is the first free one. */
  method MakeIn(fs: LinkFs, dp: nat, name: Name, typ: nat, i: nat)
    requires fs.Valid() && Live(fs.nodes, dp) && name !in fs.nodes[dp].entries && Creatable(typ)
    requires 0 < i < |fs.nodes| && fs.nodes[i].typ == 0 && forall k :: 1 <= k < i ==> fs.nodes[k].typ != 0
    modifies fs
    ensures fs.Valid() && i != dp && fs.nodes == Created(old(fs.nodes), dp, name, i, typ)
    ensures |fs.refs| == |old(fs.refs)| && fs.refs == old(fs.refs)[i := 1]
  {
    assert NodeOk(fs.nodes, fs.refs, i);
    fs.Iget(dp);
    var ip, panicked := fs.Create(dp, name, typ, true, true, true);
  }

  /** create a, create a/b and create a file beside a: inodes 2, 3 and 4. */
  method MakeDirectories() returns (fs: LinkFs)
    ensures fresh(fs) && fs.Valid() && |fs.nodes| == 6 && fs.nodes[5] == FREE
    ensures fs.nodes[ROOTINO] == Node(T_DIR, 2, map[DOT := ROOTINO, DOTDOT := ROOTINO, A := 2, B := 4])
    ensures fs.nodes[2] == Node(T_DIR, 2, map[DOT := 2, DOTDOT := ROOTINO, B := 3])
    ensures fs.nodes[3] == Node(T_DIR, 1, map[DOT := 3, DOTDOT := 2]) && fs.nodes[4] == Node(T_FILE, 1, map[])
    ensures fs.refs[2] == fs.refs[3] == fs.refs[4] == 1
  {
    fs := new LinkFs(6);
    MakeIn(fs, ROOTINO, A, T_DIR, 2);
    MakeIn(fs, 2, B, T_DIR, 3);
    MakeIn(fs, ROOTINO, B, T_FILE, 4);
  }

  /** Then a/b is removed while a process is in it. */
  method EmptiedDirectory() returns (fs: LinkFs)
    ensures fresh(fs) && fs.Valid() && |fs.nodes| == 6 && fs.nodes[5] == FREE
    ensures fs.nodes[ROOTINO] == Node(T_DIR, 2, map[DOT := ROOTINO, DOTDOT := ROOTINO, A := 2, B := 4])
    ensures fs.nodes[2] == Node(T_DIR, 1, map[DOT := 2, DOTDOT := ROOTINO])
    ensures fs.nodes[3] == Node(T_DIR, 0, map[DOT := 3, DOTDOT := 2]) && fs.nodes[4] == Node(T_FILE, 1, map[])
    ensures fs.refs[2] == fs.refs[3] == fs.refs[4] == 1
  {
    fs := MakeDirectories();
    fs.Iget(2);
    var u, t := fs.Unlink(2, B);
  }

  /** And a too, with a process in it: the invariant holds, and neither has a name. */
  method RemovedDirectories() returns (fs: LinkFs)
    ensures fresh(fs) && fs.Valid() && |fs.nodes| == 6 && fs.nodes[5] == FREE
    ensures fs.nodes[2] == Node(T_DIR, 0, map[DOT := 2, DOTDOT := ROOTINO]) && fs.refs[2] == 1
    ensures fs.nodes[3] == Node(T_DIR, 0, map[DOT := 3, DOTDOT := 2]) && fs.refs[3] == 1
    ensures fs.nodes[4] == Node(T_FILE, 1, map[]) && fs.refs[4] == 1
  {
    fs := EmptiedDirectory();
    fs.Iget(ROOTINO);
    var u, t := fs.Unlink(ROOTINO, A);
  }

  /** A file made in a removed directory breaks the counts. */
  method CreateInRemoved() returns (fs: LinkFs)
    ensures !Counted(fs.nodes)
  {
    fs := RemovedDirectories();
    var f, p := fs.Create(2, B, T_FILE, true, true, true);
  }

  /** So does a second link to a file. */
  method LinkInRemoved() returns (fs: LinkFs)
    ensures !Counted(fs.nodes)
  {
    fs := RemovedDirectories();
    var r := fs.Link(4, 2, B, true);
  }

  /** When the process in a leaves, a is freed while b still names it: create of ".." in b
      panics. */
  method CreateDotDot() returns (panicked: bool)
    ensures panicked
  {
    var fs := RemovedDirectories();
    PutKeeps(fs.nodes, fs.refs, fs.depth, 2);
    fs.Iput(2);
    var i;
    i, panicked := fs.Create(3, DOTDOT, T_FILE, true, true, true);
  }
}
