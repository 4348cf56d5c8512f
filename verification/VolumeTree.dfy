/** The tree of nodes that path resolution walks, read off a volume: what finddir finds in its live directories. */
module VolumeTree {
  import opened Bytes
  import opened VolumeState
  import opened DirRecords
  import opened DirData
  import opened DirRemoval
  import opened DirTheorems
  import opened DirScan
  import opened FsOps
  import opened FsRuns
  import opened Links
  import opened LinkTheorems
  import opened NameRuns
  import Paths

  /** The names under which nodes of a listing are found, and the inode each one stands for. */
  function Table(l: seq<Rec>): map<seq<Byte>, nat> {
    map name | name in (set r | r in l :: NodeReads(r)) :: Number(FindShort(l, name))
  }

  function Number(found: Looked): nat {
    match found case Present(r) => r.ino case Absent => 0
  }

  /** The mounted tree: its directories are the live ones, their entries what finddir makes of the listing. */
  function TreeOf(v: Vol, root: nat): Paths.Tree
    requires v.geo.Sizes()
  {
    Paths.Tree(root, map d | d in v.live && LiveDir(v, d) :: Table(Entries(v, GetInode(v, d))))
  }

  lemma TableFinds(l: seq<Rec>, name: seq<Byte>)
    ensures name in Table(l) <==> FindShort(l, name).Present?
    ensures name in Table(l) ==> Table(l)[name] == FindShort(l, name).rec.ino
  {
    FindShortReads(l, name);
    if FindShort(l, name).Present? {
      var i := FindShortPlace(l, name);
      assert l[i] in l;
    }
  }

  /** A step of the walk is a call of ext2_node_finddir, on live directories; nothing is found in other nodes. */
  lemma FindIsFinddir(v: Vol, root: nat, d: nat, name: seq<Byte>)
    requires v.geo.Sizes()
    ensures Paths.Find(TreeOf(v, root), d, name) ==
              if !LiveDir(v, d) then Paths.None
              else match Finddir(v, d, name) case Present(r) => Paths.Some(r.ino) case Absent => Paths.None
  {
    hide Entries, FindShort, Table;
    if LiveDir(v, d) { TableFinds(Entries(v, GetInode(v, d)), name); }
  }

  // ---------------------------------------------------------------- what finddir finds in volumes with their names in order

  lemma {:induction false} NoneGarbled(l: seq<Rec>, i: nat)
    requires Tally(l, Garbled) == 0 && i < |l|
    ensures Spelled(l[i])
  {
    if i > 0 { NoneGarbled(l[1..], i - 1); }
  }

  lemma AllSpelled(v: Vol, j: nat)
    requires v.geo.Sizes() && LiveDir(v, j) && Linked(v)
    ensures forall i :: 0 <= i < |Entries(v, GetInode(v, j))| ==> Spelled(Entries(v, GetInode(v, j))[i])
  {
    hide Entries, Tally, DotDot, Sound, LinksRight, ListsRight, Housed;
    assert DirInOrder(v, j);
    forall i | 0 <= i < |Entries(v, GetInode(v, j))| ensures Spelled(Entries(v, GetInode(v, j))[i]) {
      NoneGarbled(Entries(v, GetInode(v, j)), i);
    }
  }

  /** A short name is read as it is written. */
  lemma ReadsShort(r: Rec, name: seq<Byte>)
    requires Spelled(r) && |name| < NODE_NAME
    ensures NodeReads(r) == name <==> r.name == name
    ensures NodeReads(r) != []
  {
    CStringWhole(Clipped(r.name));
  }

  /** finddir finds the dot names: the directory itself and its parent. */
  lemma DotIsWalked(v: Vol, j: nat, up: bool)
    requires v.geo.Sizes() && LiveDir(v, j) && Linked(v)
    ensures var found := Finddir(v, j, if up then DOTDOT else DOT);
            found.Present? && found.rec.ino == if up then DotDot(v, GetInode(v, j)) else j
  {
    hide Entries, Tally, DotDot, Sound, FindShort, FindName, DirInOrder, NodeReads;
    var l, name := Entries(v, GetInode(v, j)), if up then DOTDOT else DOT;
    DotIsListed(v, j, up);
    AllSpelled(v, j);
    FindShortReads(l, name);
    FoundAt(l, name);
    ReadsShort(l[FindName(l, name)], name);
    var i := FindShortPlace(l, name);
    ReadsShort(l[i], name);
    DotStandsFor(v, j, i, up);
  }

  lemma DotIsListed(v: Vol, j: nat, up: bool)
    requires v.geo.Sizes() && LiveDir(v, j) && Linked(v)
    ensures LookIn(Entries(v, GetInode(v, j)), if up then DOTDOT else DOT) != Absent
  {
    hide Entries, Tally, DotDot, Sound, LinksRight, ListsRight, Housed, LookIn;
    assert DirInOrder(v, j);
    DotIsFound(Entries(v, GetInode(v, j)), up);
  }

  /** What finddir finds is a directory's node exactly if its inode is a live directory, and then its parent is this one. */
  lemma FoundStandsFor(v: Vol, j: nat, name: seq<Byte>)
    requires v.geo.Sizes() && LiveDir(v, j) && Named(v) && Finddir(v, j, name).Present?
    ensures var r := Finddir(v, j, name).rec;
            (r.kind == KIND_DIR <==> LiveDir(v, r.ino)) &&
            (r.kind == KIND_DIR && name != DOT && name != DOTDOT ==> DotDot(v, GetInode(v, r.ino)) == j)
  {
    hide Entries, DotDot, Linked, Filed, FindShort, NodeReads;
    var l := Entries(v, GetInode(v, j));
    var i := FindShortPlace(l, name);
    AllSpelled(v, j);
    ReadsShort(l[i], DOT);
    ReadsShort(l[i], DOTDOT);
    if Proper(l[i]) { NameStandsFor(v, j, i); } else { DotStandsFor(v, j, i, l[i].name == DOTDOT); }
  }

  /** The dot entries of the tree are right. */
  lemma TreeIsRight(v: Vol, root: nat)
    requires v.geo.Sizes() && IsRoot(v, root) && Named(v)
    ensures Paths.Right(TreeOf(v, root))
  {
    hide Linked, Filed, Entries, Finddir, Table, DotDot;
    var t := TreeOf(v, root);
    forall d | d in t.dirs
      ensures Paths.Find(t, d, DOT) == Paths.Some(d) && [] !in t.dirs[d]
      ensures Paths.Find(t, d, DOTDOT) == Paths.Some(DotDot(v, GetInode(v, d)))
    {
      DotIsWalked(v, d, false);
      DotIsWalked(v, d, true);
      FindIsFinddir(v, root, d, DOT);
      FindIsFinddir(v, root, d, DOTDOT);
      FindIsFinddir(v, root, d, []);
      NamelessMissed(v, d);
    }
    forall d, c, name |
      d in t.dirs && name != DOT && name != DOTDOT && Paths.Find(t, d, name) == Paths.Some(c) && c in t.dirs
      ensures Paths.Find(t, c, DOTDOT) == Paths.Some(d)
    {
      FindIsFinddir(v, root, d, name);
      FoundStandsFor(v, d, name);
    }
  }

  lemma NamelessMissed(v: Vol, j: nat)
    requires v.geo.Sizes() && LiveDir(v, j) && Linked(v)
    ensures Finddir(v, j, []) == Absent
  {
    hide Entries, Linked, FindShort, NodeReads;
    AllSpelled(v, j);
    var l := Entries(v, GetInode(v, j));
    if FindShort(l, []).Present? {
      var i := FindShortPlace(l, []);
      ReadsShort(l[i], []);
    }
  }

  // ---------------------------------------------------------------- over whole runs

  /** In every state of an orderly run that starts from a rooted volume, the dot entries of its tree are right. */
  lemma RunTreeIsRight(vs: seq<Vol>, ops: seq<Op>, k: nat, root: nat)
    requires OrderlyRun(vs, ops) && k <= |ops| && vs[0].geo.Sizes() && IsRoot(vs[0], root)
    ensures vs[k].geo.Sizes() && Paths.Right(TreeOf(vs[k], root))
  {
    hide Named, OrderlySteps, IsRoot, TreeOf;
    RunNamed(vs, ops, k);
    RunRooted(vs, ops, k, root);
    TreeIsRight(vs[k], root);
  }

  /** So normalising an absolute path never changes what it opens, in any such state, unless it cuts or drops a name. */
  lemma RunOpensResolved(vs: seq<Vol>, ops: seq<Op>, k: nat, root: nat, path: seq<Byte>, node: nat)
    requires OrderlyRun(vs, ops) && k <= |ops| && vs[0].geo.Sizes() && IsRoot(vs[0], root)
    requires path != [] && path[0] == Paths.SLASH && Paths.Fits([], Paths.Comps(path))
    requires vs[k].geo.Sizes() && Paths.Open(TreeOf(vs[k], root), path) == Paths.Some(node)
    ensures Paths.Open(TreeOf(vs[k], root), Paths.Canonical(path)) == Paths.Some(node)
  {
    hide Named, OrderlySteps, IsRoot, TreeOf;
    RunTreeIsRight(vs, ops, k, root);
    Paths.CanonicalResolvesSame(TreeOf(vs[k], root), path, node);
  }

  /** The two searches on any live directory of a volume with its names in order, the root included. */
  lemma NamedSearchesAgree(v: Vol, j: nat, name: seq<Byte>)
    requires v.geo.Sizes() && LiveDir(v, j) && Named(v)
    ensures Answer(Finddir(v, j, name)) == Answer(DirLookup(v, j, name)) <==>
              var l := Entries(v, GetInode(v, j));
              var k := FindName(l, name);
              (k < |l| ==> |name| <= NODE_NAME) && !Shadowed(l, k, name)
  {
    hide Linked, Filed, Entries, Finddir, DirLookup, Shadowed;
    var l := Entries(v, GetInode(v, j));
    AllSpelled(v, j);
    forall a, b | 0 <= a < b < |l| && |l[a].name| > NODE_NAME && |l[b].name| == NODE_NAME ensures l[a].ino != l[b].ino {
      if l[a].ino == l[b].ino { NamesDiffer(v, j, a, j, b); }
    }
    DirectorySearchesAgree(v, j, name);
  }

  /** In every state of an orderly run, on every live directory and for every name. */
  lemma RunSearchesAgree(vs: seq<Vol>, ops: seq<Op>, k: nat, j: nat, name: seq<Byte>)
    requires OrderlyRun(vs, ops) && k <= |ops| && vs[k].geo.Sizes() && LiveDir(vs[k], j)
    ensures Answer(Finddir(vs[k], j, name)) == Answer(DirLookup(vs[k], j, name)) <==>
              var l := Entries(vs[k], GetInode(vs[k], j));
              var i := FindName(l, name);
              (i < |l| ==> |name| <= NODE_NAME) && !Shadowed(l, i, name)
  {
    hide Named, OrderlySteps, Entries, Finddir, DirLookup, Shadowed, LiveDir, Geometry.Sizes;
    RunNamed(vs, ops, k);
    NamedSearchesAgree(vs[k], j, name);
  }
}
