/** ext2_create_dir, ext2_remove_dir and ext2_rename keep link counts and parent entries right for every directory. */
module LinkTheorems {
  import opened Bytes
  import opened InodeCodec
  import opened VolumeState
  import opened BlockMap
  import opened FileData
  import opened FileTheorems
  import opened Shrink
  import opened DirRecords
  import opened DirData
  import opened DirOps
  import opened DirRemoval
  import opened FsOps
  import opened FsSteps
  import opened DirTheorems
  import opened AppendTheorems
  import opened EntryListings
  import opened Links

  /** The counts of directory ino differ by the weight of one entry, its link count by as much for a child. */
  ghost predicate Changed(v: Vol, w: Vol, ino: nat, r: Rec, more: bool)
    requires v.geo.Sizes() && w.geo == v.geo && InodeNumber(v, ino)
  {
    && SameRole(v, w, ino)
    && var l, m := Entries(v, GetInode(v, ino)), Entries(w, GetInode(w, ino));
       if more then
         GetInode(w, ino).links == GetInode(v, ino).links + 1 && forall d: Sort :: Tally(m, d) == Tally(l, d) + Weight(r, d)
       else
         GetInode(w, ino).links == GetInode(v, ino).links - 1 && forall d: Sort :: Tally(l, d) == Tally(m, d) + Weight(r, d)
  }

  /** A child's entry counts as no file. */
  lemma ChangedCounts(v: Vol, w: Vol, j: nat, r: Rec, more: bool, x: nat)
    requires v.geo.Sizes() && w.geo == v.geo && InodeNumber(v, j) && Changed(v, w, j, r, more) && IsChild(r)
    ensures InodeNumber(w, j) && FileCount(w, j, x) == FileCount(v, j, x)
  {
    hide Entries, Tally, DotDot;
  }

  lemma FilesBesideDiscard(v: Vol, ino: nat, n: Inode, m: Inode, drop: bool)
    requires InodeNumber(v, ino)
    ensures FilesStay(v, Discard(v, ino, n, m, drop), ino)
  {
    hide FreeAll;
    FreeAllFrame(v, n);
  }

  /** Rewriting one inode with another link count changes no directory's contents. */
  lemma Relinked(v: Vol, ino: nat, links: Word16, j: nat)
    requires v.geo.Sizes() && LiveDir(v, ino) && LiveDir(v, j)
    ensures var w := PutInode(v, ino, GetInode(v, ino).(links := links));
            LiveDir(w, j) && Alike(v, GetInode(v, j), w, GetInode(w, j))
            && (j != ino ==> GetInode(w, j) == GetInode(v, j)) && (j == ino ==> GetInode(w, j).links == links)
  {
    SameDataAlike(v, PutInode(v, ino, GetInode(v, ino).(links := links)), GetInode(v, j),
                  if j == ino then GetInode(v, j).(links := links) else GetInode(v, j));
  }

  lemma AlikeWellFormed(v: Vol, w: Vol, ino: nat)
    requires v.geo.Sizes() && w.geo == v.geo && InodeNumber(v, ino) && InodeNumber(w, ino)
    requires Alike(v, GetInode(v, ino), w, GetInode(w, ino)) && Sound(w) && LiveDir(w, ino)
    ensures WellFormedDir(v, ino) ==> WellFormedDir(w, ino)
    ensures HasRoom(v, ino) ==> HasRoom(w, ino)
    ensures Entries(w, GetInode(w, ino)) == Entries(v, GetInode(v, ino))
  {
    hide Owned, Lookup, BlocksTiled, Entries, Aligned;
    AlikeDirs(v, GetInode(v, ino), w, GetInode(w, ino));
    AlikeMode(v, GetInode(v, ino), w, GetInode(w, ino));
    SoundReady(w, ino);
    hide Alike;
  }

  // ---------------------------------------------------------------- ext2_create_dir

  /** Every old directory looks the same beside the new one. */
  lemma BesideNewDir(v: Vol, ino: nat, b: Word32, parent: Word32, j: nat)
    requires Sound(v) && v.geo.Sizes() && LiveDir(v, j) && InodeNumber(v, ino) && ino !in v.live && ino < 0x1_0000_0000
    requires v.geo.IsData(b) && b !in v.used && b < |v.data| && BlockSize(v.geo.blockSize)
    ensures var w := AddDir(v, ino, b, parent);
            w.geo == v.geo && LiveDir(w, j) && Alike(v, GetInode(v, j), w, GetInode(w, j)) && GetInode(w, j) == GetInode(v, j)
  {
    hide Owned, Lookup, DirSound, FirstBlock;
    SoundOwned(v);
    var c := FirstBlock(v.geo.blockSize, ino, parent);
    FilledKeeps(v, j, b, c);
    FilledShape(v, b, c);
    var u, w := Filled(v, b, c), AddDir(v, ino, b, parent);
    SameDataAlike(u, w, GetInode(v, j), GetInode(v, j));
    AlikeTwice(v, GetInode(v, j), u, GetInode(v, j), w, GetInode(w, j));
  }

  /** A directory as create_dir makes it lists its two dot entries and no child. */
  lemma NewDirShows(w: Vol, ino: nat, b: Word32, parent: Word32)
    requires w.geo.Sizes() && Sound(w) && Live(w, ino) && GetInode(w, ino) == NewDir(w, b) && b != 0 && BlockSize(w.geo.blockSize)
    requires 0 < ino < 0x1_0000_0000 && parent != 0 && Content(w, b) == FirstBlock(w.geo.blockSize, ino, parent)
    ensures NewlyMade(w, ino, parent) && Entries(w, GetInode(w, ino)) == DotPair(ino, parent)
    ensures WellFormedDir(w, ino) && DirBytes(w, GetInode(w, ino)) == FirstBlock(w.geo.blockSize, ino, parent)
  {
    hide Owned, Lookup, DirSound, FirstBlock, Tiled, Listing, DirBytes, ReadEnd, ByteAt, DotsAt, Visible, Ino, FileBytes, BlocksTiled;
    var n, bs := NewDir(w, b), w.geo.blockSize;
    var c := FirstBlock(bs, ino, parent);
    SelfPut(w, ino);
    assert Editing(w, ino, n) by { SoundOwned(w); }
    forall l: nat ensures Lookup(w, n, l) == if l == 0 then b else 0 { OneBlock(w, n, l); }
    forall x: nat | x < n.size ensures MappedAt(w, n, x) { FirstOnly(x, bs); }
    assert Aligned(bs, bs);
    WholeDir(w, n);
    DirBlock(w, ino, n, 0);
    assert DirBytes(w, n) == c by { assert DirBytes(w, n)[0..bs] == DirBytes(w, n); }
    FirstBlockSound(bs, ino, parent);
    SoundReady(w, ino);
    assert bs % 4 == 0;
  }

  lemma NewDirLists(v: Vol, ino: nat, b: Word32, parent: Word32)
    requires v.geo.Sizes() && InodeNumber(v, ino) && ino < 0x1_0000_0000 && b < |v.data| && b != 0 && BlockSize(v.geo.blockSize)
    requires Sound(AddDir(v, ino, b, parent)) && ino != 0 && parent != 0
    ensures var w := AddDir(v, ino, b, parent);
            w.geo == v.geo && NewlyMade(w, ino, parent)
  {
    hide Owned, Lookup, DirSound, FirstBlock, Listing, DirBytes, Sound;
    FilledShape(v, b, FirstBlock(v.geo.blockSize, ino, parent));
    NewDirShows(AddDir(v, ino, b, parent), ino, b, parent);
  }

  lemma FirstOnly(x: nat, bs: nat)
    requires x < bs
    ensures x / bs == 0
  {}

  /** What an empty directory lists: itself and its parent. */
  function DotPair(ino: Word32, parent: Word32): seq<Rec> {
    [Rec(ino, DOT, KIND_DIR), Rec(parent, DOTDOT, KIND_DIR)]
  }

  lemma DotPairCounts(ino: Word32, parent: Word32, s: Sort)
    ensures Tally(DotPair(ino, parent), s) ==
              match s
              case Dot(up) => 1
              case DotTo(up, d) => if d == (if up then parent else ino) then 1 else 0
              case _ => 0
  {
    var a, b := Rec(ino, DOT, KIND_DIR), Rec(parent, DOTDOT, KIND_DIR);
    assert [a, b][1..] == [b] && [b][1..] == [];
    assert Tally([b], s) == Weight(b, s) + Tally([], s);
  }

  /** Directory ino is as create_dir makes one: two links, and nothing listed but the dot names. */
  ghost predicate NewlyMade(w: Vol, ino: nat, parent: nat)
    requires w.geo.Sizes()
  {
    && LiveDir(w, ino) && ino < 0x1_0000_0000 && parent < 0x1_0000_0000 && GetInode(w, ino).links == 2
    && GetInode(w, ino).size % 4 == 0 && DotDot(w, GetInode(w, ino)) == parent
    && forall s: Sort :: Tally(Entries(w, GetInode(w, ino)), s) == Tally(DotPair(ino, parent), s)
  }

  /** Such a directory is in order if its parent lists it, or it is its own parent. */
  lemma NewlyInOrder(w: Vol, ino: nat, parent: nat)
    requires w.geo.Sizes() && NewlyMade(w, ino, parent) && LiveDir(w, parent)
    requires parent == ino || Tally(Entries(w, GetInode(w, parent)), Child(ino)) == 1
    ensures DirInOrder(w, ino)
  {
    hide Entries, DotDot, Tally;
    forall s: Sort ensures Tally(Entries(w, GetInode(w, ino)), s) == Tally(DotPair(ino, parent), s) {}
    DotPairCounts(ino, parent, AnyChild);
    DotPairCounts(ino, parent, Garbled);
    DotPairCounts(ino, parent, Dot(false));
    DotPairCounts(ino, parent, Dot(true));
    DotPairCounts(ino, parent, DotTo(false, ino));
    DotPairCounts(ino, parent, DotTo(true, parent));
    forall d: nat ensures ListsRight(w, ino, d) { DotPairCounts(ino, parent, Child(d)); }
  }

  /** The state create_dir adds the entry to. */
  function WithNewDir(v: Vol, ino: nat, b: Word32, parent: Word32): Vol
    requires v.geo.Sizes() && InodeNumber(v, ino) && ino < 0x1_0000_0000 && b < |v.data| && InodeNumber(v, parent)
  {
    var w := AddDir(v, ino, b, parent);
    PutInode(w, parent, LinksUp(GetInode(w, parent)))
  }

  /** What create_dir has done before it adds the entry. */
  lemma NewDirEffect(v: Vol, ino: nat, b: Word32, parent: Word32)
    requires Parent(v, parent) && LiveDir(v, parent) && InodeNumber(v, ino) && ino !in v.live && 0 < ino < 0x1_0000_0000
    requires v.geo.IsData(b) && b !in v.used && b != 0 && parent != 0 && GetInode(v, parent).links < 0xFFFF
    ensures v.geo.Sizes() && b < |v.data|
    ensures var u := WithNewDir(v, ino, b, parent);
            u.geo == v.geo && u.live == v.live + {ino} && |u.inodes| == |v.inodes| && Sound(u) && Parent(u, parent)
            && LiveDir(u, parent) && Alike(v, GetInode(v, parent), u, GetInode(u, parent))
            && (forall j :: LiveDir(v, j) && j != parent ==> SameLinks(v, u, j))
            && DotDot(u, GetInode(u, parent)) == DotDot(v, GetInode(v, parent))
            && Entries(u, GetInode(u, parent)) == Entries(v, GetInode(v, parent))
            && GetInode(u, parent).links == GetInode(v, parent).links + 1
            && GetInode(u, parent).size == GetInode(v, parent).size && NewlyMade(u, ino, parent)
            && (forall j :: LiveDir(u, j) ==> LiveDir(v, j) || j == ino)
  {
    hide Owned, Lookup, Entries, Alike, DotDot, AddDir, SameLinks, DirSound, WellFormedDir, Tally;
    SoundSizes(v);
    DataExists(v, b);
    DirAdded(v, ino, b, parent);
    var w, u := AddDir(v, ino, b, parent), WithNewDir(v, ino, b, parent);
    NewDirShape(v, ino, b, parent);
    BesideNewDir(v, ino, b, parent, parent);
    assert LinksUp(GetInode(w, parent)) == GetInode(w, parent).(links := GetInode(v, parent).links + 1);
    SameMapSound(w, parent, LinksUp(GetInode(w, parent)));
    NewDirLists(v, ino, b, parent);
    forall j | LiveDir(v, j) && j != parent ensures SameLinks(v, u, j) {
      BesideNewDir(v, ino, b, parent, j);
      Relinked(w, parent, GetInode(v, parent).links + 1, j);
      AlikeTwice(v, GetInode(v, j), w, GetInode(w, j), u, GetInode(u, j));
      AlikeLinks(v, u, j);
    }
    Relinked(w, parent, GetInode(v, parent).links + 1, parent);
    AlikeTwice(v, GetInode(v, parent), w, GetInode(w, parent), u, GetInode(u, parent));
    AlikeDirs(v, GetInode(v, parent), u, GetInode(u, parent));
    AlikeMode(v, GetInode(v, parent), u, GetInode(u, parent));
    Relinked(w, parent, GetInode(v, parent).links + 1, ino);
    AlikeDirs(w, GetInode(w, ino), u, GetInode(u, ino));
  }

  lemma NewDirShape(v: Vol, ino: nat, b: Word32, parent: Word32)
    requires v.geo.Sizes() && InodeNumber(v, ino) && ino < 0x1_0000_0000 && b < |v.data|
    ensures var w := AddDir(v, ino, b, parent);
            w.geo == v.geo && w.live == v.live + {ino} && |w.inodes| == |v.inodes|
            && forall j :: 1 <= j <= |v.inodes| && j != ino ==> GetInode(w, j) == GetInode(v, j)
  {}

  lemma SameLinksTwice(u: Vol, v: Vol, w: Vol, j: nat)
    requires u.geo.Sizes() && v.geo == u.geo && w.geo == u.geo && InodeNumber(u, j) && InodeNumber(v, j)
    requires SameLinks(u, v, j) && SameLinks(v, w, j)
    ensures SameLinks(u, w, j)
  {
    hide Entries, DotDot, Tally;
  }

  /** One directory more, listed by the parent, which has room for one link more. */
  ghost predicate WithChild(v: Vol, w: Vol, parent: nat, r: Rec) {
    && v.geo.Sizes() && w.geo == v.geo && LiveDir(v, parent) && !LiveDir(v, r.ino)
    && (forall j :: LiveDir(v, j) && j != parent ==> SameLinks(v, w, j))
    && Changed(v, w, parent, r, true) && IsChild(r) && Spelled(r) && NewlyMade(w, r.ino, parent)
    && (forall j :: LiveDir(w, j) ==> LiveDir(v, j) || j == r.ino)
    && Linked(v) && Sound(w)
  }

  /** What is known of one old directory then. */
  lemma OldBesideChild(v: Vol, w: Vol, parent: nat, r: Rec, j: nat)
    requires WithChild(v, w, parent, r) && LiveDir(v, j)
    ensures j != r.ino && SameRole(v, w, j) && DirInOrder(v, j)
    ensures GetInode(w, j).links == GetInode(v, j).links + if j == parent then 1 else 0
    ensures forall s: Sort :: Tally(Entries(w, GetInode(w, j)), s) ==
                              Tally(Entries(v, GetInode(v, j)), s) + if j == parent then Weight(r, s) else 0
  {
    hide Entries, DotDot, Tally, Sound, DirInOrder, NewlyMade;
    assert j != parent ==> SameLinks(v, w, j);
  }

  /** An old directory is in order beside the new one. */
  lemma OldInOrder(v: Vol, w: Vol, parent: nat, r: Rec, j: nat)
    requires WithChild(v, w, parent, r) && LiveDir(v, j)
    ensures DirInOrder(w, j)
  {
    hide Entries, DotDot, Tally, Sound, WithChild;
    WithChildBasics(v, w, parent, r);
    OldBesideChild(v, w, parent, r, j);
    var up := DotDot(v, GetInode(v, j));
    OldBesideChild(v, w, parent, r, up);
    forall d: nat ensures ListsRight(w, j, d) {
      assert ListsRight(v, j, d);
      if LiveDir(v, d) { OldBesideChild(v, w, parent, r, d); }
    }
  }

  lemma WithChildBasics(v: Vol, w: Vol, parent: nat, r: Rec)
    requires WithChild(v, w, parent, r)
    ensures v.geo.Sizes() && w.geo == v.geo && LiveDir(v, parent) && !LiveDir(v, r.ino) && IsChild(r) && Spelled(r)
    ensures LiveDir(w, r.ino) && DotDot(w, GetInode(w, r.ino)) == parent
  {
    hide Entries, DotDot, Tally, Sound, Linked, SameLinks, Changed;
  }

  lemma LinkedWithChild(v: Vol, w: Vol, parent: nat, r: Rec)
    requires WithChild(v, w, parent, r)
    ensures v.geo.Sizes() && w.geo == v.geo && Linked(w) && RootsStay(v, w)
  {
    hide Entries, DotDot, Tally, Sound, DirInOrder, SameLinks, Changed;
    forall j | LiveDir(w, j) ensures DirInOrder(w, j) {
      if LiveDir(v, j) {
        OldInOrder(v, w, parent, r, j);
      } else {
        OldBesideChild(v, w, parent, r, parent);
        NotYetListed(v, parent, r.ino);
        NewlyInOrder(w, r.ino, parent);
      }
    }
    forall j | LiveDir(v, j) ensures SameRole(v, w, j) { OldBesideChild(v, w, parent, r, j); }
  }

  lemma NotYetListed(v: Vol, parent: nat, ino: nat)
    requires v.geo.Sizes() && LiveDir(v, parent) && DirInOrder(v, parent) && !LiveDir(v, ino)
    ensures Tally(Entries(v, GetInode(v, parent)), Child(ino)) == 0
  {
    hide Entries, DotDot, Tally, LinksRight, DotsRight, Housed;
    assert ListsRight(v, parent, ino);
  }

  /**
   * ext2_create_dir: the parent's count goes up with its listing, the new directory has two links and names its
   * parent, and every other directory keeps its count, its children and its parent.
   */
  lemma CreateDirLinked(v: Vol, parent: nat, name: seq<Byte>)
    requires Linked(v) && Parent(v, parent) && v.geo.Sizes() && LiveDir(v, parent) && Nameable(name) && NulFree(name)
    requires GetInode(v, parent).links < 0xFFFF && DirLookup(v, parent, name) == Absent && AddsOnly(v, parent, name)
    requires Shows(v, parent, name) && CreateDir(v, parent, name).ok
    ensures var r := CreateDir(v, parent, name);
            Linked(r.v) && r.v.geo == v.geo && LiveDir(r.v, r.ino) && DotDot(r.v, GetInode(r.v, r.ino)) == parent
            && r.ino < 0x1_0000_0000 && RootsStay(v, r.v) && FilesMoved(v, r.v, 0, 0, 0) && FilesStay(v, r.v, 0)
            && Changed(v, r.v, parent, Rec(r.ino, name, KIND_DIR), true)
  {
    hide Owned, Lookup, Entries, DotDot, AddDir, SameLinks, DirSound, AddEntry, Tally, LookIn, FilesStay, AddsOnly, Shows, RootsStay,
         Alike, Changed, Linked, Sound, DirReady, LowestFree, LowestFreeInode;
    LinkedBasics(v, parent, name);
    NewInodeIsFree(v);
    LowestFreeIsData(v);
    var ino, b := LowestFreeInode(v), LowestFree(v);
    InodeIsWord(v, parent);
    NewDirEffect(v, ino, b, parent);
    var u, r := WithNewDir(v, ino, b, parent), Rec(ino, name, KIND_DIR);
    SameAddsOnly(v, u, parent, name);
    SoundReady(u, parent);
    AddLinks(u, parent, name, ino, KIND_DIR);
    var w := AddEntry(u, parent, name, ino, KIND_DIR).v;
    KeepsLinks(u, w, parent);
    forall j | LiveDir(v, j) && j != parent ensures SameLinks(v, w, j) {
      StillDir(v, u, j);
      KeptLinks(u, w, parent, j);
      SameLinksTwice(v, u, w, j);
    }
    KeptLinks(u, w, parent, ino);
    StillNewlyMade(u, w, ino, parent);
    GainedIsChanged(v, u, w, parent, r);
    forall j | LiveDir(w, j) ensures LiveDir(v, j) || j == ino { SameLiveDir(u, w, parent, j); }
    LinkedWithChild(v, w, parent, r);
    FilesBesideDir(v, ino, b, parent);
    KeptFiles(u, w, parent);
    FilesStayTwice(v, u, w, 0, 0);
    ChildFiles(v, w, parent, r, true, ino);
  }

  /** Names in an orderly directory, and the size that goes with them. */
  lemma LinkedBasics(v: Vol, j: nat, name: seq<Byte>)
    requires Linked(v) && LiveDir(v, j) && v.geo.Sizes() && DirLookup(v, j, name) == Absent
    ensures Sound(v) && Shape(v) && GetInode(v, j).size % 4 == 0 && name != DOT && name != DOTDOT
  {
    hide Entries, DotDot, Tally, LookIn, LinksRight, Housed, ListsRight, Owned, DirSound;
    SoundSizes(v);
    assert DirInOrder(v, j);
    DotIsFound(Entries(v, GetInode(v, j)), false);
    DotIsFound(Entries(v, GetInode(v, j)), true);
  }

  lemma DotIsFound(l: seq<Rec>, up: bool)
    requires Tally(l, Dot(up)) > 0
    ensures LookIn(l, if up then DOTDOT else DOT) != Absent
  {
    hide LookIn;
    AbsentIsUnnamed(l, if up then DOTDOT else DOT);
    if Unnamed(l, if up then DOTDOT else DOT) { NoDotListed(l, up); }
  }

  lemma {:induction false} NoDotListed(l: seq<Rec>, up: bool)
    requires Unnamed(l, if up then DOTDOT else DOT)
    ensures Tally(l, Dot(up)) == 0
  {
    if l != [] { NoDotListed(l[1..], up); }
  }

  /** A directory that looks alike takes a new name alike. */
  lemma SameAddsOnly(v: Vol, u: Vol, ino: nat, name: seq<Byte>)
    requires v.geo.Sizes() && u.geo == v.geo && InodeNumber(v, ino) && InodeNumber(u, ino) && Nameable(name)
    requires Alike(v, GetInode(v, ino), u, GetInode(u, ino))
    ensures AddsOnly(u, ino, name) == AddsOnly(v, ino, name) && Shows(u, ino, name) == Shows(v, ino, name)
    ensures FitOf(u, ino, name) == FitOf(v, ino, name) && DirLookup(u, ino, name) == DirLookup(v, ino, name)
  {
    hide Alike, DirBytes, FirstFit, Entries, Listing, LookIn, Taller;
    var n, m := GetInode(v, ino), GetInode(u, ino);
    AlikeDirs(v, n, u, m);
    AlikeMode(v, n, u, m);
    TallerAlike(v, n, u, m);
    AlikeDirs(v, Taller(v, n), u, Taller(u, m));
  }

  lemma TallerAlike(v: Vol, n: Inode, u: Vol, m: Inode)
    requires v.geo.Sizes() && u.geo == v.geo && Alike(v, n, u, m) && DirBytes(u, m) == DirBytes(v, n)
    ensures Alike(v, Taller(v, n), u, Taller(u, m))
  {
    hide DirBytes;
    assert forall l: nat :: Lookup(v, Taller(v, n), l) == Lookup(v, n, l) && Lookup(u, Taller(u, m), l) == Lookup(u, m, l);
  }

  lemma StillNewlyMade(u: Vol, w: Vol, ino: nat, parent: nat)
    requires u.geo.Sizes() && w.geo == u.geo && InodeNumber(u, ino) && NewlyMade(u, ino, parent) && SameLinks(u, w, ino)
    ensures NewlyMade(w, ino, parent)
  {
    hide Entries, DotDot, Tally, DotPair;
  }

  lemma FilesBesideDir(v: Vol, ino: nat, b: Word32, parent: Word32)
    requires v.geo.Sizes() && InodeNumber(v, ino) && ino !in v.live && ino < 0x1_0000_0000 && b < |v.data| && LiveDir(v, parent)
    ensures FilesStay(v, WithNewDir(v, ino, b, parent), 0)
  {
    hide AddDir;
    NewDirShape(v, ino, b, parent);
  }

  /** A child that came or went, and a directory without records: no file moved. */
  lemma ChildFiles(v: Vol, w: Vol, parent: nat, r: Rec, more: bool, empty: nat)
    requires v.geo.Sizes() && w.geo == v.geo && InodeNumber(v, parent) && Changed(v, w, parent, r, more) && IsChild(r)
    requires forall j :: LiveDir(w, j) ==> LiveDir(v, j) || j == empty
    requires forall j :: LiveDir(v, j) && LiveDir(w, j) && j != parent ==> SameLinks(v, w, j)
    requires LiveDir(w, empty) && !LiveDir(v, empty) ==> exists up: nat :: NewlyMade(w, empty, up)
    ensures FilesMoved(v, w, 0, 0, 0)
  {
    hide Entries, Tally, DotDot, Changed, SameLinks;
    forall j, x: nat | LiveDir(w, j) ensures FileCount(w, j, x) == if LiveDir(v, j) then FileCount(v, j, x) else 0 {
      if !LiveDir(v, j) {
        var up: nat :| NewlyMade(w, j, up);
        NewlyFileless(w, j, up, x);
      } else if j == parent {
        ChangedCounts(v, w, j, r, more, x);
      } else {
        SameCounts(v, w, j, x);
      }
    }
  }

  lemma NewlyFileless(w: Vol, ino: nat, parent: nat, x: nat)
    requires w.geo.Sizes() && NewlyMade(w, ino, parent)
    ensures FileCount(w, ino, x) == 0
  {
    hide Entries, DotDot, Tally, DotPair;
    DotPairCounts(ino, parent, File(x));
  }

  lemma StillDir(v: Vol, u: Vol, j: nat)
    requires v.geo.Sizes() && u.geo == v.geo && InodeNumber(v, j) && SameLinks(v, u, j)
    ensures LiveDir(u, j)
  {}

  lemma GainedIsChanged(v: Vol, u: Vol, w: Vol, ino: nat, r: Rec)
    requires v.geo.Sizes() && u.geo == v.geo && w.geo == v.geo && InodeNumber(v, ino) && InodeNumber(u, ino) && Gained(u, w, ino, r)
    requires DotDot(u, GetInode(u, ino)) == DotDot(v, GetInode(v, ino)) && GetInode(u, ino).links == GetInode(v, ino).links + 1
    requires GetInode(u, ino).size == GetInode(v, ino).size
    requires Entries(u, GetInode(u, ino)) == Entries(v, GetInode(v, ino))
    ensures Changed(v, w, ino, r, true)
  {
    hide Entries, DotDot, Tally;
  }

  // ---------------------------------------------------------------- ext2_remove_dir

  /** A dot name, or no name at all. */
  predicate DotOrNone(r: Rec) {
    r.name == DOT || r.name == DOTDOT || r.name == []
  }

  /** Bytes that pass the emptiness check, cut anywhere at a multiple of four, list dot entries and cut-off names only. */
  lemma {:induction false} OnlyDotsListed(d: seq<Byte>, s: nat, p: nat, bs: nat)
    requires BlockSize(bs) && Tiled(d, p, bs) && s <= |d| && s % 4 == 0 && p % 4 == 0 && OnlyDots(d[..s], p)
    ensures forall i :: 0 <= i < |Listing(d[..s], p)| ==> DotOrNone(Listing(d[..s], p)[i])
    decreases |d| - p
  {
    hide InBlock, Ino, RecLen, NameLen, Name;
    var c := d[..s];
    if p + HEADER > s {
      ShortListing(c, p);
    } else {
      HeaderOfCut(d, p, s);
      CutRecord(d, s, p, bs);
      ListingStep(c, p);
      if p + 12 > s {
        ShortListing(c, p + RecLen(c, p));
      } else {
        OnlyDotsListed(d, s, p + RecLen(d, p), bs);
      }
    }
  }

  lemma CutRecord(d: seq<Byte>, s: nat, p: nat, bs: nat)
    requires BlockSize(bs) && Tiled(d, p, bs) && p + HEADER <= s <= |d|
    ensures RecLen(d, p) >= HEADER && RecLen(d, p) % 4 == 0 && Tiled(d, p + RecLen(d, p), bs)
    ensures RecLen(d[..s], p) == RecLen(d, p)
    ensures s == p + HEADER ==> Name(d[..s], p) == []
  {
    HeaderOfCut(d, p, s);
    RecordBasics(d, p, bs);
  }

  lemma {:induction false} DotsOnlyTally(l: seq<Rec>, x: nat)
    requires (forall i :: 0 <= i < |l| ==> DotOrNone(l[i])) && Tally(l, Garbled) == 0
    ensures Tally(l, Child(x)) == 0
  {
    if l != [] { DotsOnlyTally(l[1..], x); }
  }

  /** A directory that passes the emptiness check lists no child. */
  lemma EmptyIsChildless(v: Vol, d: nat, x: nat)
    requires Linked(v) && v.geo.Sizes() && LiveDir(v, d) && OnlyDots(Visible(v, GetInode(v, d)), 0)
    ensures Tally(Entries(v, GetInode(v, d)), Child(x)) == 0
  {
    hide Owned, BlocksTiled, Listing, Tiled, OnlyDots, DirBytes, Visible, Aligned, DotDot, LinksRight, ListsRight, Housed, DirSound,
         Tally;
    var n := GetInode(v, d);
    SoundSizes(v);
    SoundReady(v, d);
    SelfPut(v, d);
    assert Editing(v, d, n) by { SoundOwned(v); }
    DirTiled(v, d, n);
    DirWhole(v, d, n);
    VisibleIsPrefix(v, n);
    AlignedIsFours(|DirBytes(v, n)|, v.geo.blockSize);
    assert DirInOrder(v, d);
    OnlyDotsListed(DirBytes(v, n), Least(n.size, |DirBytes(v, n)|), 0, v.geo.blockSize);
    DotsOnlyTally(Entries(v, n), x);
  }

  /** Discarding a directory leaves every other directory as it was. */
  lemma DiscardLinks(v: Vol, ino: nat, n: Inode, m: Inode, j: nat)
    requires Sound(v) && v.geo.Sizes() && Live(v, ino) && n.block == GetInode(v, ino).block && LiveDir(v, j) && j != ino
    ensures var w := Discard(v, ino, n, m, true);
            w.geo == v.geo && LiveDir(w, j) && Alike(v, GetInode(v, j), w, GetInode(w, j)) && GetInode(w, j) == GetInode(v, j)
  {
    hide Owned, Untouched, DirSound, Lookup, FreeAll;
    SoundOwned(v);
    SelfPut(v, ino);
    SameMapOwned(v, ino, GetInode(v, ino), n) by { assert Editing(v, ino, GetInode(v, ino)); }
    FreeAllOwned(v, ino, n, Unmapped(m));
    FreeAllFrame(v, n);
    var x, w := PutInode(FreeAll(v, n), ino, Unmapped(m)), Discard(v, ino, n, m, true);
    UntouchedFrom(v, ino, n, x);
    UntouchedAlike(v, x, ino, j);
    SameDataAlike(x, w, GetInode(x, j), GetInode(w, j));
    AlikeTwice(v, GetInode(v, j), x, GetInode(x, j), w, GetInode(w, j));
  }

  lemma Discarded(v: Vol, ino: nat, n: Inode, m: Inode, j: nat)
    requires InodeNumber(v, ino) && LiveDir(Discard(v, ino, n, m, true), j)
    ensures j != ino && LiveDir(v, j)
  {
    hide Dropped;
  }

  /** One directory fewer, which listed no child, taken out of the parent's listing. */
  ghost predicate WithoutChild(v: Vol, w: Vol, parent: nat, r: Rec) {
    && v.geo.Sizes() && w.geo == v.geo && LiveDir(v, parent) && LiveDir(v, r.ino) && r.ino != parent
    && (forall j :: LiveDir(v, j) && j != parent && j != r.ino ==> SameLinks(v, w, j))
    && Changed(v, w, parent, r, false) && IsChild(r) && DotDot(v, GetInode(v, r.ino)) == parent
    && (forall d: nat :: Tally(Entries(v, GetInode(v, r.ino)), Child(d)) == 0)
    && (forall j :: LiveDir(w, j) ==> LiveDir(v, j) && j != r.ino)
    && Linked(v) && Sound(w)
  }

  /** What is known of one remaining directory then. */
  lemma LeftBeside(v: Vol, w: Vol, parent: nat, r: Rec, j: nat)
    requires WithoutChild(v, w, parent, r) && LiveDir(v, j) && j != r.ino
    ensures SameRole(v, w, j) && DirInOrder(v, j) && DotDot(v, GetInode(v, j)) != r.ino
    ensures GetInode(v, j).links == GetInode(w, j).links + if j == parent then 1 else 0
    ensures forall s: Sort :: Tally(Entries(v, GetInode(v, j)), s) ==
                              Tally(Entries(w, GetInode(w, j)), s) + if j == parent then Weight(r, s) else 0
  {
    hide Entries, DotDot, Tally, Sound, LinksRight, DotsRight, ListsRight;
    assert DirInOrder(v, j) && DirInOrder(v, parent);
    assert j != parent ==> SameLinks(v, w, j);
    LinkAtLeast(v, parent);
  }

  lemma LinkAtLeast(v: Vol, j: nat)
    requires v.geo.Sizes() && InodeNumber(v, j) && DirInOrder(v, j)
    ensures GetInode(v, j).links >= 2
  {
    hide Entries, Tally, DotsRight, ListsRight, Housed;
  }

  lemma LeftInOrder(v: Vol, w: Vol, parent: nat, r: Rec, j: nat)
    requires WithoutChild(v, w, parent, r) && LiveDir(v, j) && j != r.ino
    ensures DirInOrder(w, j)
  {
    hide Entries, DotDot, Tally, Sound, WithoutChild;
    WithoutChildBasics(v, w, parent, r);
    LeftBeside(v, w, parent, r, j);
    LeftBeside(v, w, parent, r, parent);
    LeftBeside(v, w, parent, r, DotDot(v, GetInode(v, j)));
    assert ListsRight(v, parent, r.ino);
    forall d: nat ensures ListsRight(w, j, d) {
      assert ListsRight(v, j, d) && ListsRight(v, j, r.ino);
      if LiveDir(v, d) && d != r.ino { LeftBeside(v, w, parent, r, d); }
    }
  }

  lemma WithoutChildBasics(v: Vol, w: Vol, parent: nat, r: Rec)
    requires WithoutChild(v, w, parent, r)
    ensures v.geo.Sizes() && w.geo == v.geo && LiveDir(v, parent) && LiveDir(v, r.ino) && IsChild(r) && r.ino != parent
    ensures DotDot(v, GetInode(v, r.ino)) == parent
  {
    hide Entries, DotDot, Tally, Sound, Linked, SameLinks, Changed;
  }

  lemma LinkedWithoutChild(v: Vol, w: Vol, parent: nat, r: Rec)
    requires WithoutChild(v, w, parent, r)
    ensures v.geo.Sizes() && w.geo == v.geo && Linked(w) && RootsStay(v, w)
  {
    hide Entries, DotDot, Tally, Sound, DirInOrder, SameLinks, Changed;
    forall j | LiveDir(w, j) ensures DirInOrder(w, j) { LeftInOrder(v, w, parent, r, j); }
    forall j | LiveDir(v, j) && j != r.ino ensures SameRole(v, w, j) { LeftBeside(v, w, parent, r, j); }
  }

  lemma LostIsChanged(v: Vol, u: Vol, w: Vol, ino: nat, r: Rec)
    requires v.geo.Sizes() && u.geo == v.geo && w.geo == v.geo && InodeNumber(v, ino) && InodeNumber(u, ino)
    requires LiveDir(w, ino) && Lost(v, u, ino, r) && Alike(u, GetInode(u, ino), w, GetInode(w, ino))
    requires GetInode(w, ino).links == GetInode(u, ino).links - 1
    ensures Changed(v, w, ino, r, false)
  {
    hide Entries, DotDot, Tally, Alike;
    AlikeDirs(u, GetInode(u, ino), w, GetInode(w, ino));
    AlikeMode(u, GetInode(u, ino), w, GetInode(w, ino));
  }

  lemma LinkedIsFours(v: Vol, j: nat)
    requires v.geo.Sizes() && LiveDir(v, j) && Linked(v)
    ensures GetInode(v, j).size % 4 == 0
  {
    hide Entries, DotDot, Tally, Sound, LinksRight, ListsRight, Housed;
    assert DirInOrder(v, j);
  }

  lemma LinkedSound(v: Vol)
    requires Linked(v)
    ensures Sound(v)
  {}

  /** The directory removed is not the one it is removed from: that one is not empty. */
  lemma ChildIsOther(v: Vol, parent: nat, k: nat)
    requires Linked(v) && v.geo.Sizes() && LiveDir(v, parent)
    requires k < |Entries(v, GetInode(v, parent))| && IsChild(Entries(v, GetInode(v, parent))[k])
    ensures !OnlyDots(Visible(v, GetInode(v, parent)), 0)
  {
    hide Entries, Visible, OnlyDots, Tally, Linked;
    var l := Entries(v, GetInode(v, parent));
    TallyAtLeast(l, k, Child(l[k].ino));
    if OnlyDots(Visible(v, GetInode(v, parent)), 0) { EmptyIsChildless(v, parent, l[k].ino); }
  }

  /** A child that is listed: how often, and that the listing directory's count knows of it. */
  lemma ListedChild(v: Vol, parent: nat, k: nat)
    requires Linked(v) && v.geo.Sizes() && LiveDir(v, parent) && k < |Entries(v, GetInode(v, parent))|
    requires IsChild(Entries(v, GetInode(v, parent))[k])
    ensures var d := Entries(v, GetInode(v, parent))[k].ino;
            LiveDir(v, d) && DotDot(v, GetInode(v, d)) == parent && GetInode(v, parent).links >= 3
  {
    hide Entries, DotDot, Sound, Tally, DotsRight, Housed;
    var l := Entries(v, GetInode(v, parent));
    TallyAtLeast(l, k, Child(l[k].ino));
    TallyAtLeast(l, k, AnyChild);
    assert DirInOrder(v, parent);
    assert ListsRight(v, parent, l[k].ino) && LinksRight(v, parent);
  }

  /**
   * ext2_remove_dir: the parent's count goes down with its listing, nobody lists the removed directory any more, and
   * every other directory keeps its count, its children and its parent.
   */
  lemma RemoveDirLinked(v: Vol, parent: nat, name: seq<Byte>)
    requires LiveDir(v, parent) && DirReady(v, parent) && v.geo.Sizes() && Linked(v)
    requires RemovesOnly(v, parent, name) && RemoveDir(v, parent, name).ok
    ensures var w := RemoveDir(v, parent, name).v;
            Linked(w) && DirLookup(v, parent, name) != Absent && !Live(w, DirLookup(v, parent, name).rec.ino)
            && w.geo == v.geo && FilesMoved(v, w, 0, 0, 0) && FilesStay(v, w, 0) && RootsStay(v, w)
  {
    hide Owned, RemoveEntry, Entries, Discard, LookIn, OnlyDots, Visible, DotDot, DirReady, Sound, RemovesOnly,
         SameLinks, Tally, Lost, Alike, BlocksTiled, FindName, FilesStay, Linked, RootsStay;
    LinkedSound(v);
    LinkedIsFours(v, parent);
    var w := RemoveDir(v, parent, name).v;
    var rec, n := DirLookup(v, parent, name).rec, GetInode(v, DirLookup(v, parent, name).rec.ino);
    RemoveLinks(v, parent, name);
    RemoveKeeps(v, parent, name);
    var r := RemoveEntry(v, parent, name).v;
    var k := FindName(Entries(v, GetInode(v, parent)), name);
    ListedChild(v, parent, k);
    ChildIsOther(v, parent, k);
    forall d: nat ensures Tally(Entries(v, n), Child(d)) == 0 { EmptyIsChildless(v, rec.ino, d); }
    var u := PutInode(r, parent, LinksDown(GetInode(r, parent)));
    KeepsLinks(v, r, parent);
    RemoveSameMap(v, parent, name);
    KeptOthers(v, r, parent, rec.ino);
    SameMapSound(r, parent, LinksDown(GetInode(r, parent)));
    DiscardSound(u, rec.ino, n, n.(links := 0, dtime := 0), true);
    assert w == Discard(u, rec.ino, n, n.(links := 0, dtime := 0), true);
    Relinked(r, parent, GetInode(r, parent).links - 1, parent);
    DiscardLinks(u, rec.ino, n, n.(links := 0, dtime := 0), parent);
    forall j | LiveDir(v, j) && j != parent && j != rec.ino ensures SameLinks(v, w, j) {
      KeptLinks(v, r, parent, j);
      StillDir(v, r, j);
      Relinked(r, parent, GetInode(r, parent).links - 1, j);
      DiscardLinks(u, rec.ino, n, n.(links := 0, dtime := 0), j);
      AlikeTwice(r, GetInode(r, j), u, GetInode(u, j), w, GetInode(w, j));
      AlikeLinks(r, w, j);
      SameLinksTwice(v, r, w, j);
    }
    AlikeTwice(r, GetInode(r, parent), u, GetInode(u, parent), w, GetInode(w, parent));
    LostIsChanged(v, r, w, parent, rec);
    forall j | LiveDir(w, j) ensures LiveDir(v, j) && j != rec.ino {
      Discarded(u, rec.ino, n, n.(links := 0, dtime := 0), j);
      KeptDirLinks(r, parent, j);
      SameLiveDir(v, r, parent, j);
    }
    LinkedWithoutChild(v, w, parent, rec);
    NotLive(u, rec.ino, n, n.(links := 0, dtime := 0));
    ChildFiles(v, w, parent, rec, false, rec.ino);
    KeptFiles(v, r, parent);
    FilesBesideDiscard(u, rec.ino, n, n.(links := 0, dtime := 0), true);
    DirIsNoFile(r, u, w, parent, rec.ino);
    FilesStayTwice(v, r, w, 0, 0);
  }

  lemma DirIsNoFile(r: Vol, u: Vol, w: Vol, parent: nat, ino: nat)
    requires LiveDir(r, parent) && u == PutInode(r, parent, LinksDown(GetInode(r, parent))) && FilesStay(u, w, ino) && LiveDir(r, ino)
    ensures FilesStay(r, w, 0)
  {}

  lemma KeptDirLinks(r: Vol, parent: nat, j: nat)
    requires InodeNumber(r, parent) && LiveDir(PutInode(r, parent, LinksDown(GetInode(r, parent))), j)
    ensures LiveDir(r, j)
  {}

  lemma NotLive(v: Vol, ino: nat, n: Inode, m: Inode)
    requires InodeNumber(v, ino)
    ensures !Live(Discard(v, ino, n, m, true), ino)
  {
    hide Dropped;
  }
}
