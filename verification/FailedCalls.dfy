/** What calls that report failure leave behind: a block without an owner, and a link count that is one too high. */
module FailedCalls {
  import opened Bytes
  import opened InodeCodec
  import opened VolumeState
  import opened BlockMap
  import opened FileMap
  import opened FileData
  import opened DirRecords
  import opened DirData
  import opened DirOps
  import opened DirRemoval
  import opened FsOps
  import opened FsSteps
  import opened Links
  import opened LinkTheorems
  import opened LinkRuns

  /**
   * A failing ext2_add_dir_entry changes no inode. If it failed while appending, the block it had taken for the record
   * stays marked in use although nobody owns it; in every other case the volume is as it was.
   */
  lemma FailedAddLeaks(v: Vol, ino: nat, name: seq<Byte>, child: Word32, kind: Byte)
    requires DirReady(v, ino) && v.geo.Sizes() && InodeNumber(v, ino) && IsDir(GetInode(v, ino)) && Nameable(name) && child != 0
    requires BlockCount(v, GetInode(v, ino)) < DIRECT + TABLE_BUFFER && !AddEntry(v, ino, name, child, kind).ok
    ensures var w, b := AddEntry(v, ino, name, child, kind).v, LowestFree(v);
            w.inodes == v.inodes && w.live == v.live && w.geo == v.geo && |w.data| == |v.data| &&
            Owned(w) &&
            (forall c: nat :: c < |v.data| && c in v.used ==> w.data[c] == v.data[c]) &&
            if FitOf(v, ino, name).AtEnd? && b != 0 then b !in v.used && w.used == v.used + {b} && Unowned(w, b)
            else w == v
  {
    hide Owned, FirstFit, DirBytes, Unowned, EnsureTable, FreshBlock;
    OwnedShaped(v);
    LowestFreeIsData(v);
    var b := LowestFree(v);
    if FitOf(v, ino, name).AtEnd? && b != 0 {
      var c := FreshBlock(v.geo.blockSize, child, name, kind);
      FilledOwned(v, b, c);
      assert AddEntry(v, ino, name, child, kind).v == Filled(v, b, c);
    }
  }

  lemma OwnedShaped(v: Vol)
    requires Owned(v)
    ensures Shape(v) && BlockSize(v.geo.blockSize) && |v.data| == v.geo.blocksCount
  {}

  lemma StaysAlike(v: Vol, w: Vol, ino: nat)
    requires DirReady(v, ino) && InodeNumber(v, ino) && v.geo.Sizes() && w.geo == v.geo && |w.data| == |v.data|
    requires forall c: nat :: c < |v.data| && c in v.used ==> w.data[c] == v.data[c]
    ensures Alike(v, GetInode(v, ino), w, GetInode(v, ino))
  {
    var n := GetInode(v, ino);
    forall loc ensures Ptr(w, n, loc) == Ptr(v, n, loc) {
      TablesInUse(v, ino, loc);
    }
    forall l: nat | Lookup(v, n, l) != 0 ensures Content(w, Lookup(v, n, l)) == Content(v, Lookup(v, n, l)) {
      assert P(v, ino, PlaceOf(PerTable(v), l)) in v.used;
    }
  }

  /** The tables on the way to a place are in use. */
  lemma TablesInUse(v: Vol, ino: nat, loc: Loc)
    requires Owned(v) && Live(v, ino)
    ensures var n := GetInode(v, ino);
            (n.block[12] == 0 || n.block[12] in v.used) && (n.block[13] == 0 || n.block[13] in v.used) &&
            (loc.Leaf? ==> Entry(v, n.block[13], loc.i) == 0 || Entry(v, n.block[13], loc.i) in v.used)
  {
    assert P(v, ino, Single) == 0 || P(v, ino, Single) in v.used;
    assert P(v, ino, Double) == 0 || P(v, ino, Double) in v.used;
    if loc.Leaf? { assert P(v, ino, Mid(loc.i)) == 0 || P(v, ino, Mid(loc.i)) in v.used; }
  }

  /**
   * A failing ext2_create_dir raises the parent's link count if it got as far as having an inode and a block, although
   * the listing stays as it was: the count is right afterwards exactly when one of the two could not be had.
   */
  lemma FailedCreateDirMiscounts(v: Vol, parent: nat, name: seq<Byte>)
    requires Linked(v) && Parent(v, parent) && IsDir(GetInode(v, parent)) && Nameable(name) && v.geo.Sizes()
    requires !CreateDir(v, parent, name).ok
    ensures var w := CreateDir(v, parent, name).v;
            w.geo == v.geo && InodeNumber(w, parent) &&
            Entries(w, GetInode(w, parent)) == Entries(v, GetInode(v, parent)) &&
            (LinksRight(w, parent) <==> LowestFreeInode(v) == 0 || LowestFree(v) == 0)
  {
    hide Owned, Lookup, Entries, DotDot, AddDir, DirSound, AddEntry, Tally, DirReady, Alike, LowestFree, LowestFreeInode,
         Sound, Linked;
    LinkedParts(v, parent);
    NewInodeIsFree(v);
    LowestFreeIsData(v);
    var ino, b := LowestFreeInode(v), LowestFree(v);
    if ino != 0 && b != 0 {
      InodeIsWord(v, parent);
      NewDirAlike(v, parent, ino, b);
      var u := WithNewDir(v, ino, b, parent);
      FailedAddLeaks(u, parent, name, ino, KIND_DIR);
      var r := AddEntry(u, parent, name, ino, KIND_DIR);
      StaysAlike(u, r.v, parent);
      var w := CreateDir(v, parent, name).v;
      assert w.data == r.v.data && w.inodes == r.v.inodes;
      SameDataAlike(r.v, w, GetInode(u, parent), GetInode(u, parent));
      AlikeTwice(u, GetInode(u, parent), r.v, GetInode(u, parent), w, GetInode(w, parent));
      AlikeTwice(v, GetInode(v, parent), u, GetInode(u, parent), w, GetInode(w, parent));
      AlikeDirs(v, GetInode(v, parent), w, GetInode(w, parent));
    }
  }

  lemma LinkedParts(v: Vol, j: nat)
    requires Linked(v) && Live(v, j) && IsDir(GetInode(v, j))
    ensures Shape(v) && v.geo.Sizes() && LinksRight(v, j)
  {
    SoundOwned(v);
    hide Entries, DirSound, LinksRight;
    assert LiveDir(v, j);
  }

  /** Before the entry is added, the parent is as it was but for its link count. */
  lemma NewDirAlike(v: Vol, parent: nat, ino: nat, b: Word32)
    requires Parent(v, parent) && IsDir(GetInode(v, parent)) && v.geo.Sizes()
    requires InodeNumber(v, ino) && ino !in v.live && ino < 0x1_0000_0000 && 0 < parent < 0x1_0000_0000
    requires v.geo.IsData(b) && b !in v.used && b != 0
    ensures b < |v.data|
    ensures var u := WithNewDir(v, ino, b, parent);
            u.geo == v.geo && DirReady(u, parent) && InodeNumber(u, parent) && IsDir(GetInode(u, parent)) &&
            BlockCount(u, GetInode(u, parent)) < DIRECT + TABLE_BUFFER &&
            Alike(v, GetInode(v, parent), u, GetInode(u, parent)) &&
            GetInode(u, parent).links == (GetInode(v, parent).links + 1) % 0x1_0000
  {
    hide Owned, Lookup, DirSound, AddDir, Alike;
    SoundSizes(v);
    DataExists(v, b);
    DirLinked(v, ino, b, parent);
    DirAdded(v, ino, b, parent);
    NewDirShape(v, ino, b, parent);
    BesideNewDir(v, ino, b, parent, parent);
    var w, u := AddDir(v, ino, b, parent), WithNewDir(v, ino, b, parent);
    SameMapSound(w, parent, LinksUp(GetInode(w, parent)));
    SoundReady(u, parent);
    SameDataAlike(w, u, GetInode(w, parent), GetInode(u, parent));
    AlikeTwice(v, GetInode(v, parent), w, GetInode(w, parent), u, GetInode(u, parent));
  }

  /** Only block b is free. */
  ghost predicate OnlyFree(v: Vol, b: nat) {
    forall c: nat :: v.geo.firstData <= c < v.geo.firstData + v.geo.mapLength && c !in v.used ==> c == b
  }

  /** A directory whose parent has to grow for it takes two blocks; with one free block the call fails half way. */
  lemma CreateDirNeedsTwo(v: Vol, parent: nat, name: seq<Byte>)
    requires Parent(v, parent) && IsDir(GetInode(v, parent)) && Nameable(name) && v.geo.Sizes() && Shape(v)
    requires LowestFreeInode(v) != 0 && LowestFree(v) != 0 && OnlyFree(v, LowestFree(v)) && FitOf(v, parent, name).AtEnd?
    ensures !CreateDir(v, parent, name).ok
  {
    hide Owned, Lookup, Entries, AddDir, DirSound, AddEntry, DirReady, Alike, LowestFree, LowestFreeInode, Sound, FirstFit, DirBytes,
         FitOf, OnlyFree;
    NewInodeIsFree(v);
    LowestFreeIsData(v);
    InodeIsWord(v, parent);
    var ino, b := LowestFreeInode(v), LowestFree(v);
    NewDirAlike(v, parent, ino, b);
    var u := WithNewDir(v, ino, b, parent);
    SameFit(v, u, parent, name);
    NoBlockLeft(v, u, ino, b, parent);
    FailsFull(u, parent, name, ino, KIND_DIR);
  }

  lemma SameFit(v: Vol, u: Vol, parent: nat, name: seq<Byte>)
    requires v.geo.Sizes() && u.geo == v.geo && InodeNumber(v, parent) && InodeNumber(u, parent) && Nameable(name)
    requires Alike(v, GetInode(v, parent), u, GetInode(u, parent))
    ensures FitOf(u, parent, name) == FitOf(v, parent, name)
  {
    hide Alike, DirBytes, FirstFit;
    AlikeDirs(v, GetInode(v, parent), u, GetInode(u, parent));
    AlikeMode(v, GetInode(v, parent), u, GetInode(u, parent));
  }

  lemma NoBlockLeft(v: Vol, u: Vol, ino: nat, b: Word32, parent: Word32)
    requires v.geo.Sizes() && InodeNumber(v, ino) && ino < 0x1_0000_0000 && b < |v.data| && InodeNumber(v, parent)
    requires u == WithNewDir(v, ino, b, parent) && OnlyFree(v, b)
    ensures LowestFree(u) == 0
  {
    hide FirstBlock, NewDir;
  }

  lemma FailsFull(v: Vol, ino: nat, name: seq<Byte>, child: Word32, kind: Byte)
    requires DirReady(v, ino) && v.geo.Sizes() && InodeNumber(v, ino) && Nameable(name) && child != 0
    requires BlockCount(v, GetInode(v, ino)) < DIRECT + TABLE_BUFFER && FitOf(v, ino, name).AtEnd? && LowestFree(v) == 0
    ensures !AddEntry(v, ino, name, child, kind).ok
  {
    hide Owned, DirBytes, FirstFit, BlocksTiled, LowestFree;
  }

  // ---------------------------------------------------------------- failing calls that leave every listing alone

  lemma SameListingsItself(v: Vol)
    requires v.geo.Sizes()
    ensures SameListings(v, v)
  {
    hide Entries, DotDot, Tally;
  }

  /** A failing add leaves every directory and every file as it was. */
  lemma FailedAddSame(v: Vol, ino: nat, name: seq<Byte>, child: Word32, kind: Byte)
    requires Parent(v, ino) && Nameable(name) && child != 0 && DirReady(v, ino) && !AddEntry(v, ino, name, child, kind).ok
    ensures var w := AddEntry(v, ino, name, child, kind).v;
            v.geo.Sizes() && w.geo == v.geo && w.inodes == v.inodes && w.live == v.live && SameListings(v, w) &&
            forall j :: LiveDir(v, j) ==> Alike(v, GetInode(v, j), w, GetInode(w, j))
  {
    hide Owned, Entries, DotDot, Tally, Alike, AddEntry, BlockCount, DirSound, FitOf, SameLinks;
    SoundSizes(v);
    if !IsDir(GetInode(v, ino)) {
      NoDirectoryFails(v, ino, name, child, kind);
      SameListingsItself(v);
    } else {
      FailedAddLeaks(v, ino, name, child, kind);
    }
    var w := AddEntry(v, ino, name, child, kind).v;
    forall j | LiveDir(v, j) ensures Alike(v, GetInode(v, j), w, GetInode(w, j)) && SameLinks(v, w, j) {
      SoundReady(v, j);
      StaysAlike(v, w, j);
      AlikeLinks(v, w, j);
    }
  }

  lemma NoDirectoryFails(v: Vol, ino: nat, name: seq<Byte>, child: Word32, kind: Byte)
    requires Parent(v, ino) && Nameable(name) && child != 0 && DirReady(v, ino) && !IsDir(GetInode(v, ino))
    ensures AddEntry(v, ino, name, child, kind).v == v
  {}

  /** A failing ext2_create_file leaves every directory and every file as it was. */
  lemma FailedCreateFileSame(v: Vol, parent: nat, name: seq<Byte>)
    requires Parent(v, parent) && Nameable(name) && v.geo.Sizes() && !CreateFile(v, parent, name).ok
    ensures SameListings(v, CreateFile(v, parent, name).v)
  {
    hide Owned, Entries, DotDot, Tally, Alike, AddEntry, BlockCount, DirSound, SameLinks, NewFile, LowestFreeInode, Sound;
    SoundSizes(v);
    NewInodeIsFree(v);
    var ino, w := LowestFreeInode(v), CreateFile(v, parent, name).v;
    if ino == 0 {
      SameListingsItself(v);
    } else {
      FileAdded(v, ino, parent);
      AddedBeside(v, ino);
      var u := AddInode(v, ino, NewFile());
      FailedAddSame(u, parent, name, ino, KIND_FILE);
      var r := AddEntry(u, parent, name, ino, KIND_FILE).v;
      assert w == DropInode(r, ino);
      forall j | LiveDir(v, j) ensures LiveDir(w, j) && SameLinks(v, w, j) {
        SameDataAlike(r, w, GetInode(u, j), GetInode(u, j));
        AlikeTwice(u, GetInode(u, j), r, GetInode(u, j), w, GetInode(w, j));
        AlikeTwice(v, GetInode(v, j), u, GetInode(u, j), w, GetInode(w, j));
        AlikeLinks(v, w, j);
      }
    }
  }

  /** A failing removal changes nothing, if the name stands for a live inode. */
  lemma FailedRemovalSame(v: Vol, parent: nat, name: seq<Byte>)
    requires Sound(v) && Live(v, parent) && NamesLive(v, parent, name)
    ensures DirReady(v, parent)
    ensures !RemoveFile(v, parent, name).ok ==> RemoveFile(v, parent, name).v == v
    ensures !RemoveDir(v, parent, name).ok ==> RemoveDir(v, parent, name).v == v
  {
    hide Owned, Untouched, RemoveEntry, Discard, LookIn, Entries, DirSound, OnlyDots, Visible;
    SoundReady(v, parent);
    RemoveSound(v, parent, name);
    match DirLookup(v, parent, name)
    case Absent =>
    case Present(rec) => KeptMode(v, RemoveEntry(v, parent, name).v, parent, rec.ino);
  }

  /** A rename that comes to an end before its new name is linked. */
  ghost predicate NothingLinked(v: Vol, op: nat, oldName: seq<Byte>, np: nat, newName: seq<Byte>)
    requires Parent(v, op) && Parent(v, np) && Nameable(newName) && NamesInode(v, op, oldName)
  {
    SoundReady(v, op);
    SoundReady(v, np);
    newName == DOT || newName == DOTDOT || (op == np && oldName == newName) ||
    match DirLookup(v, op, oldName)
    case Absent => true
    case Present(rec) => DirLookup(v, np, newName) != Absent || (InodeIsWord(v, rec.ino); !AddEntry(v, np, newName, rec.ino, rec.kind).ok)
  }

  lemma NothingLinkedSame(v: Vol, op: nat, oldName: seq<Byte>, np: nat, newName: seq<Byte>)
    requires Parent(v, op) && Parent(v, np) && Nameable(newName) && NamesInode(v, op, oldName)
    requires NothingLinked(v, op, oldName, np, newName)
    ensures SameListings(v, Rename(v, op, oldName, np, newName).v)
  {
    hide Owned, Entries, DotDot, Tally, AddEntry, RemoveEntry, LookIn, BlockCount, DirSound, SameLinks, Relink;
    SoundSizes(v);
    SoundReady(v, op);
    SoundReady(v, np);
    SameListingsItself(v);
    match DirLookup(v, op, oldName)
    case Absent =>
    case Present(rec) =>
      InodeIsWord(v, rec.ino);
      if !AddEntry(v, np, newName, rec.ino, rec.kind).ok { FailedAddSame(v, np, newName, rec.ino, rec.kind); }
  }
}
