/** Link and parent bookkeeping over whole runs: files come and go beside it, directories with it. */
module LinkRuns {
  import opened Bytes
  import opened InodeCodec
  import opened VolumeState
  import opened BlockMap
  import opened FileData
  import opened FileTheorems
  import opened Shrink
  import opened DirRecords
  import opened DirData
  import opened DirOps
  import opened DirRemoval
  import opened FsOps
  import opened FsSteps
  import opened FsRuns
  import opened DirTheorems
  import opened Links
  import opened AppendTheorems
  import opened EntryListings
  import opened LinkTheorems
  import opened RenameLinks

  // ---------------------------------------------------------------- steps that move no directory

  /** Writing or truncating a file: no directory looks any different. */
  lemma LinkedBeside(v: Vol, w: Vol, ino: nat)
    requires Linked(v) && Sound(w) && v.geo.Sizes() && Live(v, ino) && !IsDir(GetInode(v, ino)) && Untouched(v, w, ino)
    requires |w.inodes| == |v.inodes| && w.inodes == v.inodes[ino - 1 := GetInode(w, ino)] && !IsDir(GetInode(w, ino))
    ensures Linked(w) && SameListings(v, w)
  {
    hide Linked, SameLinks, SameChildren, Sound, Alike;
    BesideGeometry(v, w, ino);
    forall j | LiveDir(v, j) ensures SameLinks(v, w, j) {
      UntouchedAlike(v, w, ino, j);
      AlikeLinks(v, w, j);
    }
    SameListingsLinked(v, w);
  }

  lemma BesideGeometry(v: Vol, w: Vol, ino: nat)
    requires Live(v, ino) && Untouched(v, w, ino) && !IsDir(GetInode(v, ino))
    requires |w.inodes| == |v.inodes| && w.inodes == v.inodes[ino - 1 := GetInode(w, ino)] && !IsDir(GetInode(w, ino))
    ensures w.geo == v.geo && w.live == v.live && forall j :: LiveDir(w, j) <==> LiveDir(v, j)
    ensures FilesStay(v, w, 0) && forall j :: InodeNumber(v, j) && j != ino ==> GetInode(w, j) == GetInode(v, j)
  {}

  /** All directories list what they listed, and no file went away. */
  ghost predicate SameListings(v: Vol, w: Vol) {
    && v.geo.Sizes() && w.geo == v.geo && FilesStay(v, w, 0)
    && (forall j :: LiveDir(w, j) <==> LiveDir(v, j)) && forall j :: LiveDir(v, j) ==> SameLinks(v, w, j)
  }

  /** Such a change keeps the bookkeeping. */
  lemma SameListingsLinked(v: Vol, w: Vol)
    requires Linked(v) && Sound(w) && SameListings(v, w)
    ensures w.geo == v.geo && v.geo.Sizes() && Linked(w) && RootsStay(v, w)
  {
    hide Linked, SameLinks, SameChildren, Sound;
    forall j | LiveDir(v, j) ensures SameChildren(v, w, j) { SameIsSameChildren(v, w, j); }
    LinkedSame(v, w);
  }

  lemma WriteLinked(v: Vol, ino: nat, offset: nat, buf: seq<Byte>)
    requires Linked(v) && Live(v, ino) && !IsDir(GetInode(v, ino)) && offset + |buf| < 0x1_0000_0000
    ensures Owned(v) && Linked(NodeWrite(v, ino, offset, buf).v) && SameListings(v, NodeWrite(v, ino, offset, buf).v)
  {
    hide Owned, Untouched, DirSound, NodeWrite, Linked;
    LinkedIsSound(v);
    WriteSound(v, ino, offset, buf);
    WriteFrame(v, ino, offset, buf);
    LinkedBeside(v, NodeWrite(v, ino, offset, buf).v, ino);
  }

  lemma TruncateLinked(v: Vol, ino: nat, size: Word32)
    requires Linked(v) && Live(v, ino) && !IsDir(GetInode(v, ino)) && v.geo.Sizes() && size + v.geo.blockSize < 0x1_0000_0000
    requires ino !in v.geo.reserved
    ensures Owned(v) && Linked(Truncate(v, ino, size).v) && SameListings(v, Truncate(v, ino, size).v)
  {
    hide Owned, Untouched, DirSound, Truncate, Linked;
    LinkedIsSound(v);
    TruncateSound(v, ino, size);
    TruncateFrame(v, ino, size);
    LinkedBeside(v, Truncate(v, ino, size).v, ino);
  }

  lemma LinkedIsSound(v: Vol)
    requires Linked(v)
    ensures Sound(v) && Owned(v) && v.geo.Sizes() && Shape(v)
  {
    hide LinksRight, ListsRight;
    SoundOwned(v);
    SoundSizes(v);
  }

  /** What creating a file changes: its directory lists one file more, which was not there before. */
  ghost predicate FileEntered(v: Vol, w: Vol, parent: nat, rec: Rec) {
    && v.geo.Sizes() && w.geo == v.geo && Sound(w) && LiveDir(v, parent) && FilesStay(v, w, 0) && IsFile(rec)
    && (forall j :: LiveDir(w, j) <==> LiveDir(v, j)) && (forall j :: LiveDir(v, j) && j != parent ==> SameLinks(v, w, j))
    && Gained(v, w, parent, rec) && !Live(v, rec.ino) && Live(w, rec.ino) && !IsDir(GetInode(w, rec.ino))
  }

  /** Creating a file, where its entry changes the listing alone: it is entered if readers come by its entry. */
  lemma CreateFileEffect(v: Vol, parent: nat, name: seq<Byte>)
    requires Parent(v, parent) && LiveDir(v, parent) && Nameable(name) && v.geo.Sizes() && Linked(v)
    requires DirLookup(v, parent, name) == Absent && AddsOnly(v, parent, name) && CreateFile(v, parent, name).ok
    ensures var r := CreateFile(v, parent, name);
            r.ino < 0x1_0000_0000 && name != DOT && name != DOTDOT && Sound(r.v) &&
            if Shows(v, parent, name) then FileEntered(v, r.v, parent, Rec(r.ino, name, KIND_FILE)) else SameListings(v, r.v)
  {
    hide Owned, Sound, Linked, AddEntry, Entries, LookIn, SameLinks, Gained, Alike, Untouched, DirKeeps, FilesStay, NewFile, AddsOnly,
         Shows, LowestFreeInode;
    LinkedBasics(v, parent, name);
    NewInodeIsFree(v);
    SoundReady(v, parent);
    var ino := LowestFreeInode(v);
    FileAdded(v, ino, parent);
    var u := AddInode(v, ino, NewFile());
    AddedBeside(v, ino);
    SameAddsOnly(v, u, parent, name);
    AddLinks(u, parent, name, ino, KIND_FILE);
    var w, rec := AddEntry(u, parent, name, ino, KIND_FILE).v, Rec(ino, name, KIND_FILE);
    forall j | LiveDir(v, j) && j != parent ensures SameLinks(v, w, j) {
      AlikeLinks(v, u, j);
      KeptLinks(u, w, parent, j);
      SameLinksTwice(v, u, w, j);
    }
    AlikeLinks(v, u, parent);
    if Shows(v, parent, name) {
      SameGained(v, u, w, parent, rec);
    } else {
      SameLinksTwice(v, u, w, parent);
    }
    forall j ensures LiveDir(w, j) <==> LiveDir(v, j) { SameLiveDir(u, w, parent, j); }
    KeptFiles(u, w, parent);
    FilesStayTwice(v, u, w, 0, 0);
    NewFileKept(u, w, parent, ino);
  }

  /** A file's inode added: every directory and every file is as it was. */
  lemma AddedBeside(v: Vol, ino: nat)
    requires v.geo.Sizes() && InodeNumber(v, ino) && ino !in v.live
    ensures var u := AddInode(v, ino, NewFile());
            u.geo == v.geo && FilesStay(v, u, 0) && Live(u, ino) && !IsDir(GetInode(u, ino)) && !Live(v, ino)
            && (forall j :: LiveDir(u, j) <==> LiveDir(v, j))
            && forall j :: LiveDir(v, j) ==> GetInode(u, j) == GetInode(v, j) && Alike(v, GetInode(v, j), u, GetInode(u, j))
  {
    hide Alike;
    var u := AddInode(v, ino, NewFile());
    forall j | LiveDir(v, j) ensures Alike(v, GetInode(v, j), u, GetInode(u, j)) {
      SameDataAlike(v, u, GetInode(v, j), GetInode(u, j));
    }
  }

  lemma SameGained(v: Vol, a: Vol, w: Vol, ino: nat, r: Rec)
    requires v.geo.Sizes() && a.geo == v.geo && w.geo == v.geo && InodeNumber(v, ino) && InodeNumber(a, ino)
    requires SameLinks(v, a, ino) && Gained(a, w, ino, r)
    ensures Gained(v, w, ino, r)
  {
    hide Entries, Tally, DotDot;
  }

  lemma NewFileKept(u: Vol, w: Vol, parent: nat, ino: nat)
    requires LiveDir(u, parent) && DirKeeps(u, w, parent) && Live(u, ino) && !IsDir(GetInode(u, ino))
    ensures Live(w, ino) && !IsDir(GetInode(w, ino))
  {
    hide Owned, Untouched;
    KeepsBasics(u, w, parent);
  }

  /** A file entered: its entry is no child of its directory. */
  lemma FileEnteredLinked(v: Vol, w: Vol, parent: nat, rec: Rec)
    requires Linked(v) && FileEntered(v, w, parent, rec) && Spelled(rec)
    ensures v.geo.Sizes() && w.geo == v.geo && Linked(w) && RootsStay(v, w)
  {
    hide Sound, Linked, SameLinks, SameChildren, Gained, FilesStay;
    WeightlessSame(v, w, parent, rec);
    forall j | LiveDir(v, j) ensures SameChildren(v, w, j) {
      if j != parent { SameIsSameChildren(v, w, j); }
    }
    LinkedSame(v, w);
  }

  /** A new file keeps the bookkeeping, found or not. */
  lemma CreateFileLinked(v: Vol, parent: nat, name: seq<Byte>)
    requires Parent(v, parent) && LiveDir(v, parent) && Nameable(name) && NulFree(name) && v.geo.Sizes() && Linked(v)
    requires DirLookup(v, parent, name) == Absent && AddsOnly(v, parent, name) && CreateFile(v, parent, name).ok
    ensures var w := CreateFile(v, parent, name).v; w.geo == v.geo && Linked(w) && RootsStay(v, w)
  {
    hide Sound, Linked, CreateFile, DirLookup, FileEntered, SameListings, Parent, RootsStay, AddsOnly, Shows;
    CreateFileEffect(v, parent, name);
    var r := CreateFile(v, parent, name);
    if Shows(v, parent, name) {
      FileEnteredLinked(v, r.v, parent, Rec(r.ino, name, KIND_FILE));
    } else {
      SameListingsLinked(v, r.v);
    }
  }

  /** In a whole directory with room every new name goes. */
  lemma CreateFileInWhole(v: Vol, parent: nat, name: seq<Byte>)
    requires Parent(v, parent) && HasRoom(v, parent) && Nameable(name) && NulFree(name) && v.geo.Sizes() && Linked(v)
    requires DirLookup(v, parent, name) == Absent && CreateFile(v, parent, name).ok
    ensures Linked(CreateFile(v, parent, name).v)
  {
    hide Sound, Linked, CreateFile, DirLookup, HasRoom, Parent, AddsOnly, Shows, RootsStay;
    RoomReady(v, parent);
    RoomAddsOnly(v, parent, name);
    RoomIsLive(v, parent);
    CreateFileLinked(v, parent, name);
  }

  lemma RoomIsLive(v: Vol, parent: nat)
    requires HasRoom(v, parent)
    ensures LiveDir(v, parent)
  {}

  /** What removing a file changes: its directory lists one file fewer, and that one may be gone. */
  ghost predicate FileLeft(v: Vol, w: Vol, parent: nat, rec: Rec) {
    && v.geo.Sizes() && w.geo == v.geo && Sound(w) && LiveDir(v, parent) && FilesStay(v, w, rec.ino) && IsFile(rec)
    && (forall j :: LiveDir(w, j) <==> LiveDir(v, j)) && (forall j :: LiveDir(v, j) && j != parent ==> SameLinks(v, w, j))
    && Lost(v, w, parent, rec)
  }

  lemma RemoveFileEffect(v: Vol, parent: nat, name: seq<Byte>)
    requires LiveDir(v, parent) && DirReady(v, parent) && v.geo.Sizes() && NamesLive(v, parent, name) && Linked(v)
    requires RemovesOnly(v, parent, name) && RemoveFile(v, parent, name).ok
    ensures DirLookup(v, parent, name).Present?
    ensures FileLeft(v, RemoveFile(v, parent, name).v, parent, DirLookup(v, parent, name).rec)
  {
    hide Owned, Sound, Linked, RemoveEntry, Entries, Discard, LookIn, DotDot, RemovesOnly, SameLinks,
         Tally, Lost, Alike, FindName, DirReady, DirKeeps, FilesStay;
    LinkedIsSound(v);
    var rec := DirLookup(v, parent, name).rec;
    var r, w := RemoveEntry(v, parent, name).v, RemoveFile(v, parent, name).v;
    RemoveFileSound(v, parent, name);
    LinkedIsFours(v, parent);
    RemoveLinks(v, parent, name);
    FileEntry(v, r, parent, rec.ino);
    var m := LinksDown(GetInode(r, rec.ino)).(dtime := 0);
    DiscardedFile(r, rec.ino, GetInode(r, rec.ino), m, m.links == 0, parent);
    forall j ensures LiveDir(r, j) <==> LiveDir(v, j) { SameLiveDir(v, r, parent, j); }
    forall j | LiveDir(v, j) ensures SameLinks(r, w, j) && (j != parent ==> SameLinks(v, w, j)) {
      FileDiscarded(r, rec.ino, GetInode(r, rec.ino), m, m.links == 0, j);
      AlikeLinks(r, w, j);
      if j != parent {
        KeptLinks(v, r, parent, j);
        SameLinksTwice(v, r, w, j);
      }
    }
    LostSame(v, r, w, parent, rec);
    forall j ensures LiveDir(w, j) <==> LiveDir(v, j) {
      SameLiveDir(v, r, parent, j);
      DiscardedFile(r, rec.ino, GetInode(r, rec.ino), m, m.links == 0, j);
    }
    KeptFiles(v, r, parent);
    FilesBesideDiscard(r, rec.ino, GetInode(r, rec.ino), m, m.links == 0);
    FilesStayTwice(v, r, w, 0, rec.ino);
  }

  lemma LostSame(v: Vol, a: Vol, w: Vol, ino: nat, r: Rec)
    requires v.geo.Sizes() && a.geo == v.geo && w.geo == v.geo && InodeNumber(v, ino) && InodeNumber(a, ino)
    requires Lost(v, a, ino, r) && SameLinks(a, w, ino)
    ensures Lost(v, w, ino, r)
  {
    hide Entries, Tally, DotDot;
  }

  /** A file removed: its entry was no child of its directory, and its inode no directory. */
  lemma RemoveFileLinked(v: Vol, parent: nat, name: seq<Byte>)
    requires LiveDir(v, parent) && DirReady(v, parent) && v.geo.Sizes() && NamesLive(v, parent, name) && Linked(v)
    requires RemovesOnly(v, parent, name) && RemoveFile(v, parent, name).ok
    ensures var w := RemoveFile(v, parent, name).v; w.geo == v.geo && Linked(w) && RootsStay(v, w)
  {
    hide Sound, Linked, RemoveFile, DirLookup, SameLinks, SameChildren, Lost, FilesStay, DirReady, NamesLive, RemovesOnly;
    RemoveFileEffect(v, parent, name);
    ListedIsSpelled(v, parent, name);
    var w, rec := RemoveFile(v, parent, name).v, DirLookup(v, parent, name).rec;
    WeightlessSame(v, w, parent, rec);
    forall j | LiveDir(v, j) ensures SameChildren(v, w, j) {
      if j != parent { SameIsSameChildren(v, w, j); }
    }
    LinkedSame(v, w);
  }

  /** The inode of the removed entry is another one than the directory, and still a file. */
  lemma FileEntry(v: Vol, r: Vol, parent: nat, ino: nat)
    requires InodeNumber(v, parent) && DirKeeps(v, r, parent) && LiveDir(v, parent) && Live(v, ino) && !IsDir(GetInode(v, ino))
    ensures Live(r, ino) && !IsDir(GetInode(r, ino)) && ino != parent
  {
    hide Owned, Untouched;
    KeptOthers(v, r, parent, ino);
  }

  /** Discarding a file leaves every directory as it was. */
  lemma FileDiscarded(v: Vol, ino: nat, n: Inode, m: Inode, drop: bool, j: nat)
    requires Sound(v) && v.geo.Sizes() && Live(v, ino) && n.block == GetInode(v, ino).block && LiveDir(v, j) && j != ino
    ensures var w := Discard(v, ino, n, m, drop);
            w.geo == v.geo && Live(w, j) && Alike(v, GetInode(v, j), w, GetInode(w, j)) && GetInode(w, j) == GetInode(v, j)
  {
    hide Sound, Alike, FreeAll;
    DiscardLinks(v, ino, n, m, j);
    FreeAllFrame(v, n);
    var x, w := Discard(v, ino, n, m, true), Discard(v, ino, n, m, drop);
    SameDataAlike(x, w, GetInode(x, j), GetInode(w, j));
    AlikeTwice(v, GetInode(v, j), x, GetInode(x, j), w, GetInode(w, j));
  }

  lemma DiscardedFile(v: Vol, ino: nat, n: Inode, m: Inode, drop: bool, j: nat)
    requires Live(v, ino) && !IsDir(GetInode(v, ino)) && m.mode == GetInode(v, ino).mode
    ensures Discard(v, ino, n, m, drop).geo == v.geo && (LiveDir(Discard(v, ino, n, m, drop), j) <==> LiveDir(v, j))
  {
    hide FreeAll;
    FreeAllFrame(v, n);
  }

  // ---------------------------------------------------------------- where runs start

  lemma FreshParts(v: Vol, root: nat, b: nat)
    requires Fresh(v, root, b)
    ensures v.geo.Sizes() && BlockSize(v.geo.blockSize) && Live(v, root) && GetInode(v, root) == NewDir(v, b)
    ensures 0 < b < 0x1_0000_0000 && 0 < root < 0x1_0000_0000 && Content(v, b) == FirstBlock(v.geo.blockSize, root, root)
    ensures forall j :: LiveDir(v, j) ==> j == root
  {
    hide FirstBlock, NewDir;
    DataInMap(v.geo, b);
  }

  /** Runs can start: with nothing but an empty root directory, its own parent, the bookkeeping is right. */
  lemma FreshLinked(v: Vol, root: nat, b: nat)
    requires Fresh(v, root, b)
    ensures Linked(v)
  {
    hide Sound, Entries, Tally, DotDot, FirstBlock, NewDir, Fresh, IsDir, Geometry.Sizes, Content, WellFormedDir, DirBytes,
         DirInOrder;
    FreshSound(v, root, b);
    FreshParts(v, root, b);
    NewDirShows(v, root, b, root);
    NewlyInOrder(v, root, root);
  }
}
