/** What names stand for over whole runs: every listed entry names a live inode of its kind, and no inode has two names. */
module NameRuns {
  import opened Bytes
  import opened InodeCodec
  import opened VolumeState
  import opened BlockMap
  import opened FileTheorems
  import opened Shrink
  import opened DirRecords
  import opened DirData
  import opened DirOps
  import opened DirRemoval
  import opened FsOps
  import opened FsSteps
  import opened FsRuns
  import opened DirTheorems
  import opened AppendTheorems
  import opened EntryListings
  import opened Links
  import opened LinkTheorems
  import opened RenameLinks
  import opened LinkRuns
  import opened FailedCalls

  // ---------------------------------------------------------------- the invariant

  /** Directory j lists inode d as a file at most once, and only if it is a live inode and no directory. */
  ghost predicate FileRight(v: Vol, j: nat, d: nat)
    requires v.geo.Sizes() && InodeNumber(v, j)
  {
    FileCount(v, j, d) <= 1 && (FileCount(v, j, d) == 1 ==> Live(v, d) && !IsDir(GetInode(v, d)))
  }

  /** No two directories list the same file. */
  ghost predicate FileOnce(v: Vol, j: nat, k: nat, d: nat)
    requires v.geo.Sizes() && InodeNumber(v, j) && InodeNumber(v, k)
  {
    j == k || FileCount(v, j, d) == 0 || FileCount(v, k, d) == 0
  }

  ghost predicate Filed(v: Vol)
    requires v.geo.Sizes()
  {
    && (forall j, d: nat :: LiveDir(v, j) ==> FileRight(v, j, d))
    && (forall j, k, d: nat :: LiveDir(v, j) && LiveDir(v, k) ==> FileOnce(v, j, k, d))
  }

  /** The bookkeeping of directories, and the same for files. */
  ghost predicate Named(v: Vol) {
    Linked(v) && v.geo.Sizes() && Filed(v)
  }

  lemma {:induction false} TallyOfTwo(l: seq<Rec>, a: nat, b: nat, s: Sort)
    requires a < b < |l|
    ensures Tally(l, s) >= Weight(l[a], s) + Weight(l[b], s)
  {
    if a == 0 {
      TallyAtLeast(l[1..], b - 1, s);
    } else {
      TallyOfTwo(l[1..], a - 1, b - 1, s);
    }
  }

  predicate Proper(r: Rec) {
    r.name != DOT && r.name != DOTDOT
  }

  /** Every entry but the dot names stands for a live inode, a directory exactly if it says so. */
  lemma NameStandsFor(v: Vol, j: nat, a: nat)
    requires Named(v) && LiveDir(v, j) && a < |Entries(v, GetInode(v, j))| && Proper(Entries(v, GetInode(v, j))[a])
    ensures var r := Entries(v, GetInode(v, j))[a];
            Live(v, r.ino) && (IsDir(GetInode(v, r.ino)) <==> r.kind == KIND_DIR)
            && (r.kind == KIND_DIR ==> DotDot(v, GetInode(v, r.ino)) == j)
  {
    hide Entries, DotDot, Sound, Tally, Geometry.Sizes, LinksRight, DotsRight, Housed;
    var l := Entries(v, GetInode(v, j));
    TallyAtLeast(l, a, Child(l[a].ino));
    TallyAtLeast(l, a, File(l[a].ino));
    assert DirInOrder(v, j);
    assert ListsRight(v, j, l[a].ino) && FileRight(v, j, l[a].ino);
  }

  /** Two entries that stand for the same inode are the same entry of the same directory. */
  lemma NamesDiffer(v: Vol, j: nat, a: nat, k: nat, b: nat)
    requires Named(v) && LiveDir(v, j) && a < |Entries(v, GetInode(v, j))| && Proper(Entries(v, GetInode(v, j))[a])
    requires LiveDir(v, k) && b < |Entries(v, GetInode(v, k))| && Proper(Entries(v, GetInode(v, k))[b])
    requires Entries(v, GetInode(v, j))[a].ino == Entries(v, GetInode(v, k))[b].ino
    ensures j == k && a == b
  {
    hide Entries, DotDot, Sound, Tally, Geometry.Sizes, LinksRight, DotsRight, Housed;
    var l, m := Entries(v, GetInode(v, j)), Entries(v, GetInode(v, k));
    var d := l[a].ino;
    NameStandsFor(v, j, a);
    NameStandsFor(v, k, b);
    TallyAtLeast(l, a, File(d));
    TallyAtLeast(m, b, File(d));
    assert DirInOrder(v, j);
    assert FileOnce(v, j, k, d) && ListsRight(v, j, d) && FileRight(v, j, d);
    if a < b && j == k {
      TallyOfTwo(l, a, b, Child(d));
      TallyOfTwo(l, a, b, File(d));
    } else if b < a && j == k {
      TallyOfTwo(l, b, a, Child(d));
      TallyOfTwo(l, b, a, File(d));
    }
  }

  // ---------------------------------------------------------------- what keeps it

  /** A file that came, went or moved: right as long as the inode is a new one, a gone one or the same one. */
  lemma FiledAfter(v: Vol, w: Vol, p: nat, q: nat, d: nat, but: nat)
    requires v.geo.Sizes() && w.geo == v.geo && Filed(v) && FilesMoved(v, w, p, q, d) && FilesStay(v, w, but)
    requires p != 0 ==> LiveDir(v, p)
    requires q != 0 ==> LiveDir(v, q) && LiveDir(w, q)
    requires p != 0 && q == 0 ==> !Live(v, d) && Live(w, d) && !IsDir(GetInode(w, d))
    requires but != 0 ==> p == 0 && q != 0 && but == d
    ensures Filed(w)
  {
    hide FileCount, Geometry.Sizes;
    forall j, x: nat | LiveDir(w, j) ensures FileRight(w, j, x) {
      if LiveDir(v, j) { assert FileRight(v, j, x); }
      if q != 0 {
        assert FileRight(v, q, x);
        if LiveDir(v, j) { assert FileOnce(v, j, q, x); }
      }
    }
    forall j, k, x: nat | LiveDir(w, j) && LiveDir(w, k) ensures FileOnce(w, j, k, x) {
      if LiveDir(v, j) && LiveDir(v, k) {
        assert FileOnce(v, j, k, x) && FileRight(v, j, x) && FileRight(v, k, x);
        if q != 0 { assert FileOnce(v, j, q, x) && FileOnce(v, k, q, x) && FileRight(v, q, x); }
      }
    }
  }

  lemma NamedParts(v: Vol)
    requires Named(v)
    ensures Linked(v) && Sound(v) && Owned(v) && v.geo.Sizes() && Shape(v) && Filed(v)
  {
    hide Linked, Filed;
    LinkedIsSound(v);
  }

  lemma SameNamesFiled(v: Vol, w: Vol)
    requires Sound(w) && SameListings(v, w) && Named(v)
    ensures w.geo == v.geo && v.geo.Sizes() && Named(w) && RootsStay(v, w)
  {
    hide Linked, Filed, SameLinks, FilesStay, FileCount, RootsStay;
    SameListingsLinked(v, w);
    forall j, x: nat | LiveDir(v, j) ensures FileCount(w, j, x) == FileCount(v, j, x) { SameCounts(v, w, j, x); }
    FiledAfter(v, w, 0, 0, 0, 0);
  }

  /** One file more that a directory lists. */
  lemma FileEnteredNamed(v: Vol, w: Vol, parent: nat, rec: Rec)
    requires FileEntered(v, w, parent, rec) && Spelled(rec) && Named(v)
    ensures w.geo == v.geo && v.geo.Sizes() && Named(w) && RootsStay(v, w)
  {
    hide Linked, Sound, SameLinks, Gained, FilesStay, Filed, FileCount, RootsStay;
    FileEnteredLinked(v, w, parent, rec);
    forall j, x: nat | LiveDir(v, j) ensures FileCount(w, j, x) == FileCount(v, j, x) + if j == parent && x == rec.ino then 1 else 0 {
      if j == parent { GainedCounts(v, w, j, rec, x); } else { SameCounts(v, w, j, x); }
    }
    FiledAfter(v, w, parent, 0, rec.ino, 0);
  }

  /** A new name for a directory, which an add changes in nothing else. */
  predicate NameIsNew(v: Vol, p: nat, name: seq<Byte>)
    requires v.geo.Sizes() && InodeNumber(v, p) && Nameable(name)
  {
    NulFree(name) && DirLookup(v, p, name) == Absent && AddsOnly(v, p, name)
  }

  /** A successful create_file keeps the names in order, and its own is found exactly when its record shows. */
  lemma CreateFileNamed(v: Vol, parent: nat, name: seq<Byte>)
    requires Parent(v, parent) && LiveDir(v, parent) && v.geo.Sizes() && Nameable(name) && NameIsNew(v, parent, name) && Named(v)
    requires CreateFile(v, parent, name).ok
    ensures var r := CreateFile(v, parent, name);
            r.v.geo == v.geo && Named(r.v) && RootsStay(v, r.v) && r.ino < 0x1_0000_0000 &&
            DirLookup(r.v, parent, name) == if Shows(v, parent, name) then Present(Rec(r.ino, name, KIND_FILE)) else Absent
  {
    hide Linked, Sound, CreateFile, DirLookup, SameListings, FileEntered, Parent, Filed, AddsOnly, Shows, RootsStay;
    NamedParts(v);
    CreateFileEffect(v, parent, name);
    FileIsFound(v, parent, name);
    var r := CreateFile(v, parent, name);
    if Shows(v, parent, name) {
      FileEnteredNamed(v, r.v, parent, Rec(r.ino, name, KIND_FILE));
    } else {
      SameNamesFiled(v, r.v);
    }
  }

  lemma FileIsFound(v: Vol, parent: nat, name: seq<Byte>)
    requires Parent(v, parent) && LiveDir(v, parent) && v.geo.Sizes() && Nameable(name) && NameIsNew(v, parent, name)
    requires CreateFile(v, parent, name).ok
    ensures var r := CreateFile(v, parent, name);
            r.v.geo == v.geo && r.ino < 0x1_0000_0000 &&
            DirLookup(r.v, parent, name) == if Shows(v, parent, name) then Present(Rec(r.ino, name, KIND_FILE)) else Absent
  {
    hide Sound, DirLookup, AddsOnly, Shows, AddEntry, LowestFreeInode, NewFile, Owned, DirSound, Alike;
    SoundSizes(v);
    NewInodeIsFree(v);
    var ino := LowestFreeInode(v);
    FileAdded(v, ino, parent);
    AddedBeside(v, ino);
    SameAddsOnly(v, AddInode(v, ino, NewFile()), parent, name);
    AddedIsFound(AddInode(v, ino, NewFile()), parent, name, ino, KIND_FILE);
  }

  lemma RemoveFileNamed(v: Vol, parent: nat, name: seq<Byte>)
    requires LiveDir(v, parent) && DirReady(v, parent) && v.geo.Sizes() && NamesLive(v, parent, name) && Named(v)
    requires RemovesOnly(v, parent, name) && RemoveFile(v, parent, name).ok
    ensures var w := RemoveFile(v, parent, name).v; w.geo == v.geo && Named(w) && RootsStay(v, w)
  {
    hide Linked, Sound, RemoveFile, DirLookup, SameLinks, Lost, FilesStay, DirReady, NamesLive, RemovesOnly,
         Filed, FileCount, RootsStay;
    NamedParts(v);
    RemoveFileLinked(v, parent, name);
    RemoveFileEffect(v, parent, name);
    var w, rec := RemoveFile(v, parent, name).v, DirLookup(v, parent, name).rec;
    forall j, x: nat | LiveDir(v, j) ensures FileCount(w, j, x) + (if j == parent && x == rec.ino then 1 else 0) == FileCount(v, j, x) {
      if j == parent { LostCounts(v, w, j, rec, x); } else { SameCounts(v, w, j, x); }
    }
    FiledAfter(v, w, 0, parent, rec.ino, rec.ino);
  }

  /**
   * A successful create_dir keeps the names in order, and the link counts, exactly when its record shows; otherwise the parent
   * counts a child that nobody finds.
   */
  lemma CreateDirNamed(v: Vol, parent: nat, name: seq<Byte>)
    requires Parent(v, parent) && LiveDir(v, parent) && v.geo.Sizes() && Nameable(name) && NameIsNew(v, parent, name) && Named(v)
    requires GetInode(v, parent).links < 0xFFFF && CreateDir(v, parent, name).ok
    ensures var r := CreateDir(v, parent, name);
            r.v.geo == v.geo && r.ino < 0x1_0000_0000 && (Shows(v, parent, name) ==> RootsStay(v, r.v)) &&
            (Named(r.v) <==> Shows(v, parent, name)) && (Linked(r.v) <==> Shows(v, parent, name)) &&
            DirLookup(r.v, parent, name) == if Shows(v, parent, name) then Present(Rec(r.ino, name, KIND_DIR)) else Absent
  {
    hide Linked, Filed, FilesMoved, FilesStay, CreateDir, Parent, DirLookup, Sound, AddsOnly, Shows, RootsStay, Changed;
    NamedParts(v);
    DirIsFound(v, parent, name);
    if Shows(v, parent, name) {
      CreateDirLinked(v, parent, name);
      FiledAfter(v, CreateDir(v, parent, name).v, 0, 0, 0, 0);
    } else {
      HiddenMiscounts(v, parent, name);
    }
  }

  /** What a successful create_dir makes of its parent's listing. */
  lemma DirIsFound(v: Vol, parent: nat, name: seq<Byte>)
    requires Parent(v, parent) && LiveDir(v, parent) && v.geo.Sizes() && Nameable(name) && NameIsNew(v, parent, name)
    requires GetInode(v, parent).links < 0xFFFF && CreateDir(v, parent, name).ok
    ensures var r := CreateDir(v, parent, name);
            r.v.geo == v.geo && r.ino < 0x1_0000_0000 &&
            DirLookup(r.v, parent, name) == if Shows(v, parent, name) then Present(Rec(r.ino, name, KIND_DIR)) else Absent
  {
    hide Sound, DirLookup, AddsOnly, Shows, AddEntry, LowestFreeInode, LowestFree, Owned, DirSound, Alike, AddDir, SameLinks, DotDot,
         Entries, Tally, NewlyMade;
    SoundSizes(v);
    NewInodeIsFree(v);
    LowestFreeIsData(v);
    InodeIsWord(v, parent);
    var ino, b := LowestFreeInode(v), LowestFree(v);
    NewDirEffect(v, ino, b, parent);
    var u := WithNewDir(v, ino, b, parent);
    SoundReady(u, parent);
    SameAddsOnly(v, u, parent, name);
    AddedIsFound(u, parent, name, ino, KIND_DIR);
  }

  /** A directory made where nobody comes by is counted by its parent all the same. */
  lemma HiddenMiscounts(v: Vol, parent: nat, name: seq<Byte>)
    requires Parent(v, parent) && LiveDir(v, parent) && v.geo.Sizes() && Nameable(name) && NameIsNew(v, parent, name) && Linked(v)
    requires GetInode(v, parent).links < 0xFFFF && CreateDir(v, parent, name).ok && !Shows(v, parent, name)
    ensures !Linked(CreateDir(v, parent, name).v)
  {
    hide Sound, DirLookup, AddsOnly, Shows, AddEntry, LowestFreeInode, LowestFree, Owned, DirSound, Alike, AddDir, DotDot, Entries, Tally,
         NewlyMade, DotsRight, ListsRight, Housed;
    LinkedBasics(v, parent, name);
    NewInodeIsFree(v);
    LowestFreeIsData(v);
    InodeIsWord(v, parent);
    var ino, b := LowestFreeInode(v), LowestFree(v);
    NewDirEffect(v, ino, b, parent);
    var u := WithNewDir(v, ino, b, parent);
    SoundReady(u, parent);
    SameAddsOnly(v, u, parent, name);
    AddLinks(u, parent, name, ino, KIND_DIR);
    var w := CreateDir(v, parent, name).v;
    assert DirInOrder(v, parent) && SameLinks(u, w, parent);
    assert !LinksRight(w, parent);
    assert LiveDir(w, parent);
  }

  lemma RemoveDirNamed(v: Vol, parent: nat, name: seq<Byte>)
    requires LiveDir(v, parent) && DirReady(v, parent) && v.geo.Sizes() && Named(v)
    requires RemovesOnly(v, parent, name) && RemoveDir(v, parent, name).ok
    ensures var w := RemoveDir(v, parent, name).v; w.geo == v.geo && Named(w) && RootsStay(v, w)
  {
    hide Linked, Filed, RootsStay, FilesMoved, FilesStay, RemoveDir, DirReady, DirLookup, Sound, RemovesOnly;
    RemoveDirLinked(v, parent, name);
    FiledAfter(v, RemoveDir(v, parent, name).v, 0, 0, 0, 0);
  }

  lemma RenameNamed(v: Vol, op: nat, oldName: seq<Byte>, np: nat, newName: seq<Byte>)
    requires Parent(v, op) && Parent(v, np) && v.geo.Sizes() && NamesInode(v, op, oldName)
    requires Movable(v, op, oldName, np, newName) && NulFree(newName) && Named(v)
    requires var rec := DirLookup(v, op, oldName).rec;
             rec.kind == KIND_DIR && op != np ==>
               WellFormedDir(v, rec.ino) && rec.ino != op && rec.ino != np && GetInode(v, np).links < 0xFFFF
    requires Rename(v, op, oldName, np, newName).ok
    ensures var w := Rename(v, op, oldName, np, newName).v; w.geo == v.geo && Named(w) && RootsStay(v, w)
  {
    hide Linked, Filed, RootsStay, FilesMoved, FilesStay, Rename, WellFormedDir, DirReady, DirLookup, Sound, NoTombstoneFirst, NamesInode,
         HasRoom, Parent;
    RenameLinked(v, op, oldName, np, newName);
    MovableParts(v, op, oldName, np, newName);
    var rec, w := DirLookup(v, op, oldName).rec, Rename(v, op, oldName, np, newName).v;
    if op != np && rec.kind != KIND_DIR {
      FiledAfter(v, w, np, op, rec.ino, 0);
    } else {
      FiledAfter(v, w, 0, 0, 0, 0);
    }
  }

  // ---------------------------------------------------------------- runs

  /** A directory that changes parents is whole and neither of the two. */
  ghost predicate MovesAside(v: Vol, p: nat, name: seq<Byte>, np: nat)
    requires v.geo.Sizes() && InodeNumber(v, p) && InodeNumber(v, np) && DirLookup(v, p, name) != Absent
  {
    var rec := DirLookup(v, p, name).rec;
    rec.kind == KIND_DIR && p != np ==>
      WellFormedDir(v, rec.ino) && rec.ino != p && rec.ino != np && GetInode(v, np).links < 0xFFFF
  }

  /**
   * What an orderly caller sees to. Successful adds and removals change the listing by their record only, and the record of a
   * new directory shows; a rename that links its new name takes it from one whole directory to another one with room, moves
   * no dot name, and no directory into itself. Failing calls are orderly, but for a create_dir that fails with its link
   * counted and a rename that cannot unlink its old name.
   */
  ghost predicate Orderly(v: Vol, op: Op)
    requires Sound(v) && Enabled(v, op)
  {
    match op
    case OpCreateFile(p, name) => !CreateFile(v, p, name).ok || NameIsNew(v, p, name)
    case OpCreateDir(p, name) =>
      LowestFreeInode(v) == 0 || LowestFree(v) == 0 ||
      (CreateDir(v, p, name).ok && NameIsNew(v, p, name) && Shows(v, p, name) && GetInode(v, p).links < 0xFFFF)
    case OpWrite(_, _, _) => true
    case OpTruncate(_, _) => true
    case OpRemoveFile(p, name) => (SoundReady(v, p); !RemoveFile(v, p, name).ok || RemovesOnly(v, p, name))
    case OpRemoveDir(p, name) => (SoundReady(v, p); !RemoveDir(v, p, name).ok || RemovesOnly(v, p, name))
    case OpRename(p, name, np, newName) =>
      NothingLinked(v, p, name, np, newName) ||
      (NulFree(newName) && name != DOT && name != DOTDOT && Movable(v, p, name, np, newName) && MovesAside(v, p, name, np))
  }

  /** In a volume with its names in order every call's name stands for a live inode of its kind, if for anything. */
  lemma NamedIsEnabled(v: Vol, op: Op)
    requires Sound(v) && Callable(v, op) && Named(v)
    ensures Enabled(v, op)
  {
    hide Linked, Sound, Filed, Entries, LookIn, NamesLive, NamesInode;
    match op
    case OpRemoveFile(p, name) => AnyNameIsLive(v, p, name);
    case OpRemoveDir(p, name) => AnyNameIsLive(v, p, name);
    case OpRename(p, name, np, newName) => AnyNameIsLive(v, p, name);
    case _ =>
  }

  /** A dot name's only record is the one that counts as its directory's. */
  lemma OnlyDot(l: seq<Rec>, a: nat, up: bool, d: nat)
    requires a < |l| && IsDot(l[a], up) && Tally(l, Dot(up)) == 1 && Tally(l, DotTo(up, d)) == 1
    ensures l[a].ino == d && l[a].kind == KIND_DIR
  {
    var m := l[..a] + l[a + 1..];
    TallyRemoved(l, m, a, Dot(up));
    TallyRemoved(l, m, a, DotTo(up, d));
    DotToAtMost(m, up, d);
  }

  /** The dot names stand for the directory itself and its parent, which is a live directory. */
  lemma DotStandsFor(v: Vol, j: nat, a: nat, up: bool)
    requires v.geo.Sizes() && LiveDir(v, j) && a < |Entries(v, GetInode(v, j))| && IsDot(Entries(v, GetInode(v, j))[a], up) && Linked(v)
    ensures var r := Entries(v, GetInode(v, j))[a];
            r.ino == (if up then DotDot(v, GetInode(v, j)) else j) && r.kind == KIND_DIR && LiveDir(v, r.ino)
  {
    hide Entries, DotDot, Sound, Tally, Geometry.Sizes, LinksRight, ListsRight;
    assert DirInOrder(v, j);
    OnlyDot(Entries(v, GetInode(v, j)), a, up, if up then DotDot(v, GetInode(v, j)) else j);
  }

  lemma AnyNameIsLive(v: Vol, p: nat, name: seq<Byte>)
    requires Live(v, p) && Named(v)
    ensures NamesLive(v, p, name) && NamesInode(v, p, name)
  {
    hide Linked, Sound, Filed, Entries, FindName, Geometry.Sizes, DotDot;
    match DirLookup(v, p, name)
    case Absent =>
    case Present(rec) =>
      var l, a := Entries(v, GetInode(v, p)), FindName(Entries(v, GetInode(v, p)), name);
      FoundAt(l, name);
      if Proper(l[a]) { NameStandsFor(v, p, a); } else { DotStandsFor(v, p, a, name == DOTDOT); }
  }

  lemma CreatedInDir(v: Vol, p: nat, name: seq<Byte>)
    requires Parent(v, p) && Nameable(name) && CreateFile(v, p, name).ok
    ensures LiveDir(v, p)
  {
    hide Sound, LowestFreeInode, NewFile;
    SoundSizes(v);
    NewInodeIsFree(v);
    FileAdded(v, LowestFreeInode(v), p);
  }

  lemma RemovedFromDir(v: Vol, p: nat, name: seq<Byte>)
    requires DirReady(v, p) && (RemoveFile(v, p, name).ok || RemoveDir(v, p, name).ok)
    ensures LiveDir(v, p)
  {
    hide Owned, BlocksTiled, RemoveEntry, Entries, LookIn, Discard, OnlyDots;
  }

  lemma MadeInDir(v: Vol, p: nat, name: seq<Byte>)
    requires Parent(v, p) && Nameable(name) && CreateDir(v, p, name).ok
    ensures LiveDir(v, p)
  {
    hide Sound, LowestFreeInode, LowestFree, AddDir;
    SoundSizes(v);
    NewInodeIsFree(v);
    LowestFreeIsData(v);
    InodeIsWord(v, p);
    var ino, b := LowestFreeInode(v), LowestFree(v);
    DirLinked(v, ino, b, p);
    DirAdded(v, ino, b, p);
  }

  lemma CreateDirStep(v: Vol, p: nat, name: seq<Byte>)
    requires Parent(v, p) && Nameable(name) && Orderly(v, OpCreateDir(p, name)) && Named(v)
    ensures var w := CreateDir(v, p, name).v; v.geo.Sizes() && w.geo == v.geo && Named(w) && RootsStay(v, w)
  {
    hide Sound, Linked, Filed, Shows, RootsStay, LowestFree, LowestFreeInode, NameIsNew, DirLookup, SameListings;
    SoundSizes(v);
    if LowestFreeInode(v) == 0 || LowestFree(v) == 0 {
      SameListingsItself(v);
      SameNamesFiled(v, v);
    } else {
      MadeInDir(v, p, name);
      hide CreateDir;
      CreateDirNamed(v, p, name);
    }
  }

  lemma RenameStep(v: Vol, p: nat, name: seq<Byte>, np: nat, newName: seq<Byte>)
    requires Sound(v) && Enabled(v, OpRename(p, name, np, newName)) && Orderly(v, OpRename(p, name, np, newName)) && Named(v)
    ensures var w := Rename(v, p, name, np, newName).v; v.geo.Sizes() && w.geo == v.geo && Named(w) && RootsStay(v, w)
  {
    hide Sound, Linked, Filed, RootsStay, Rename, Parent, NamesInode, Movable, SameListings, NothingLinked, DirLookup;
    RenameSound(v, p, name, np, newName);
    if NothingLinked(v, p, name, np, newName) {
      NothingLinkedSame(v, p, name, np, newName);
      SameNamesFiled(v, Rename(v, p, name, np, newName).v);
    } else {
      LinkedSucceeds(v, p, name, np, newName);
      RenameNamed(v, p, name, np, newName);
    }
  }

  /** A rename that gets past its checks and links its new name succeeds. */
  lemma LinkedSucceeds(v: Vol, p: nat, name: seq<Byte>, np: nat, newName: seq<Byte>)
    requires Parent(v, p) && Parent(v, np) && v.geo.Sizes() && NamesInode(v, p, name) && name != DOT && name != DOTDOT
    requires Movable(v, p, name, np, newName) && !NothingLinked(v, p, name, np, newName)
    ensures Rename(v, p, name, np, newName).ok
  {
    hide Sound, Rename, AddEntry, Entries, LookIn, DirReady, Parent, NoTombstoneFirst, WellFormedDir, HasRoom, BlockCount;
    RenameOutcome(v, p, name, np, newName);
  }

  lemma StepNamed(v: Vol, op: Op)
    requires Sound(v) && Enabled(v, op) && Orderly(v, op) && Named(v)
    ensures var w := Step(v, op); v.geo.Sizes() && w.geo == v.geo && Named(w) && RootsStay(v, w)
  {
    hide Sound, Linked, Filed, Parent, CreateFile, CreateDir, NodeWrite, Truncate, RemoveFile, RemoveDir, Rename, NamesLive, RootsStay,
         NamesInode, RemovesOnly, Movable, Entries, LookIn, DirReady, SameListings, NameIsNew, Shows, LowestFree,
         LowestFreeInode, NothingLinked, DirLookup;
    SoundSizes(v);
    StepSound(v, op);
    SameListingsItself(v);
    match op
    case OpCreateFile(p, name) =>
      if CreateFile(v, p, name).ok { CreateFileNamed(v, p, name) by { CreatedInDir(v, p, name); } }
      else { FailedCreateFileSame(v, p, name); SameNamesFiled(v, CreateFile(v, p, name).v); }
    case OpCreateDir(p, name) => CreateDirStep(v, p, name);
    case OpWrite(ino, offset, buf) => WriteLinked(v, ino, offset, buf); SameNamesFiled(v, NodeWrite(v, ino, offset, buf).v);
    case OpTruncate(ino, size) => TruncateLinked(v, ino, size); SameNamesFiled(v, Truncate(v, ino, size).v);
    case OpRemoveFile(p, name) =>
      FailedRemovalSame(v, p, name);
      if RemoveFile(v, p, name).ok { RemovedFromDir(v, p, name); RemoveFileNamed(v, p, name); } else { SameNamesFiled(v, v); }
    case OpRemoveDir(p, name) =>
      FailedRemovalSame(v, p, name);
      if RemoveDir(v, p, name).ok { RemovedFromDir(v, p, name); RemoveDirNamed(v, p, name); } else { SameNamesFiled(v, v); }
    case OpRename(p, name, np, newName) => RenameStep(v, p, name, np, newName);
  }

  /** Runs can start: the empty root lists its dot names only. */
  lemma FreshNamed(v: Vol, root: nat, b: nat)
    requires Fresh(v, root, b)
    ensures v.geo.Sizes() && Named(v) && IsRoot(v, root)
  {
    hide Sound, Entries, Tally, DotDot, FirstBlock, NewDir, Fresh, IsDir, Geometry.Sizes, Content, WellFormedDir, DirBytes, Linked;
    FreshLinked(v, root, b);
    FreshSound(v, root, b);
    FreshParts(v, root, b);
    NewDirShows(v, root, b, root);
    forall j, d: nat | LiveDir(v, j) ensures FileRight(v, j, d) { NewlyFileless(v, root, root, d); }
    forall j, k, d: nat | LiveDir(v, j) && LiveDir(v, k) ensures FileOnce(v, j, k, d) {}
  }

  /** One call of an orderly history; only volumes with their names in order have a next state. */
  ghost predicate OrderlySteps(v: Vol, op: Op, w: Vol) {
    Named(v) ==> (
      NamedParts(v);
      Callable(v, op) && (NamedIsEnabled(v, op); Orderly(v, op) && w == Step(v, op)))
  }

  ghost predicate OrderlyRun(vs: seq<Vol>, ops: seq<Op>) {
    && |vs| == |ops| + 1 && Named(vs[0])
    && forall i :: 0 <= i < |ops| ==> OrderlySteps(vs[i], ops[i], vs[i + 1])
  }

  /** The root: a live directory that is its own parent. */
  predicate IsRoot(v: Vol, root: nat)
    requires v.geo.Sizes()
  {
    LiveDir(v, root) && DotDot(v, GetInode(v, root)) == root
  }

  lemma {:induction false} RunNamed(vs: seq<Vol>, ops: seq<Op>, k: nat)
    requires OrderlyRun(vs, ops) && k <= |ops|
    ensures Named(vs[k])
  {
    hide Named, Sound, Enabled, Step, Orderly, Callable, RootsStay;
    if k > 0 {
      RunNamed(vs, ops, k - 1);
      assert OrderlySteps(vs[k - 1], ops[k - 1], vs[k]);
      NamedParts(vs[k - 1]);
      NamedIsEnabled(vs[k - 1], ops[k - 1]);
      StepNamed(vs[k - 1], ops[k - 1]);
    }
  }

  /** The root stays the root. */
  lemma {:induction false} RunRooted(vs: seq<Vol>, ops: seq<Op>, k: nat, root: nat)
    requires OrderlyRun(vs, ops) && k <= |ops| && vs[0].geo.Sizes() && IsRoot(vs[0], root)
    ensures vs[k].geo.Sizes() && IsRoot(vs[k], root)
  {
    hide Named, Sound, Enabled, Step, Orderly, Callable, DotDot;
    if k > 0 {
      RunRooted(vs, ops, k - 1, root);
      RunNamed(vs, ops, k - 1);
      assert OrderlySteps(vs[k - 1], ops[k - 1], vs[k]);
      NamedParts(vs[k - 1]);
      NamedIsEnabled(vs[k - 1], ops[k - 1]);
      StepNamed(vs[k - 1], ops[k - 1]);
    }
  }

  /** An orderly history is a history: whole-run ownership holds for it with nothing assumed about names. */
  lemma OrderlyIsRun(vs: seq<Vol>, ops: seq<Op>)
    requires OrderlyRun(vs, ops)
    ensures Run(vs, ops)
  {
    hide Named, Sound, Enabled, Step, Orderly, Callable;
    NamedParts(vs[0]);
    forall i | 0 <= i < |ops| ensures Steps(vs[i], ops[i], vs[i + 1]) {
      RunNamed(vs, ops, i);
      assert OrderlySteps(vs[i], ops[i], vs[i + 1]);
      NamedParts(vs[i]);
      NamedIsEnabled(vs[i], ops[i]);
    }
  }

  /**
   * In every state of an orderly run, every directory's link count is two more than the number of directories it lists,
   * no directory is listed twice by it, and each one it lists is live and names it as parent at offset 12.
   */
  lemma RunLinked(vs: seq<Vol>, ops: seq<Op>, k: nat)
    requires OrderlyRun(vs, ops) && k <= |ops|
    ensures Linked(vs[k])
  {
    hide Linked, Filed, OrderlySteps;
    RunNamed(vs, ops, k);
  }

  /**
   * In every state of an orderly run, every entry but the dot names, of whatever directory, stands for a live inode, a
   * directory exactly if the entry says so, and two entries that stand for the same inode are the same entry.
   */
  lemma RunNames(vs: seq<Vol>, ops: seq<Op>, k: nat, i: nat, a: nat, j: nat, b: nat)
    requires OrderlyRun(vs, ops) && k <= |ops| && vs[k].geo.Sizes() && LiveDir(vs[k], i) && LiveDir(vs[k], j)
    requires a < |Entries(vs[k], GetInode(vs[k], i))| && Proper(Entries(vs[k], GetInode(vs[k], i))[a])
    requires b < |Entries(vs[k], GetInode(vs[k], j))| && Proper(Entries(vs[k], GetInode(vs[k], j))[b])
    ensures var r, s := Entries(vs[k], GetInode(vs[k], i))[a], Entries(vs[k], GetInode(vs[k], j))[b];
            Live(vs[k], r.ino) && (IsDir(GetInode(vs[k], r.ino)) <==> r.kind == KIND_DIR) &&
            (r.ino == s.ino ==> i == j && a == b)
  {
    hide Named, Entries, OrderlySteps, Geometry.Sizes;
    RunNamed(vs, ops, k);
    NameStandsFor(vs[k], i, a);
    if Entries(vs[k], GetInode(vs[k], i))[a].ino == Entries(vs[k], GetInode(vs[k], j))[b].ino {
      NamesDiffer(vs[k], i, a, j, b);
    }
  }
}
