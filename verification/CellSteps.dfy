/** Calls on a directory followed record by record: what a file's creation and removal do to its cells. */
module CellSteps {
  import opened Bytes
  import opened InodeCodec
  import opened VolumeState
  import opened BlockMap
  import opened FileMap
  import opened FileData
  import opened FileTheorems
  import opened Shrink
  import opened DirRecords
  import opened DirData
  import opened DirOps
  import opened DirRemoval
  import opened FsOps
  import opened FsSteps
  import opened DirTheorems
  import opened AppendTheorems
  import opened DirCells
  import opened Links
  import opened LinkTheorems
  import opened LinkRuns

  /** Directory ino is well formed, and its records are these cells. */
  ghost predicate Shaped(v: Vol, ino: nat, cells: seq<Cell>) {
    && Sound(v) && WellFormedDir(v, ino) && v.geo.Sizes() && InodeNumber(v, ino)
    && BlockCount(v, GetInode(v, ino)) < DIRECT
    && Laid(DirBytes(v, GetInode(v, ino)), 0, cells)
  }

  lemma ShapedBasics(v: Vol, ino: nat, cells: seq<Cell>)
    requires Shaped(v, ino, cells)
    ensures Sound(v) && Shape(v) && WellFormedDir(v, ino) && DirReady(v, ino) && LiveDir(v, ino) && Parent(v, ino)
    ensures BlockSize(v.geo.blockSize) && Editing(v, ino, GetInode(v, ino)) && HasRoom(v, ino)
    ensures |DirBytes(v, GetInode(v, ino))| == GetInode(v, ino).size && Aligned(GetInode(v, ino).size, v.geo.blockSize)
    ensures GetInode(v, ino).size <= DIRECT * 2048
  {
    hide Owned, Lookup, DirSound, Laid, BlocksTiled, DirBytes;
    SoundSizes(v);
    SoundOwned(v);
    WellFormedBasics(v, ino);
    SelfPut(v, ino);
    WholeDir(v, GetInode(v, ino));
    SmallDir(GetInode(v, ino).size, v.geo.blockSize);
  }

  lemma SmallDir(size: nat, bs: nat)
    requires BlockSize(bs) && size / bs < DIRECT
    ensures size <= DIRECT * 2048
  {
    if bs == 1024 {} else {}
  }

  /** What the searches find in a shaped directory. */
  lemma ShapedReads(v: Vol, ino: nat, cells: seq<Cell>, name: seq<Byte>)
    requires Shaped(v, ino, cells) && Nameable(name)
    ensures Entries(v, GetInode(v, ino)) == CellList(cells) && DirLookup(v, ino, name) == LookIn(CellList(cells), name)
    ensures FitOf(v, ino, name) == CellFit(cells, GetInode(v, ino).size, Padded(|name|), 0)
    ensures FindPos(DirBytes(v, GetInode(v, ino)), GetInode(v, ino).size, name, 0, -1) ==
              CellFind(cells, GetInode(v, ino).size, name, 0, -1)
  {
    var n := GetInode(v, ino);
    hide Owned, Lookup, DirSound, BlocksTiled, DirBytes, Laid, Listing, FindPos, FirstFit, CellFit, CellFind, CellList, LookIn;
    ShapedBasics(v, ino, cells);
    LaidLists(DirBytes(v, n), 0, cells);
    LaidFits(DirBytes(v, n), 0, cells, n.size, Padded(|name|));
    LaidFinds(DirBytes(v, n), 0, cells, n.size, name, -1);
    WholeDir(v, n);
  }

  /** Looking alike keeps the shape. */
  lemma ShapedAlike(v: Vol, w: Vol, ino: nat, cells: seq<Cell>)
    requires Shaped(v, ino, cells) && Sound(w) && w.geo == v.geo && LiveDir(w, ino)
    requires Alike(v, GetInode(v, ino), w, GetInode(w, ino))
    ensures Shaped(w, ino, cells)
  {
    hide Alike, WellFormedDir, Laid, DirBytes;
    AlikeDirs(v, GetInode(v, ino), w, GetInode(w, ino));
    AlikeMode(v, GetInode(v, ino), w, GetInode(w, ino));
    AlikeWellFormed(v, w, ino);
  }

  /** A file's inode added beside the directory, as create_file does first. */
  lemma ShapedBeside(v: Vol, ino: nat, cells: seq<Cell>, new_: nat)
    requires Shaped(v, ino, cells) && InodeNumber(v, new_) && new_ !in v.live
    ensures var u := AddInode(v, new_, NewFile());
            Shaped(u, ino, cells) && Parent(u, ino) && GetInode(u, ino) == GetInode(v, ino) && ino != new_
  {
    hide Owned, Sound, WellFormedDir, Laid, Alike, DirBytes, Entries;
    ShapedBasics(v, ino, cells);
    FileAdded(v, new_, ino);
    var u := AddInode(v, new_, NewFile());
    SameDataAlike(v, u, GetInode(v, ino), GetInode(u, ino));
    ShapedAlike(v, u, ino, cells);
  }

  /** An entry put into the room of a cell. */
  lemma AddInSlot(v: Vol, ino: nat, cells: seq<Cell>, name: seq<Byte>, child: Word32, kind: Byte, p: nat)
    requires Shaped(v, ino, cells) && Nameable(name) && child != 0
    requires CellFit(cells, GetInode(v, ino).size, Padded(|name|), 0) == Slot(p) && LiveCellAt(cells, 0, p)
    ensures DirReady(v, ino) && BlockCount(v, GetInode(v, ino)) < DIRECT + TABLE_BUFFER
    ensures var r := AddEntry(v, ino, name, child, kind);
            r.ok && Shaped(r.v, ino, SplitCells(cells, 0, p, child, name, kind)) && r.v.inodes == v.inodes && r.v.used == v.used
            && r.v.live == v.live && r.v.geo == v.geo
  {
    hide Owned, Lookup, DirSound, BlocksTiled, DirBytes, Laid, Listing, FindPos, CellFit, CellFind, CellList, LookIn, Split,
         Untouched, Tiled, RecLen, Slack, Visits, Base, LiveAt, Before, SplitCells, LiveCellAt, ReadEnd;
    ShapedBasics(v, ino, cells);
    ShapedReads(v, ino, cells, name);
    var n := GetInode(v, ino);
    SlotWritten(v, ino, name, child, kind, p);
    AddBySplitInserts(v, ino, name, child, kind, p);
    AddSound(v, ino, name, child, kind);
    SplitLaid(DirBytes(v, n), 0, cells, p, child, name, kind);
  }

  /** Twelve direct blocks, so an append with a free block at hand succeeds. */
  lemma AppendSucceeds(v: Vol, ino: nat, end: nat, name: seq<Byte>, child: Word32, kind: Byte)
    requires Owned(v) && Live(v, ino) && Nameable(name) && v.geo.Sizes() && InodeNumber(v, ino)
    requires BlockCount(v, GetInode(v, ino)) < DIRECT && LowestFree(v) != 0
    ensures var r := Append(v, ino, end, name, child, kind);
            r.ok && r.v.used == v.used + {LowestFree(v)} && r.v.live == v.live && |r.v.inodes| == |v.inodes|
            && r.v.geo == v.geo && forall i :: InodeNumber(v, i) && i != ino ==> GetInode(r.v, i) == GetInode(v, i)
  {
    hide Allocated, Exclusive, Chained, Geometry.MetaReserved, Geometry.MetaApart, Geometry.Totals, MetaUsed, BlocksSized,
         FreshBlock, LowestFree, Untouched, Unowned, EnsureTable, Lookup;
    LowestFreeIsData(v);
    FilledOwned(v, LowestFree(v), FreshBlock(v.geo.blockSize, child, name, kind));
  }

  /** An entry put into a block of its own. */
  lemma AddAtEnd(v: Vol, ino: nat, cells: seq<Cell>, name: seq<Byte>, child: Word32, kind: Byte)
    requires Shaped(v, ino, cells) && Nameable(name) && child != 0
    requires CellFit(cells, GetInode(v, ino).size, Padded(|name|), 0) == AtEnd(GetInode(v, ino).size)
    requires LowestFree(v) != 0 && BlockCount(v, GetInode(v, ino)) + 1 < DIRECT
    ensures DirReady(v, ino) && BlockCount(v, GetInode(v, ino)) < DIRECT + TABLE_BUFFER
    ensures var r := AddEntry(v, ino, name, child, kind);
            r.ok && Shaped(r.v, ino, cells + [Cell(child, v.geo.blockSize, name, kind)])
            && r.v.live == v.live && r.v.geo == v.geo && r.v.used == v.used + {LowestFree(v)} && |r.v.inodes| == |v.inodes|
            && GetInode(r.v, ino).size == GetInode(v, ino).size + v.geo.blockSize
            && forall i :: InodeNumber(v, i) && i != ino ==> GetInode(r.v, i) == GetInode(v, i)
  {
    hide Owned, Lookup, DirSound, BlocksTiled, DirBytes, Laid, Listing, FindPos, CellFit, CellFind, CellList, LookIn, Append,
         Untouched, Tiled, RecLen, ReadEnd, FreshBlock, LowestFree, Extended, RoundUp, Entries;
    ShapedBasics(v, ino, cells);
    ShapedReads(v, ino, cells, name);
    var n, bs := GetInode(v, ino), v.geo.blockSize;
    SoundOwned(v);
    AddEndKeeps(v, ino, name, child, kind, n.size);
    RoundUpAligned(n.size, bs);
    AppendSucceeds(v, ino, n.size, name, child, kind);
    AddByAppendInserts(v, ino, name, child, kind, n.size);
    AddSound(v, ino, name, child, kind);
    var r, c := AddEntry(v, ino, name, child, kind), FreshBlock(bs, child, name, kind);
    AppendedBytes(v, n, r.v, GetInode(r.v, ino), LowestFree(v), c);
    AppendLaid(DirBytes(v, n), 0, cells, bs, child, name, kind);
    NextCount(n.blocks, SectorsPerBlock(v), n.size, bs);
    OneBlockMore(n.size, bs);
  }

  lemma OneBlockMore(size: nat, bs: nat)
    requires BlockSize(bs)
    ensures (size + bs) / bs == size / bs + 1
  {}

  // ---------------------------------------------------------------- files

  /** What the creation of a file in directory ino changes: a new live inode, and the directory's cells. */
  ghost predicate FileMade(v: Vol, r: Made, ino: nat, cells: seq<Cell>)
    requires Shape(v)
  {
    var file := LowestFreeInode(v);
    && r.ok && r.ino == file && r.v.geo == v.geo && r.v.live == v.live + {file} && |r.v.inodes| == |v.inodes|
    && InodeNumber(r.v, file) && file !in v.live && GetInode(r.v, file) == NewFile() && Shaped(r.v, ino, cells)
    && forall i :: InodeNumber(v, i) && i != ino && i != file ==> GetInode(r.v, i) == GetInode(v, i)
  }

  lemma CreateInSlot(v: Vol, ino: nat, cells: seq<Cell>, name: seq<Byte>, p: nat)
    requires Shaped(v, ino, cells) && Parent(v, ino) && Nameable(name) && Shape(v) && LowestFreeInode(v) != 0
    requires CellFit(cells, GetInode(v, ino).size, Padded(|name|), 0) == Slot(p) && LiveCellAt(cells, 0, p)
    ensures LowestFreeInode(v) < 0x1_0000_0000
    ensures var r := CreateFile(v, ino, name);
            FileMade(v, r, ino, SplitCells(cells, 0, p, LowestFreeInode(v), name, KIND_FILE))
            && r.v.used == v.used && GetInode(r.v, ino) == GetInode(v, ino)
  {
    hide Owned, DirSound, CellFit, AddEntry, Shaped, Sound, LowestFreeInode, SplitCells, LiveCellAt;
    NewInodeIsFree(v);
    var file := LowestFreeInode(v);
    ShapedBeside(v, ino, cells, file);
    AddInSlot(AddInode(v, file, NewFile()), ino, cells, name, file, KIND_FILE, p);
  }

  lemma CreateAtEnd(v: Vol, ino: nat, cells: seq<Cell>, name: seq<Byte>)
    requires Shaped(v, ino, cells) && Parent(v, ino) && Nameable(name) && Shape(v) && LowestFreeInode(v) != 0
    requires CellFit(cells, GetInode(v, ino).size, Padded(|name|), 0) == AtEnd(GetInode(v, ino).size)
    requires LowestFree(v) != 0 && BlockCount(v, GetInode(v, ino)) + 1 < DIRECT
    ensures LowestFreeInode(v) < 0x1_0000_0000
    ensures var r := CreateFile(v, ino, name);
            FileMade(v, r, ino, cells + [Cell(LowestFreeInode(v), v.geo.blockSize, name, KIND_FILE)])
            && r.v.used == v.used + {LowestFree(v)} && GetInode(r.v, ino).size == GetInode(v, ino).size + v.geo.blockSize
  {
    hide Owned, DirSound, CellFit, AddEntry, Shaped, Sound, LowestFreeInode;
    NewInodeIsFree(v);
    var file := LowestFreeInode(v);
    ShapedBeside(v, ino, cells, file);
    var u := AddInode(v, file, NewFile());
    AddAtEnd(u, ino, cells, name, file, KIND_FILE);
  }

  /** A record that begins a block is marked deleted where it stands. */
  lemma EntryMarked(v: Vol, ino: nat, cells: seq<Cell>, name: seq<Byte>, p: nat, prev: int)
    requires Shaped(v, ino, cells) && Nameable(name) && name != DOT && name != DOTDOT
    requires CellFind(cells, GetInode(v, ino).size, name, 0, -1) == At(p, prev) && LookIn(CellList(cells), name) != Absent
    requires prev < 0 || prev / v.geo.blockSize != p / v.geo.blockSize
    requires LiveCellAt(cells, 0, p) && FollowedAt(cells, 0, p)
    ensures DirReady(v, ino)
    ensures var r := RemoveEntry(v, ino, name);
            r.ok && Shaped(r.v, ino, TombCells(cells, 0, p)) && r.v.inodes == v.inodes && r.v.used == v.used
            && r.v.live == v.live && r.v.geo == v.geo && DirKeeps(v, r.v, ino)
  {
    hide Owned, Lookup, DirSound, BlocksTiled, DirBytes, Laid, Listing, FindPos, CellFit, CellFind, CellList, LookIn, Tombstone,
         Untouched, Tiled, RecLen, Visits, Base, LiveAt, Before, TombCells, LiveCellAt, ReadEnd, Name, FollowedAt;
    ShapedBasics(v, ino, cells);
    ShapedReads(v, ino, cells, name);
    var n := GetInode(v, ino);
    FollowedEnds(DirBytes(v, n), 0, cells, p);
    EraseWritten(v, ino, name, p, prev);
    RemoveIsExact(v, ino, name, p, prev);
    RemoveSound(v, ino, name);
    TombLaid(DirBytes(v, n), 0, cells, p);
  }

  // ---------------------------------------------------------------- discarding a file

  /** A directory beside a file that is discarded stays as it was. */
  lemma DirBesideDiscard(v: Vol, ino: nat, m: Inode, drop: bool, j: nat)
    requires Sound(v) && v.geo.Sizes() && Live(v, ino) && LiveDir(v, j) && j != ino && !IsDir(GetInode(v, ino))
    requires !IsDir(m)
    ensures var w := Discard(v, ino, GetInode(v, ino), m, drop);
            Sound(w) && w.geo == v.geo && LiveDir(w, j) && Alike(v, GetInode(v, j), w, GetInode(w, j))
            && GetInode(w, j) == GetInode(v, j)
            && w.live == (if drop then v.live - {ino} else v.live) && |w.inodes| == |v.inodes|
            && forall i :: InodeNumber(v, i) && i != ino ==> GetInode(w, i) == GetInode(v, i)
  {
    hide Sound, Alike, FreeAll;
    DiscardSound(v, ino, GetInode(v, ino), m, drop);
    FileDiscarded(v, ino, GetInode(v, ino), m, drop, j);
    FreeAllFrame(v, GetInode(v, ino));
  }

  /** What the removal of a file changes beyond its directory: the inode is free again, no other is touched. */
  ghost predicate FileGone(v: Vol, w: Vol, ino: nat, file: nat)
    requires InodeNumber(v, ino)
  {
    && w.geo == v.geo && w.live == v.live - {file} && |w.inodes| == |v.inodes|
    && (forall i :: InodeNumber(v, i) && i != file && i != ino ==> GetInode(w, i) == GetInode(v, i))
  }

  lemma RemoveMarks(v: Vol, ino: nat, cells: seq<Cell>, name: seq<Byte>, p: nat, prev: int, rec: Rec)
    requires Shaped(v, ino, cells) && Nameable(name) && name != DOT && name != DOTDOT && DirReady(v, ino)
    requires CellFind(cells, GetInode(v, ino).size, name, 0, -1) == At(p, prev) && LookIn(CellList(cells), name) == Present(rec)
    requires prev < 0 || prev / v.geo.blockSize != p / v.geo.blockSize
    requires LiveCellAt(cells, 0, p) && FollowedAt(cells, 0, p)
    requires rec.kind == KIND_FILE && Live(v, rec.ino) && GetInode(v, rec.ino) == NewFile()
    ensures var r := RemoveFile(v, ino, name);
            r.ok && FileGone(v, r.v, ino, rec.ino) && Shaped(r.v, ino, TombCells(cells, 0, p)) && GetInode(r.v, ino) == GetInode(v, ino)
  {
    hide Owned, Shaped, Sound, Laid, CellFind, CellList, LookIn, TombCells, LiveCellAt, FollowedAt, Discard, RemoveEntry, Entries,
         Alike, DirReady, WellFormedDir, DirBytes, DirKeeps;
    ShapedBasics(v, ino, cells);
    ShapedReads(v, ino, cells, name);
    EntryMarked(v, ino, cells, name, p, prev);
    var u := RemoveEntry(v, ino, name).v;
    var m := LinksDown(GetInode(u, rec.ino)).(dtime := 0);
    ShapedBasics(u, ino, TombCells(cells, 0, p));
    DirBesideDiscard(u, rec.ino, m, true, ino);
    ShapedAlike(u, Discard(u, rec.ino, GetInode(u, rec.ino), m, true), ino, TombCells(cells, 0, p));
  }

  // ---------------------------------------------------------------- removal behind a deleted record

  /**
   * A file whose name has a deleted record in front of its own: removing it reports success, but it is the deleted
   * record that is removed again. The directory lists what it listed; if this was the last link, the inode is free, and
   * the entry still listed under the name stands for an inode that no longer exists.
   */
  lemma RemoveFileBehindTombstone(v: Vol, parent: nat, name: seq<Byte>, rec: Rec)
    requires Sound(v) && WellFormedDir(v, parent) && DirReady(v, parent) && v.geo.Sizes() && InodeNumber(v, parent)
    requires DirLookup(v, parent, name) == Present(rec) && rec.kind != KIND_DIR && name != DOT && name != DOTDOT
    requires Live(v, rec.ino) && !IsDir(GetInode(v, rec.ino)) && !NoTombstoneFirst(v, parent, name)
    ensures var r := RemoveFile(v, parent, name);
            r.ok && Sound(r.v) && r.v.geo == v.geo && LiveDir(r.v, parent)
            && Entries(r.v, GetInode(r.v, parent)) == Entries(v, GetInode(v, parent))
            && DirLookup(r.v, parent, name) == Present(rec)
            && (Live(r.v, rec.ino) <==> GetInode(v, rec.ino).links > 1)
            && (Live(r.v, rec.ino) ==> GetInode(r.v, rec.ino).links == GetInode(v, rec.ino).links - 1)
  {
    hide Owned, Sound, LookIn, TombCells, FollowedAt, Discard, RemoveEntry, Entries, Alike, DirReady, WellFormedDir, DirBytes,
         FindPos, NoTombstoneFirst, RecLen, DirKeeps;
    RemoveSucceeds(v, parent, name);
    var p, prev := RemovalFound(v, parent, name);
    RemoveIsExact(v, parent, name, p, prev);
    WellFormedSize(v, parent);
    RemoveSound(v, parent, name);
    var u := RemoveEntry(v, parent, name).v;
    KeptFile(v, u, parent, rec.ino);
    var m := LinksDown(GetInode(u, rec.ino)).(dtime := 0);
    var w := Discard(u, rec.ino, GetInode(u, rec.ino), m, m.links == 0);
    DirBesideDiscard(u, rec.ino, m, m.links == 0, parent);
    AlikeDirs(u, GetInode(u, parent), w, GetInode(w, parent));
    DiscardedInode(u, rec.ino, m, m.links == 0);
  }

  lemma KeptFile(v: Vol, u: Vol, parent: nat, file: nat)
    requires InodeNumber(v, parent) && DirKeeps(v, u, parent) && LiveDir(v, parent) && Live(v, file) && !IsDir(GetInode(v, file))
    ensures LiveDir(u, parent) && Live(u, file) && GetInode(u, file) == GetInode(v, file) && file != parent && u.geo == v.geo
    ensures u.live == v.live && |u.inodes| == |v.inodes|
  {}

  lemma DiscardedInode(v: Vol, ino: nat, m: Inode, drop: bool)
    requires InodeNumber(v, ino)
    ensures GetInode(Discard(v, ino, GetInode(v, ino), m, drop), ino).links == m.links
  {
    hide FreeAll;
    FreeAllFrame(v, GetInode(v, ino));
  }

  // ---------------------------------------------------------------- the first file after a directory was emptied

  /** Directory ino with its dot entries and nothing else, in one block. */
  function DotCells(bs: nat, ino: Word32, parent: Word32): seq<Cell>
    requires bs >= 1024
  {
    [Cell(ino, 12, DOT, KIND_DIR), Cell(parent, bs - 12, DOTDOT, KIND_DIR)]
  }

  lemma FirstBlockLaid(bs: nat, ino: Word32, parent: Word32)
    requires BlockSize(bs) && ino != 0 && parent != 0
    ensures Laid(FirstBlock(bs, ino, parent), 0, DotCells(bs, ino, parent))
  {
    hide FirstBlock, RecLen, NameLen, Ino, Name, LiveAt, CellAt;
    FirstBlockReads(bs, ino, parent);
    var d, c := FirstBlock(bs, ino, parent), DotCells(bs, ino, parent);
    LiveCell(d, 0, c[0]);
    LiveCell(d, 12, c[1]);
    assert c[1..] == [c[1]] && [c[1]][1..] == [];
    assert Laid(d, bs, []) && Laid(d, 12, [c[1]]);
  }

  /** The same with a file behind. */
  function DotsAndFile(bs: nat, ino: Word32, parent: Word32, file: Word32, name: seq<Byte>): seq<Cell>
    requires bs >= 1024
  {
    [Cell(ino, 12, DOT, KIND_DIR), Cell(parent, 12, DOTDOT, KIND_DIR), Cell(file, bs - 24, name, KIND_FILE)]
  }

  lemma PaddedIs(k: nat)
    ensures Padded(1) == 12 && Padded(2) == 12 && (k < 256 ==> Padded(k) <= 264) && Padded(255) == 264
  {}

  lemma DotsSplitCells(bs: nat, ino: Word32, parent: Word32, file: Word32, name: seq<Byte>)
    requires BlockSize(bs) && Nameable(name) && ino != 0 && parent != 0
    ensures var c := DotCells(bs, ino, parent);
            CellFit(c, bs, Padded(|name|), 0) == Slot(12) && CellFit(c, 24, Padded(|name|), 0) == Slot(12) && LiveCellAt(c, 0, 12)
            && SplitCells(c, 0, 12, file, name, KIND_FILE) == DotsAndFile(bs, ino, parent, file, name)
            && CellList(c) == [Rec(ino, DOT, KIND_DIR), Rec(parent, DOTDOT, KIND_DIR)]
  {
    hide Padded;
    PaddedIs(|name|);
    var c := DotCells(bs, ino, parent);
    assert c[1..] == [c[1]] && c[1..][1..] == [];
    assert Room(c[0]) == 0 && Room(c[1]) == bs - 24;
    assert CellFit(c[1..], bs, Padded(|name|), 12) == Slot(12) && CellFit(c[1..], 24, Padded(|name|), 12) == Slot(12);
    assert LiveCellAt(c[1..], 12, 12);
    assert SplitCells(c[1..], 12, 12, file, name, KIND_FILE) ==
           [Cell(parent, 12, DOTDOT, KIND_DIR), Cell(file, bs - 24, name, KIND_FILE)];
    assert CellList(c[1..]) == [Rec(parent, DOTDOT, KIND_DIR)] + CellList([]);
  }

  lemma DotsMergeCells(bs: nat, ino: Word32, parent: Word32, file: Word32, name: seq<Byte>)
    requires BlockSize(bs) && Nameable(name) && ino != 0 && parent != 0 && file != 0 && name != DOT && name != DOTDOT
    ensures var c := DotsAndFile(bs, ino, parent, file, name);
            var rec := Rec(file, name, KIND_FILE);
            CellFind(c, bs, name, 0, -1) == At(24, 12) && LiveCellAt(c, 0, 12)
            && MergeCells(c, 0, 12) == DotCells(bs, ino, parent)
            && CellList(c) == [Rec(ino, DOT, KIND_DIR), Rec(parent, DOTDOT, KIND_DIR), rec]
            && FindName(CellList(c), name) == 2 && LookIn(CellList(c), name) == Present(rec)
  {
    var c := DotsAndFile(bs, ino, parent, file, name);
    assert c[1..] == [c[1], c[2]] && c[1..][1..] == [c[2]] && c[2..] == [c[2]] && [c[2]][1..] == [];
    assert CellFind([c[2]], bs, name, 24, 12) == At(24, 12);
    assert CellFind(c[1..], bs, name, 12, 0) == At(24, 12);
    assert LiveCellAt(c[1..], 12, 12);
    assert MergeCells(c[1..], 12, 12) == [Cell(parent, bs - 12, DOTDOT, KIND_DIR)] by { assert c[1..][2..] == []; }
    var l := [Rec(ino, DOT, KIND_DIR), Rec(parent, DOTDOT, KIND_DIR), Rec(file, name, KIND_FILE)];
    assert CellList([c[2]]) == [l[2]] + CellList([]);
    assert CellList(c[1..]) == [l[1]] + CellList([c[2]]);
    assert l[..2] == [l[0], l[1]];
    FirstNameIsUnique(l, name, 2);
  }

  /** The directory holds only its dot entries, and its size ends behind them although the block goes on. */
  ghost predicate Emptied(v: Vol, ino: nat, parent: Word32)
  {
    && Sound(v) && v.geo.Sizes() && LiveDir(v, ino) && ino < 0x1_0000_0000 && GetInode(v, ino).size == 24
    && BlockCount(v, GetInode(v, ino)) < DIRECT && Laid(DirBytes(v, GetInode(v, ino)), 0, DotCells(v.geo.blockSize, ino, parent))
    && Entries(v, GetInode(v, ino)) == [Rec(ino, DOT, KIND_DIR), Rec(parent, DOTDOT, KIND_DIR)]
  }

  /** The mapped bytes of a directory depend on its size only as far as whole blocks go. */
  lemma SameBlocksShown(v: Vol, w: Vol, n: Inode, m: Inode)
    requires v.geo.Sizes() && w.geo == v.geo && w.data == v.data && m.block == n.block
    requires RoundUp(m.size, v.geo.blockSize) == RoundUp(n.size, v.geo.blockSize)
    ensures DirBytes(w, m) == DirBytes(v, n)
  {
    hide ReadEnd, RoundUp;
    assert forall x: nat :: MappedAt(w, m, x) == MappedAt(v, n, x) && ByteAt(w, m, x) == ByteAt(v, n, x);
    hide Lookup, ByteAt;
    AlikeEnd(v, n, w, m, 0, RoundUp(n.size, v.geo.blockSize));
    SameIndexed(DirBytes(w, m), DirBytes(v, n));
  }

  /** What a removal finds in a one-block directory with one file. */
  lemma OnlyFileFound(v: Vol, ino: nat, parent: Word32, file: Word32, name: seq<Byte>)
    requires ino < 0x1_0000_0000 && parent != 0 && file != 0 && Nameable(name) && name != DOT && name != DOTDOT && v.geo.Sizes()
    requires Shaped(v, ino, DotsAndFile(v.geo.blockSize, ino, parent, file, name))
    ensures Sound(v) && WellFormedDir(v, ino) && DirReady(v, ino) && LiveDir(v, ino) && BlockSize(v.geo.blockSize) && ino != 0
    ensures var n := GetInode(v, ino);
            var d := DirBytes(v, n);
            n.size == v.geo.blockSize == |d| && RecLen(d, 12) == 12 && RecLen(d, 24) == |d| - 24 && Ino(d, 24) == file
            && FindPos(d, n.size, name, 0, -1) == At(24, 12)
            && Entries(v, n) == [Rec(ino, DOT, KIND_DIR), Rec(parent, DOTDOT, KIND_DIR), Rec(file, name, KIND_FILE)]
            && FindName(Entries(v, n), name) == 2
            && Laid(d, 0, DotsAndFile(v.geo.blockSize, ino, parent, file, name))
    ensures DirLookup(v, ino, name) == Present(Rec(file, name, KIND_FILE))
  {
    hide Sound, WellFormedDir, DirBytes, Laid, DotsAndFile, RecLen, Ino, BlockCount, Aligned, Entries, LookIn, CellFind, FindPos,
         FindName, CellList, DirLookup, DirReady, DotCells, MergeCells, LiveCellAt;
    var cells := DotsAndFile(v.geo.blockSize, ino, parent, file, name);
    OneBlockLaid(v, ino, parent, file, name);
    ShapedBasics(v, ino, cells);
    ShapedReads(v, ino, cells, name);
    DotsMergeCells(v.geo.blockSize, ino, parent, file, name);
  }

  /** The removal of the only file of a one-block directory: its record is merged into "..", and the size becomes 24. */
  lemma OnlyEntryRemoved(v: Vol, ino: nat, parent: Word32, file: Word32, name: seq<Byte>)
    requires ino < 0x1_0000_0000 && parent != 0 && file != 0 && Nameable(name) && name != DOT && name != DOTDOT && v.geo.Sizes()
    requires Shaped(v, ino, DotsAndFile(v.geo.blockSize, ino, parent, file, name))
    ensures DirReady(v, ino) && DirLookup(v, ino, name) == Present(Rec(file, name, KIND_FILE))
    ensures var r := RemoveEntry(v, ino, name);
            r.ok && Emptied(r.v, ino, parent) && r.v.live == v.live && r.v.geo == v.geo && DirKeeps(v, r.v, ino)
  {
    hide Sound, WellFormedDir, DirBytes, Laid, DotsAndFile, RecLen, Ino, Entries, LookIn, FindPos, HoleFree, Untouched, Owned,
         FindName, DirLookup, DirReady, DotCells, RemoveEntry, RemovedAt, NoTombstoneFirst, Shaped, Merge, Geometry.Sizes;
    OnlyFileFound(v, ino, parent, file, name);
    var n := GetInode(v, ino);
    RemoveSucceeds(v, ino, name);
    RemoveIsExact(v, ino, name, 24, 12);
    LiveFirst(v, ino, name, 24, 12);
    RemoveSound(v, ino, name);
    var w := RemoveEntry(v, ino, name).v;
    OnlyEntryMerged(v, ino, parent, file, name);
    LastOfThree(Entries(v, n), Entries(w, GetInode(w, ino)));
    RemoveSameMap(v, ino, name);
    SameLiveDir(v, w, ino, ino);
    ShapedCount(v, ino, DotsAndFile(v.geo.blockSize, ino, parent, file, name));
  }

  lemma ShapedCount(v: Vol, ino: nat, cells: seq<Cell>)
    requires Shaped(v, ino, cells)
    ensures v.geo.Sizes() && InodeNumber(v, ino) && BlockCount(v, GetInode(v, ino)) < DIRECT
  {}

  lemma LiveFirst(v: Vol, ino: nat, name: seq<Byte>, p: nat, prev: int)
    requires v.geo.Sizes() && InodeNumber(v, ino) && p + HEADER <= |DirBytes(v, GetInode(v, ino))|
    requires Ino(DirBytes(v, GetInode(v, ino)), p) != 0
    requires FindPos(DirBytes(v, GetInode(v, ino)), GetInode(v, ino).size, name, 0, -1) == At(p, prev)
    ensures NoTombstoneFirst(v, ino, name)
  {
    hide DirBytes, Ino, FindPos;
  }

  lemma LastOfThree(l: seq<Rec>, m: seq<Rec>)
    requires |l| == 3 && RemovedAt(l, m, 2)
    ensures m == [l[0], l[1]]
  {}

  /** The bytes the directory shows afterwards, for a size of 24 as well as for the whole block. */
  lemma OnlyEntryMerged(v: Vol, ino: nat, parent: Word32, file: Word32, name: seq<Byte>)
    requires ino < 0x1_0000_0000 && parent != 0 && file != 0 && Nameable(name) && name != DOT && name != DOTDOT && v.geo.Sizes()
    requires Shaped(v, ino, DotsAndFile(v.geo.blockSize, ino, parent, file, name)) && DirReady(v, ino)
    requires RemoveEntry(v, ino, name).ok
    ensures var w := RemoveEntry(v, ino, name).v;
            w.geo == v.geo && InodeNumber(w, ino) && GetInode(w, ino).size == 24
            && Laid(DirBytes(w, GetInode(w, ino)), 0, DotCells(v.geo.blockSize, ino, parent))
  {
    hide Sound, WellFormedDir, DirBytes, Laid, DotsAndFile, RecLen, Ino, Entries, LookIn, FindPos, Untouched, Owned, CellList,
         FindName, DirReady, DotCells, Shaped, Merge, Lookup, Tiled, BlocksTiled, MergeCells, CellFind, Visits, RoundUp, Base;
    OnlyFileFound(v, ino, parent, file, name);
    var n, bs := GetInode(v, ino), v.geo.blockSize;
    EraseWritten(v, ino, name, 24, 12);
    var u, w := EraseAt(v, ino, name, 24, 12), RemoveEntry(v, ino, name).v;
    DotsMergeCells(bs, ino, parent, file, name);
    MergeLaid(DirBytes(v, n), 0, DotsAndFile(bs, ino, parent, file, name), 12, 24);
    SameBlockTwelve(bs);
    SameBlocksShown(u, w, n, GetInode(w, ino));
  }

  lemma SameBlockTwelve(bs: nat)
    requires BlockSize(bs)
    ensures 12 / bs == 24 / bs && RoundUp(24, bs) == bs == RoundUp(bs, bs)
  {}

  lemma DotsAndFileBytes(d: seq<Byte>, bs: nat, ino: Word32, parent: Word32, file: Word32, name: seq<Byte>)
    requires BlockSize(bs) && Laid(d, 0, DotsAndFile(bs, ino, parent, file, name))
    ensures |d| == bs && RecLen(d, 12) == 12 && RecLen(d, 24) == bs - 24 && Ino(d, 24) == file
  {
    hide RecLen, NameLen, Ino, Name;
    var c := DotsAndFile(bs, ino, parent, file, name);
    assert c[1..] == [c[1], c[2]] && c[1..][1..] == [c[2]] && [c[2]][1..] == [];
    assert Laid(d, 12, c[1..]) && Laid(d, 24, [c[2]]) && Laid(d, bs, []);
  }

  lemma DotCellsBytes(d: seq<Byte>, bs: nat, ino: Word32, parent: Word32)
    requires BlockSize(bs) && Laid(d, 0, DotCells(bs, ino, parent))
    ensures |d| == bs && 12 + Padded(NameLen(d, 12)) == 24
  {
    hide RecLen, NameLen, Ino, Name;
    var c := DotCells(bs, ino, parent);
    assert c[1..] == [c[1]] && c[1..][1..] == [];
    assert Laid(d, 12, [c[1]]) && Laid(d, bs, []);
  }

  lemma OneBlockLaid(v: Vol, ino: nat, parent: Word32, file: Word32, name: seq<Byte>)
    requires ino < 0x1_0000_0000 && v.geo.Sizes() && Shaped(v, ino, DotsAndFile(v.geo.blockSize, ino, parent, file, name))
    ensures var d := DirBytes(v, GetInode(v, ino));
            GetInode(v, ino).size == v.geo.blockSize == |d| && RecLen(d, 12) == 12 && RecLen(d, 24) == |d| - 24 && Ino(d, 24) == file
  {
    hide Sound, WellFormedDir, DirBytes, Laid, DotsAndFile, RecLen, Ino, BlockCount, Aligned;
    ShapedBasics(v, ino, DotsAndFile(v.geo.blockSize, ino, parent, file, name));
    DotsAndFileBytes(DirBytes(v, GetInode(v, ino)), v.geo.blockSize, ino, parent, file, name);
  }

  /** A name added to an emptied directory is lost. */
  lemma LostInEmptied(v: Vol, ino: nat, parent: Word32, name: seq<Byte>, child: Word32, kind: Byte)
    requires Emptied(v, ino, parent) && Nameable(name) && name != DOT && name != DOTDOT && child != 0 && parent != 0
    ensures DirReady(v, ino) && BlockCount(v, GetInode(v, ino)) < DIRECT + TABLE_BUFFER
    ensures var r := AddEntry(v, ino, name, child, kind);
            r.ok && r.v.geo == v.geo && DirLookup(r.v, ino, name) == Absent
  {
    hide *;
    EmptiedBasics(v, ino, parent);
    SoundReady(v, ino);
    EmptiedFits(v, ino, parent, name);
    EmptiedPlace(v, ino, name, child, kind);
    CreatedIsFound(v, ino, name, child, kind);
  }

  /** The first record with room is "..", and the new one would end past the size. */
  lemma EmptiedFits(v: Vol, ino: nat, parent: Word32, name: seq<Byte>)
    requires Emptied(v, ino, parent) && Nameable(name) && name != DOT && name != DOTDOT && parent != 0
    ensures v.geo.Sizes() && InodeNumber(v, ino) && IsDir(GetInode(v, ino)) && BlockCount(v, GetInode(v, ino)) < DIRECT + TABLE_BUFFER
    ensures FitOf(v, ino, name) == Slot(12) && !Shows(v, ino, name) && DirLookup(v, ino, name) == Absent
  {
    hide Owned, Lookup, DirSound, BlocksTiled, DirBytes, Laid, Listing, FirstFit, CellFit, CellList, LiveCellAt, SplitCells,
         LookIn, Entries, Sound, BlockCount, Taller, DotCells, Geometry.Sizes, Padded, NameLen;
    EmptiedSizes(v, ino, parent);
    var d, bs := DirBytes(v, GetInode(v, ino)), v.geo.blockSize;
    DotsSplitCells(bs, ino, parent, 1, name);
    LaidFits(d, 0, DotCells(bs, ino, parent), 24, Padded(|name|));
    AbsentIsUnnamed(Entries(v, GetInode(v, ino)), name);
    DotCellsBytes(d, bs, ino, parent);
  }

  lemma EmptiedSizes(v: Vol, ino: nat, parent: Word32)
    requires Emptied(v, ino, parent) && parent != 0
    ensures BlockSize(v.geo.blockSize) && 0 < ino < 0x1_0000_0000 && BlockCount(v, GetInode(v, ino)) < DIRECT + TABLE_BUFFER
  {
    hide Laid, DirBytes, Entries, DotCells;
    SoundSizes(v);
  }

  lemma EmptiedPlace(v: Vol, ino: nat, name: seq<Byte>, child: Word32, kind: Byte)
    requires DirReady(v, ino) && v.geo.Sizes() && InodeNumber(v, ino) && IsDir(GetInode(v, ino)) && Nameable(name) && child != 0
    requires BlockCount(v, GetInode(v, ino)) < DIRECT + TABLE_BUFFER && FitOf(v, ino, name) == Slot(12)
    ensures AddEntry(v, ino, name, child, kind).ok && Unveiled(v, ino, name) == Absent
  {
    hide Owned, BlocksTiled, DirBytes, FirstFit, WriteDirBlock, Split, Taller, Listing;
  }

  lemma FileInEmpty(v: Vol, ino: nat, parent: Word32, name: seq<Byte>)
    requires ino < 0x1_0000_0000 && v.geo.Sizes() && Shaped(v, ino, DotCells(v.geo.blockSize, ino, parent)) && parent != 0
    requires Parent(v, ino) && Shape(v) && LowestFreeInode(v) != 0 && Nameable(name)
    ensures LowestFreeInode(v) < 0x1_0000_0000
    ensures FileMade(v, CreateFile(v, ino, name), ino,
                     DotsAndFile(v.geo.blockSize, ino, parent, LowestFreeInode(v), name))
  {
    var c := DotCells(v.geo.blockSize, ino, parent);
    hide Shaped, Parent, CellFit, LiveCellAt, SplitCells, CreateFile, DotCells, DotsAndFile, CellList, FileMade, LowestFreeInode;
    ShapedBasics(v, ino, c);
    NewInodeIsFree(v);
    SoundSizes(v);
    DotsSplitCells(v.geo.blockSize, ino, parent, LowestFreeInode(v), name);
    DotsSize(v, ino, parent);
    CreateInSlot(v, ino, c, name, 12);
  }

  lemma DotsSize(v: Vol, ino: nat, parent: Word32)
    requires ino < 0x1_0000_0000 && v.geo.Sizes() && Shaped(v, ino, DotCells(v.geo.blockSize, ino, parent))
    ensures GetInode(v, ino).size == v.geo.blockSize
  {
    hide Sound, WellFormedDir, DirBytes, Laid, DotCells, BlockCount, Aligned;
    ShapedBasics(v, ino, DotCells(v.geo.blockSize, ino, parent));
    DotCellsBytes(DirBytes(v, GetInode(v, ino)), v.geo.blockSize, ino, parent);
  }

  lemma EmptiedAlike(v: Vol, w: Vol, ino: nat, parent: Word32)
    requires Emptied(v, ino, parent) && Sound(w) && w.geo == v.geo && LiveDir(w, ino)
    requires Alike(v, GetInode(v, ino), w, GetInode(w, ino))
    ensures Emptied(w, ino, parent)
  {
    hide Alike, Laid, DirBytes, Entries, Sound;
    AlikeDirs(v, GetInode(v, ino), w, GetInode(w, ino));
    AlikeMode(v, GetInode(v, ino), w, GetInode(w, ino));
  }

  lemma FileEmptied(v: Vol, ino: nat, parent: Word32, file: Word32, name: seq<Byte>)
    requires ino < 0x1_0000_0000 && parent != 0 && file != 0 && Nameable(name) && name != DOT && name != DOTDOT && v.geo.Sizes()
    requires Shaped(v, ino, DotsAndFile(v.geo.blockSize, ino, parent, file, name))
    requires Live(v, file) && GetInode(v, file) == NewFile()
    ensures DirReady(v, ino)
    ensures var r := RemoveFile(v, ino, name); r.ok && Emptied(r.v, ino, parent) && r.v.live == v.live - {file} && r.v.geo == v.geo
  {
    hide Owned, Shaped, Sound, Laid, LookIn, Discard, RemoveEntry, Entries, Alike, DirReady, WellFormedDir, DirBytes, DirKeeps,
         DotsAndFile, DirLookup, Emptied;
    ShapedBasics(v, ino, DotsAndFile(v.geo.blockSize, ino, parent, file, name));
    OnlyEntryRemoved(v, ino, parent, file, name);
    var u := RemoveEntry(v, ino, name).v;
    KeptFile(v, u, ino, file);
    var m := LinksDown(GetInode(u, file)).(dtime := 0);
    EmptiedBasics(u, ino, parent);
    DirBesideDiscard(u, file, m, true, ino);
    EmptiedAlike(u, Discard(u, file, GetInode(u, file), m, true), ino, parent);
  }

  lemma EmptiedBasics(v: Vol, ino: nat, parent: Word32)
    requires Emptied(v, ino, parent)
    ensures Sound(v) && LiveDir(v, ino) && v.geo.Sizes() && Shape(v) && Parent(v, ino) && 0 < ino < 0x1_0000_0000
    ensures Live(v, ino) && InodeNumber(v, ino) && IsDir(GetInode(v, ino))
  {
    hide Laid, DirBytes, Entries;
    SoundSizes(v);
    hide Sound;
  }

  lemma FileLost(v: Vol, ino: nat, parent: Word32, name: seq<Byte>)
    requires Emptied(v, ino, parent) && Parent(v, ino) && Shape(v) && LowestFreeInode(v) != 0 && v.geo.Sizes() && parent != 0
    requires Nameable(name) && name != DOT && name != DOTDOT
    ensures var r := CreateFile(v, ino, name);
            r.ok && r.v.geo == v.geo && DirLookup(r.v, ino, name) == Absent
  {
    hide Sound, Emptied, Alike, AddEntry, DirLookup, LowestFreeInode, DirReady, Entries;
    EmptiedBasics(v, ino, parent);
    NewInodeIsFree(v);
    var file := LowestFreeInode(v);
    FileAdded(v, file, ino);
    var u := AddInode(v, file, NewFile());
    SameDataAlike(v, u, GetInode(v, ino), GetInode(u, ino));
    EmptiedAlike(v, u, ino, parent);
    LostInEmptied(u, ino, parent, name, file, KIND_FILE);
  }

  /**
   * Create a file in a directory that is empty, remove it, and create one again, under the same name or another: all
   * three calls report success, and the second file cannot be found. The removal has lowered the size to the end of
   * the dot entries, and the new record goes right behind them.
   */
  lemma FirstFileAfterEmptying(v: Vol, ino: nat, parent: Word32, a: seq<Byte>, b: seq<Byte>)
    requires ino < 0x1_0000_0000 && v.geo.Sizes() && Shaped(v, ino, DotCells(v.geo.blockSize, ino, parent)) && parent != 0
    requires Parent(v, ino) && Shape(v) && LowestFreeInode(v) != 0
    requires Nameable(a) && a != DOT && a != DOTDOT && Nameable(b) && b != DOT && b != DOTDOT
    ensures var first := CreateFile(v, ino, a);
            first.ok && DirReady(first.v, ino) &&
            var gone := RemoveFile(first.v, ino, a);
            gone.ok && Parent(gone.v, ino) && gone.v.live == v.live &&
            var second := CreateFile(gone.v, ino, b);
            second.ok && second.v.geo == v.geo && DirLookup(second.v, ino, b) == Absent
  {
    hide Sound, Emptied, CreateFile, RemoveFile, DirLookup, LowestFreeInode, Shaped, DirReady, DotsAndFile, Parent, DotCells, NewFile;
    FileInEmpty(v, ino, parent, a);
    NewInodeIsFree(v);
    var first := CreateFile(v, ino, a);
    FileEmptied(first.v, ino, parent, first.ino, a);
    var gone := RemoveFile(first.v, ino, a).v;
    assert gone.live == v.live;
    EmptiedBasics(gone, ino, parent);
    SameFreeInode(v, gone);
    FileLost(gone, ino, parent, b);
  }

  lemma SameFreeInode(v: Vol, w: Vol)
    requires w.geo == v.geo && w.live == v.live
    ensures LowestFreeInode(w) == LowestFreeInode(v)
  {}
}
