/** ext2_create_file to ext2_rename on the disk: each method leaves the volume its state function describes. */
module FsMethods {
  import opened Bytes
  import opened InodeCodec
  import opened VolumeState
  import opened BlockMap
  import opened FileData
  import opened FileTheorems
  import opened Shrink
  import opened DirRecords
  import opened DirData
  import opened DirOps
  import opened DirRemoval
  import opened FsOps
  import opened FsSteps
  import opened DirTheorems
  import opened Links
  import opened RenameLinks
  import opened Ext2Volume
  import opened FileMethods
  import opened FreeMethods
  import opened DirScan
  import opened DirMethods

  lemma ParentAddable(v: Vol, ino: nat)
    requires Parent(v, ino)
    ensures Addable(v, ino) && Shape(v) && InodeNumber(v, ino) && v.geo.Sizes() && 0 < ino < 0x1_0000_0000
  {
    SoundReady(v, ino);
    InodeIsWord(v, ino);
  }

  // ---------------------------------------------------------------- ext2_create_file and ext2_create_dir

  /** An inode number taken and its inode written. */
  method AddInodeTo(fs: Volume, n: Inode) returns (ok: bool, ino: nat)
    requires fs.Valid()
    modifies fs
    ensures fs.Valid() && ino == LowestFreeInode(old(fs.View())) && ok == (ino != 0) && ino < 0x1_0000_0000
    ensures ok ==> InodeNumber(old(fs.View()), ino) && fs.View() == AddInode(old(fs.View()), ino, n)
    ensures !ok ==> fs.View() == old(fs.View())
    ensures fs.free.blocks == old(fs.free.blocks)
  {
    hide Volume.View, Volume.Valid, Shape, LowestFreeInode;
    NewInodeIsFree(fs.View());
    ok, ino := fs.AllocInode();
    if ok {
      var _ := fs.WriteInode(ino, n);
    }
  }

  method CreateFileIn(fs: Volume, parent: nat, name: seq<Byte>) returns (ok: bool, ino: nat)
    requires fs.Valid() && Parent(fs.View(), parent) && |name| < 256
    modifies fs
    ensures fs.Valid()
    ensures if name == [] then !ok && fs.View() == old(fs.View())
            else Made(ok, fs.View(), ino) == CreateFile(old(fs.View()), parent, name)
  {
    hide Volume.View, Volume.Valid, Sound, Shape, LowestFreeInode, AddEntry, AddInode;
    if name == [] {
      return false, 0;
    }
    ghost var v := fs.View();
    ParentAddable(v, parent);
    NewInodeIsFree(v);
    ok, ino := AddInodeTo(fs, NewFile());
    if !ok {
      return false, 0;
    }
    FileAdded(v, ino, parent);
    ParentAddable(fs.View(), parent);
    AddSound(fs.View(), parent, name, ino, KIND_FILE);
    AddedLive(v, ino, NewFile());
    ok := AddDirEntry(fs, parent, name, ino, KIND_FILE);
    if !ok {
      fs.FreeInode(ino);
      return false, 0;
    }
  }

  lemma AddedLive(v: Vol, ino: nat, n: Inode)
    requires InodeNumber(v, ino)
    ensures Live(AddInode(v, ino, n), ino) && AddInode(v, ino, n).geo == v.geo
  {}

  /** Inode and block of a new directory, both written; nothing is kept when either cannot be had. */
  method AddDirTo(fs: Volume, parent: Word32) returns (ok: bool, ino: nat, b: nat)
    requires fs.Valid() && BlockSize(fs.geo.blockSize) && fs.geo.Sizes()
    modifies fs
    ensures fs.Valid() && ok == (LowestFreeInode(old(fs.View())) != 0 && LowestFree(old(fs.View())) != 0)
    ensures ok ==> ino == LowestFreeInode(old(fs.View())) && b == LowestFree(old(fs.View()))
    ensures ino < 0x1_0000_0000 && b < 0x1_0000_0000
    ensures ok ==> InodeNumber(old(fs.View()), ino) && b < |old(fs.View()).data|
                   && fs.View() == AddDir(old(fs.View()), ino, b, parent)
    ensures !ok ==> fs.View() == old(fs.View())
  {
    hide Volume.View, Volume.Valid, LowestFreeInode, LowestFree, Geometry.MetaReserved, Geometry.MetaApart, Geometry.Totals,
         Patch, Record;
    ghost var v := fs.View();
    NewInodeIsFree(v);
    LowestFreeIsData(v);
    ok, ino := fs.AllocInode();
    if !ok {
      return false, 0, 0;
    }
    SameLowest(v, fs.View());
    ok, b := fs.AllocBlock();
    if !ok {
      fs.FreeInode(ino);
      assert v.live + {ino} - {ino} == v.live;
      return false, 0, 0;
    }
    var c := seq<Byte>(fs.geo.blockSize, _ => 0);
    c := Patch(c, 0, Record(ino, 12, DOT, KIND_DIR));
    c := Patch(c, 12, Record(parent, fs.geo.blockSize - 12, DOTDOT, KIND_DIR));
    var _ := fs.WriteBlock(b, c);
    var n := ZERO.(mode := MODE_DIR, links := 2, size := fs.geo.blockSize, blocks := fs.geo.blockSize / 512,
                   block := NO_BLOCKS[0 := b]);
    var _ := fs.WriteInode(ino, n);
    assert n == NewDir(v, b);
  }

  lemma SameLowest(v: Vol, w: Vol)
    requires w.geo == v.geo && w.used == v.used
    ensures LowestFree(w) == LowestFree(v)
  {}

  method CreateDirIn(fs: Volume, parent: nat, name: seq<Byte>) returns (ok: bool, ino: nat)
    requires fs.Valid() && Parent(fs.View(), parent) && |name| < 256
    modifies fs
    ensures fs.Valid()
    ensures if name == [] then !ok && fs.View() == old(fs.View())
            else Made(ok, fs.View(), ino) == CreateDir(old(fs.View()), parent, name)
  {
    hide Volume.View, Volume.Valid, Sound, Shape, LowestFreeInode, LowestFree, AddEntry, AddDir, LinksUp;
    if name == [] {
      return false, 0;
    }
    ghost var v := fs.View();
    ParentAddable(v, parent);
    NewInodeIsFree(v);
    LowestFreeIsData(v);
    var b;
    ok, ino, b := AddDirTo(fs, parent);
    if !ok {
      return false, 0;
    }
    DirAdded(v, ino, b, parent);
    DirLinked(v, ino, b, parent);
    var got, p := fs.ReadInode(parent);
    if got {
      var _ := fs.WriteInode(parent, LinksUp(p));
    }
    ghost var u := fs.View();
    ParentAddable(u, parent);
    AddSound(u, parent, name, ino, KIND_DIR);
    ok := AddDirEntry(fs, parent, name, ino, KIND_DIR);
    if !ok {
      fs.FreeInode(ino);
      StillOwned(u, AddEntry(u, parent, name, ino, KIND_DIR).v, parent, ino, b);
      fs.FreeBlock(b);
      return false, 0;
    }
  }

  /** The new directory's block is still in use when its entry could not be added. */
  lemma StillOwned(v: Vol, w: Vol, parent: nat, ino: nat, b: nat)
    requires Sound(w) && InodeNumber(v, parent) && DirKeeps(v, w, parent) && Live(v, ino) && ino != parent
    requires P(v, ino, Direct(0)) == b && b != 0
    ensures b in w.used && w.geo.IsData(b)
  {
    assert P(w, ino, Direct(0)) == b;
  }

  // ---------------------------------------------------------------- ext2_remove_file and ext2_remove_dir

  /** A directory the lookups can read, and that may be edited. */
  ghost predicate Removable(v: Vol, parent: nat, name: seq<Byte>) {
    Sound(v) && Live(v, parent) && Readable(v, parent) && NamesLive(v, parent, name)
  }

  lemma FreeAllSameMap(v: Vol, n: Inode, m: Inode)
    requires m.block == n.block
    ensures FreeAll(v, m) == FreeAll(v, n) && Reached(v, m) == Reached(v, n)
  {
    forall loc ensures Ptr(v, m, loc) == Ptr(v, n, loc) {}
    forall b: nat ensures Behind(v, m, Everything, b) <==> Behind(v, n, Everything, b) {
      if Behind(v, m, Everything, b) {
        var loc :| GivenUp(Everything, loc) && Ptr(v, m, loc) == b;
        assert Ptr(v, n, loc) == b;
      }
      if Behind(v, n, Everything, b) {
        var loc :| GivenUp(Everything, loc) && Ptr(v, n, loc) == b;
        assert Ptr(v, m, loc) == b;
      }
    }
  }

  /** All blocks of the inode given back, the emptied inode stored, and its number freed on demand. */
  method DiscardInode(fs: Volume, ino: nat, n: Inode, drop: bool)
    requires fs.Valid() && Owned(fs.View()) && Live(fs.View(), ino) && n.block == GetInode(fs.View(), ino).block
    modifies fs
    ensures fs.Valid() && fs.View() == Discard(old(fs.View()), ino, n, n, drop)
    ensures fs.free.blocks == old(fs.free.blocks) + |Reached(old(fs.View()), n)|
  {
    hide Volume.View, Volume.Valid, Owned, FreeAll, Dropped;
    ghost var v := fs.View();
    SelfPut(v, ino);
    InodeFits(v, ino) by { OwnedShape(v); }
    SameMapOwned(v, ino, GetInode(v, ino), n) by { assert Editing(v, ino, GetInode(v, ino)); }
    FreeAllFrame(v, n);
    var m := FreeInodeBlocks(fs, ino, n);
    var _ := fs.WriteInode(ino, m);
    if drop {
      fs.FreeInode(ino);
    }
  }

  method RemoveFileIn(fs: Volume, parent: nat, name: seq<Byte>) returns (ok: bool)
    requires fs.Valid() && Removable(fs.View(), parent, name)
    modifies fs
    ensures fs.Valid() && DirReady(old(fs.View()), parent)
    ensures Done(ok, fs.View()) == RemoveFile(old(fs.View()), parent, name)
  {
    hide Volume.View, Volume.Valid, Sound, Readable, RemoveEntry, LookIn, Entries, FreeAll, Owned;
    ghost var v := fs.View();
    SoundReady(v, parent);
    RemoveSound(v, parent, name);
    var found, ino, kind := LookupEntry(fs, parent, name);
    if !found || kind == KIND_DIR {
      return false;
    }
    ghost var r := RemoveEntry(v, parent, name);
    KeptMode(v, r.v, parent, ino);
    ok := RemoveDirEntry(fs, parent, name);
    if !ok {
      return false;
    }
    var got, n := fs.ReadInode(ino);
    var m := n.(links := if n.links > 0 then n.links - 1 else n.links, dtime := 0);
    FreeAllSameMap(r.v, n, m);
    DiscardInode(fs, ino, m, m.links == 0);
  }

  /** One round of the emptiness check: it looks at records of at least twelve bytes only. */
  lemma EmptyStep(d: seq<Byte>, all: nat, lo: nat, p: nat, bs: nat)
    requires BlockSize(bs) && lo <= all <= |d| && lo <= p && Scanning(d, all, lo, p, bs) && p + 12 <= ChunkEnd(lo, all)
    ensures var b, vis, pos := ChunkOf(d, all, lo), Shown(d, all), p - lo;
            RecLen(b, pos) > 0 && Scanning(d, all, lo, p + RecLen(b, pos), bs) &&
            (OnlyDots(vis, p) <==> DotRecord(b, pos) && OnlyDots(vis, p + RecLen(b, pos)))
  {
    hide Scanning, Listing, Ino, RecLen, NameLen, Name;
    ScanStep(d, all, lo, p, bs);
    var b, vis, pos := ChunkOf(d, all, lo), Shown(d, all), p - lo;
    if Ino(b, pos) != 0 { assert LiveAt(vis, p)[0].name == Name(b, pos); }
  }

  /** Between two chunks the check can at most step over a bare tombstone header. */
  lemma EmptyNext(d: seq<Byte>, all: nat, lo: nat, p: nat, bs: nat)
    requires BlockSize(bs) && lo < all <= |d| && lo <= p && Scanning(d, all, lo, p, bs) && p + 12 > ChunkEnd(lo, all)
    ensures ChunkEnd(lo, all) < all ==>
              Scanning(d, all, lo + CHUNK, lo + CHUNK, bs) && (OnlyDots(Shown(d, all), p) <==> OnlyDots(Shown(d, all), lo + CHUNK))
    ensures ChunkEnd(lo, all) == all ==> OnlyDots(Shown(d, all), p)
  {
    hide Listing, Name, LiveAt, ChunkOf;
    var end, vis := ChunkEnd(lo, all), Shown(d, all);
    if end < all {
      if p + HEADER <= end {
        hide Ino, RecLen, NameLen, Tiled, InBlock, Legible;
        ScanStep(d, all, lo, p, bs);
        TiledStep(d, p, bs);
        InsideChunk(d, lo, p, bs);
        ChunkHead(d, 0, all, p);
        assert d[0..all] == vis;
        ShortRecord(RecLen(d, p), NameLen(d, p), end - p);
        ScanNext(d, all, lo, p + RecLen(d, p), bs);
      } else {
        ScanNext(d, all, lo, p, bs);
      }
    }
  }

  lemma ShortRecord(len: nat, nameLen: nat, room: nat)
    requires len % 4 == 0 && len >= Padded(nameLen) && len <= room < 12
    ensures len == HEADER && nameLen == 0
  {}

  /** The chunk is checked up to pos: what is left to check decides whether the directory is empty from lo on. */
  ghost predicate Checked(d: seq<Byte>, all: nat, lo: nat, pos: nat, bs: nat)
    requires BlockSize(bs)
  {
    && lo <= all <= |d| && Scanning(d, all, lo, lo + pos, bs)
    && (OnlyDots(Shown(d, all), lo) <==> OnlyDots(Shown(d, all), lo + pos))
  }

  lemma CheckedStep(buf: seq<Byte>, d: seq<Byte>, all: nat, lo: nat, pos: nat, bs: nat)
    requires BlockSize(bs) && Checked(d, all, lo, pos, bs) && buf == ChunkOf(d, all, lo) && pos + 12 <= |buf|
    ensures RecLen(buf, pos) > 0
    ensures if DotRecord(buf, pos) then Checked(d, all, lo, pos + RecLen(buf, pos), bs) else !OnlyDots(Shown(d, all), lo)
  {
    hide Scanning, OnlyDots, Shown, RecLen, DotRecord;
    EmptyStep(d, all, lo, lo + pos, bs);
  }

  method EmptyChunk(buf: seq<Byte>, ghost d: seq<Byte>, ghost all: nat, ghost lo: nat, ghost bs: nat)
    returns (empty: bool, ghost p: nat)
    requires lo <= all <= |d| && BlockSize(bs) && Scanning(d, all, lo, lo, bs) && buf == ChunkOf(d, all, lo)
    ensures !empty ==> !OnlyDots(Shown(d, all), lo)
    ensures empty ==> lo <= p && p + 12 > ChunkEnd(lo, all) && Scanning(d, all, lo, p, bs)
                      && (OnlyDots(Shown(d, all), lo) <==> OnlyDots(Shown(d, all), p))
  {
    assert Checked(d, all, lo, 0, bs);
    hide Scanning, OnlyDots, Shown, RecLen, DotRecord, ChunkOf, ChunkEnd;
    empty, p := true, lo;
    var pos := 0;
    while pos + 12 <= |buf|
      invariant Checked(d, all, lo, pos, bs)
    {
      hide *;
      CheckedStep(buf, d, all, lo, pos, bs);
      var len, dots := RecLen(buf, pos), DotRecord(buf, pos);
      if len == 0 || !dots {
        empty := false;
        return;
      }
      pos := pos + len;
    }
    p := lo + pos;
  }

  /** Whether a directory lists nothing but its dot entries. */
  method DirIsEmpty(fs: Volume, ghost ino: nat, n: Inode) returns (empty: bool)
    requires fs.Valid() && Readable(fs.View(), ino) && n == GetInode(fs.View(), ino) && IsDir(n)
    ensures fs.geo.Sizes() && empty == OnlyDots(Visible(fs.View(), n), 0)
  {
    hide Volume.View, Volume.Valid, Owned, Scanning, Visible, OnlyDots, Legible, BlocksTiled, DirBytes, ReadData, Pointing, Shape;
    ghost var v := fs.View();
    OwnedSizes(v, ino);
    SelfPut(v, ino);
    EditingPoints(v, ino, n);
    ScanStart(v, ino, n);
    VisibleEnd(v, ino, n);
    ghost var d, vis, bs := DirBytes(v, n), Visible(v, n), v.geo.blockSize;
    ghost var all := |vis|;
    EmptyEnd(vis);
    var lo := 0;
    while lo < n.size
      invariant lo <= all && (lo < all ==> Scanning(d, all, lo, lo, bs) && (OnlyDots(vis, 0) <==> OnlyDots(vis, lo)))
      invariant lo == all ==> OnlyDots(vis, 0)
    {
      var want := if n.size - lo > CHUNK then CHUNK else n.size - lo;
      ChunkRead(v, ino, n, lo);
      ChunkOfVisible(d, all, lo);
      var buf := ReadBytes(fs, n, lo, want);
      if |buf| == 0 {
        break;
      }
      ghost var p;
      empty, p := EmptyChunk(buf, d, all, lo, bs);
      if !empty {
        return;
      }
      EmptyNext(d, all, lo, p, bs);
      lo := lo + |buf|;
    }
    return true;
  }

  lemma EmptyEnd(d: seq<Byte>)
    ensures |d| == 0 ==> OnlyDots(d, 0)
  {}

  /** The child, too, can be read when the name stands for a directory. */
  ghost predicate ChildReadable(v: Vol, parent: nat, name: seq<Byte>)
    requires v.geo.Sizes()
  {
    match DirLookup(v, parent, name)
    case Absent => true
    case Present(rec) => Readable(v, rec.ino)
  }

  method RemoveDirIn(fs: Volume, parent: nat, name: seq<Byte>) returns (ok: bool)
    requires fs.Valid() && fs.geo.Sizes() && Removable(fs.View(), parent, name) && ChildReadable(fs.View(), parent, name)
    modifies fs
    ensures fs.Valid() && DirReady(old(fs.View()), parent)
    ensures Done(ok, fs.View()) == RemoveDir(old(fs.View()), parent, name)
  {
    hide Volume.View, Volume.Valid, Sound, Readable, RemoveEntry, LookIn, Entries, FreeAll, Owned, OnlyDots, Visible;
    ghost var v := fs.View();
    SoundReady(v, parent);
    RemoveSound(v, parent, name);
    var found, ino, kind := LookupEntry(fs, parent, name);
    if !found || kind != KIND_DIR {
      return false;
    }
    var got, n := fs.ReadInode(ino);
    if !got || !IsDir(n) {
      return false;
    }
    var empty := DirIsEmpty(fs, ino, n);
    if !empty {
      return false;
    }
    ok := RemoveDirEntry(fs, parent, name);
    if !ok {
      return false;
    }
    ghost var r := RemoveEntry(v, parent, name);
    KeptMode(v, r.v, parent, ino);
    RemoveSameMap(v, parent, name);
    KeptOthers(v, r.v, parent, ino);
    SameMapSound(r.v, parent, LinksDown(GetInode(r.v, parent)));
    var p;
    got, p := fs.ReadInode(parent);
    if got {
      InodeFits(r.v, parent) by { SoundSizes(r.v); }
      var _ := fs.WriteInode(parent, LinksDown(p));
    }
    var m := n.(links := 0, dtime := 0);
    SoundOwned(fs.View());
    FreeAllSameMap(fs.View(), n, m);
    DiscardInode(fs, ino, m, true);
  }

  // ---------------------------------------------------------------- ext2_rename

  /** The old parent can still be read once the new name is linked. */
  ghost predicate StaysReadable(v: Vol, op: nat, oldName: seq<Byte>, np: nat, newName: seq<Byte>)
    requires Parent(v, np) && Nameable(newName)
  {
    ParentAddable(v, np);
    match DirLookup(v, op, oldName)
    case Absent => true
    case Present(rec) =>
      rec.ino != 0 && AddEntry(v, np, newName, rec.ino, rec.kind).ok ==> Readable(AddEntry(v, np, newName, rec.ino, rec.kind).v, op)
  }

  /** A rename between whole directories with room, of a listed name to a new one, can always be carried out. */
  lemma MovableStaysReadable(v: Vol, op: nat, oldName: seq<Byte>, np: nat, newName: seq<Byte>)
    requires Parent(v, np) && Nameable(newName) && Movable(v, op, oldName, np, newName)
    ensures Readable(v, op) && Readable(v, np) && StaysReadable(v, op, oldName, np, newName)
  {
    hide Owned, Sound, Entries, LookIn, AddEntry, WellFormedDir, NoTombstoneFirst, HasRoom, Readable, Gained, SameLinks, DirReady;
    ParentAddable(v, np);
    MovableParts(v, op, oldName, np, newName);
    WellFormedIsReadable(v, op);
    WellFormedIsReadable(v, np);
    var rec := DirLookup(v, op, oldName).rec;
    if AddEntry(v, np, newName, rec.ino, rec.kind).ok {
      LinkKeepsOld(v, op, oldName, np, newName, rec);
      WellFormedIsReadable(AddEntry(v, np, newName, rec.ino, rec.kind).v, op);
    }
  }

  /** Both parents' link counts and the moved directory's ".." rewritten. */
  method RelinkOn(fs: Volume, op: nat, np: nat, d: nat)
    requires fs.Valid() && Sound(fs.View()) && Live(fs.View(), op) && Live(fs.View(), np) && Live(fs.View(), d) && op != np
    modifies fs
    ensures fs.Valid() && fs.View() == Relink(old(fs.View()), op, np, d)
  {
    hide Volume.View, Volume.Valid, Sound, Owned, Lookup, Pointing, Patch;
    ghost var v := fs.View();
    SoundSizes(v);
    InodeIsWord(v, op);
    InodeIsWord(v, np);
    RelinkSteps(v, op, np);
    var got, p := fs.ReadInode(op);
    if got {
      var _ := fs.WriteInode(op, LinksDown(p));
    }
    got, p := fs.ReadInode(np);
    if got {
      var _ := fs.WriteInode(np, LinksUp(p));
    }
    ghost var u := fs.View();
    SoundOwned(u);
    SelfPut(u, d);
    var n;
    got, n := fs.ReadInode(d);
    if got && n.size >= 12 {
      EditingPoints(u, d, n);
      FirstBlockData(u, d);
      var phys := BlockLookup(fs, n, 0);
      if phys != 0 {
        var buf;
        got, buf := fs.ReadBlock(phys);
        var _ := fs.WriteBlock(phys, Patch(buf, 12, Enc32(np)));
      }
    }
  }

  method RenameIn(fs: Volume, op: nat, oldName: seq<Byte>, np: nat, newName: seq<Byte>) returns (ok: bool)
    requires fs.Valid() && fs.geo.Sizes() && Parent(fs.View(), op) && Parent(fs.View(), np) && |newName| < 256
    requires NamesInode(fs.View(), op, oldName) && Readable(fs.View(), op) && Readable(fs.View(), np)
    requires newName != [] ==> StaysReadable(fs.View(), op, oldName, np, newName)
    modifies fs
    ensures fs.Valid()
    ensures if oldName == [] || newName == [] then !ok && fs.View() == old(fs.View())
            else Done(ok, fs.View()) == Rename(old(fs.View()), op, oldName, np, newName)
  {
    hide Volume.View, Volume.Valid, Sound, Owned, AddEntry, RemoveEntry, LookIn, Entries, Relink, Readable, Shape;
    if oldName == [] || newName == [] || newName == DOT || newName == DOTDOT {
      return false;
    }
    if op == np && oldName == newName {
      return true;
    }
    ghost var v := fs.View();
    ParentAddable(v, op);
    ParentAddable(v, np);
    var found, ino, kind := LookupEntry(fs, op, oldName);
    if !found {
      return false;
    }
    var taken, tino, tkind := LookupEntry(fs, np, newName);
    if taken {
      return false;
    }
    InodeIsWord(v, ino);
    AddSound(v, np, newName, ino, kind);
    ok := AddDirEntry(fs, np, newName, ino, kind);
    if !ok {
      return false;
    }
    ghost var a := AddEntry(v, np, newName, ino, kind).v;
    KeptMode(v, a, np, op);
    KeptMode(v, a, np, ino);
    KeptMode(v, a, np, np);
    SoundReady(a, op);
    RemoveSound(a, op, oldName);
    ok := RemoveDirEntry(fs, op, oldName);
    if !ok {
      return false;
    }
    ghost var r := RemoveEntry(a, op, oldName).v;
    KeptMode(a, r, op, op);
    KeptMode(a, r, op, ino);
    KeptMode(a, r, op, np);
    if kind == KIND_DIR && op != np {
      RelinkOn(fs, op, np, ino);
    }
  }
}
