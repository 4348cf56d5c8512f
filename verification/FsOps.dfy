/** Creating, removing and renaming on whole volumes (ext2_create_file to ext2_rename), as functions of the state. */
module FsOps {
  import opened Bytes
  import opened InodeCodec
  import opened VolumeState
  import opened BlockMap
  import opened FileMap
  import opened FileData
  import opened FileTheorems
  import opened Shrink
  import opened DirRecords
  import opened DirData
  import opened DirOps
  import opened DirRemoval

  const KIND_FILE: Byte := 1
  const KIND_DIR: Byte := 2

  /** S_IFREG | 0644 and S_IFDIR | 0755. */
  const MODE_FILE: Word16 := 0x81A4
  const MODE_DIR: Word16 := 0x41ED

  function NewFile(): Inode {
    ZERO.(mode := MODE_FILE, links := 1)
  }

  function NewDir(v: Vol, b: Word32): Inode
    requires v.geo.Sizes()
  {
    ZERO.(mode := MODE_DIR, links := 2, size := v.geo.blockSize, blocks := SectorsPerBlock(v), block := NO_BLOCKS[0 := b])
  }

  /** The first block of a new directory: "." of length 12, ".." over the rest. */
  function FirstBlock(bs: nat, ino: Word32, parent: Word32): (r: Block)
    requires BlockSize(bs)
    ensures |r| == bs
  {
    Patch(Patch(seq<Byte>(bs, _ => 0), 0, Record(ino, 12, DOT, KIND_DIR)), 12, Record(parent, bs - 12, DOTDOT, KIND_DIR))
  }

  // ---------------------------------------------------------------- the dot entries

  /** The first block of a directory starts with "." and, at offset 12, "..". */
  predicate DotsAt(c: Block) {
    && |c| >= 24 && RecLen(c, 0) == 12 && Name(c, 0) == DOT && Ino(c, 0) != 0
    && Name(c, 12) == DOTDOT && Ino(c, 12) != 0
  }

  /** What every live directory keeps: records tile its blocks, and the dot entries are in place. */
  ghost predicate DirSound(v: Vol, n: Inode)
    requires v.geo.Sizes()
  {
    BlocksTiled(v, n) && Lookup(v, n, 0) != 0 && DotsAt(Content(v, Lookup(v, n, 0))) && BlockCount(v, n) >= 1
  }

  /** The invariant of whole runs. */
  ghost predicate Sound(v: Vol) {
    Owned(v) && forall i :: Live(v, i) && IsDir(GetInode(v, i)) ==> DirSound(v, GetInode(v, i))
  }

  lemma FirstBlockSound(bs: nat, ino: Word32, parent: Word32)
    requires BlockSize(bs) && ino != 0 && parent != 0
    ensures var c := FirstBlock(bs, ino, parent);
            Tiled(c, 0, bs) && DotsAt(c) && Ino(c, 12) == parent &&
            Listing(c, 0) == [Rec(ino, DOT, KIND_DIR), Rec(parent, DOTDOT, KIND_DIR)]
  {
    hide Record, Patch, InBlock, LiveAt, Listing, Tiled, Name, Ino, RecLen, NameLen;
    FirstBlockReads(bs, ino, parent);
    var c := FirstBlock(bs, ino, parent);
    ListingStep(c, 0);
    ListingStep(c, 12);
    NothingAfter(c);
    TiledAtEnd(c, bs);
    InBlockShift(0, 0, bs);
    InBlockShift(0, 12, bs);
    TiledStep(c, 12, bs);
    TiledStep(c, 0, bs);
  }

  lemma TiledAtEnd(d: seq<Byte>, bs: nat)
    requires BlockSize(bs)
    ensures Tiled(d, |d|, bs)
  {}

  lemma FirstBlockReads(bs: nat, ino: Word32, parent: Word32)
    requires BlockSize(bs) && ino != 0 && parent != 0
    ensures var c := FirstBlock(bs, ino, parent);
            Ino(c, 0) == ino && RecLen(c, 0) == 12 && NameLen(c, 0) == 1 && Name(c, 0) == DOT &&
            LiveAt(c, 0) == [Rec(ino, DOT, KIND_DIR)] &&
            Ino(c, 12) == parent && RecLen(c, 12) == bs - 12 && NameLen(c, 12) == 2 && Name(c, 12) == DOTDOT &&
            LiveAt(c, 12) == [Rec(parent, DOTDOT, KIND_DIR)]
  {
    var z := seq<Byte>(bs, _ => 0);
    var r, s := Record(ino, 12, DOT, KIND_DIR), Record(parent, bs - 12, DOTDOT, KIND_DIR);
    var m := Patch(z, 0, r);
    var c := FirstBlock(bs, ino, parent);
    PatchReads(z, 0, r);
    PatchReads(m, 12, s);
    PatchApart(m, 12, s, 0, 9);
    RecordReads(c, 0, ino, 12, DOT, KIND_DIR);
    RecordReads(c, 12, parent, bs - 12, DOTDOT, KIND_DIR);
  }

  // ---------------------------------------------------------------- creation

  datatype Made = Made(ok: bool, v: Vol, ino: nat)

  /** The inode bit set and the inode written. */
  function AddInode(v: Vol, ino: nat, n: Inode): Vol
    requires InodeNumber(v, ino)
  {
    PutInode(v, ino, n).(live := v.live + {ino})
  }

  function DropInode(v: Vol, ino: nat): Vol {
    v.(live := v.live - {ino})
  }

  /** A parent directory that can be operated on. */
  ghost predicate Parent(v: Vol, ino: nat) {
    Sound(v) && Live(v, ino) && BlockCount(v, GetInode(v, ino)) < DIRECT + TABLE_BUFFER
  }

  lemma NewInodeIsFree(v: Vol)
    requires Shape(v)
    ensures LowestFreeInode(v) != 0 ==> InodeNumber(v, LowestFreeInode(v)) && LowestFreeInode(v) !in v.live
    ensures LowestFreeInode(v) < 0x1_0000_0000
  {}

  function CreateFile(v: Vol, parent: nat, name: seq<Byte>): Made
    requires Parent(v, parent) && Nameable(name)
  {
    NewInodeIsFree(v);
    var ino := LowestFreeInode(v);
    if ino == 0 then Made(false, v, 0)
    else
      FileAdded(v, ino, parent);
      var r := AddEntry(AddInode(v, ino, NewFile()), parent, name, ino, KIND_FILE);
      if r.ok then Made(true, r.v, ino) else Made(false, DropInode(r.v, ino), 0)
  }

  /** A zero-map inode added at a free number disturbs nothing. */
  lemma FileAdded(v: Vol, ino: nat, parent: nat)
    requires Parent(v, parent) && InodeNumber(v, ino) && ino !in v.live
    ensures var w := AddInode(v, ino, NewFile());
            Sound(w) && Parent(w, parent) && DirReady(w, parent) && GetInode(w, parent) == GetInode(v, parent) && parent != ino
  {
    var w := AddInode(v, ino, NewFile());
    forall i, loc | Live(w, i) ensures P(w, i, loc) == if i == ino then 0 else P(v, i, loc) {
      if i == ino { UnmappedPtr(w, NewFile(), loc); } else { PtrOfData(v, w, GetInode(v, i), loc); }
    }
    forall i | Live(w, i) && i !in w.geo.reserved && P(w, i, Single) == 0 ensures P(w, i, Double) == 0 && P(w, i, Triple) == 0 {
      assert i != ino ==> P(v, i, Single) == 0;
    }
    assert forall i, loc :: Live(w, i) ==> Moved(v, w, 0, Single, 0, i, loc);
    OwnedAfter(v, w, 0, Single, 0);
    forall i | Live(w, i) && IsDir(GetInode(w, i)) ensures DirSound(w, GetInode(w, i)) {
      assert i != ino;
      SameDataSound(v, w, GetInode(v, i));
    }
  }

  lemma SameDataSound(v: Vol, w: Vol, n: Inode)
    requires v.geo.Sizes() && w.geo == v.geo && w.data == v.data && DirSound(v, n)
    ensures DirSound(w, n)
  {
    forall l: nat ensures Lookup(w, n, l) == Lookup(v, n, l) {
      PtrOfData(v, w, n, PlaceOf(PerTable(v), l));
    }
  }

  // ---------------------------------------------------------------- the dot entries survive edits

  /** Record boundaries of a directory that starts with its dot entries. */
  lemma DotsVisits(d: seq<Byte>, p: nat, bs: nat)
    requires BlockSize(bs) && DotsAt(d) && Tiled(d, 0, bs) && Visits(d, 0, p)
    ensures p == 0 || p == 12 || p >= 24
    ensures NameLen(d, 0) == 1 && NameLen(d, 12) == 2 && Slack(d, 0) == 0 && RecLen(d, 12) >= 12
  {
    hide Ino, InBlock, Le16, LiveAt;
    TiledStep(d, 0, bs);
    TiledStep(d, 12, bs);
    assert |Name(d, 0)| == 1 && |Name(d, 12)| == 2;
    if p != 0 {
      assert Visits(d, 12, p);
      if p != 12 {
        assert Visits(d, 12 + RecLen(d, 12), p);
      }
    }
  }

  /** Dot entries only depend on the first 24 bytes. */
  lemma DotsOfPrefix(d: seq<Byte>, e: seq<Byte>)
    requires 24 <= |d| && 24 <= |e| && d[..24] == e[..24] && DotsAt(d) && NameLen(d, 0) == 1 && NameLen(d, 12) == 2
    ensures DotsAt(e) && Ino(e, 12) == Ino(d, 12)
  {
    hide Le16, Le32;
    assert forall i {:trigger d[i]} {:trigger e[i]} :: 0 <= i < 24 ==> d[i] == d[..24][i] && e[i] == e[..24][i];
    assert e[HEADER..9] == d[HEADER..9] && e[20..22] == d[20..22];
    SameHead(d, e, 0);
    SameHead(d, e, 12);
  }

  lemma SameHead(d: seq<Byte>, e: seq<Byte>, p: nat)
    requires p + HEADER <= |d| && p + HEADER <= |e| && forall i :: p <= i < p + HEADER ==> d[i] == e[i]
    ensures RecLen(e, p) == RecLen(d, p) && NameLen(e, p) == NameLen(d, p) && Ino(e, p) == Ino(d, p)
  {}

  lemma DotsSame(d: seq<Byte>, e: seq<Byte>, p: nat, bs: nat)
    requires BlockSize(bs) && DotsAt(d) && Tiled(d, 0, bs) && SameBetween(d, e, 0, p) && p >= 24
    ensures DotsAt(e)
  {
    DotsVisits(d, 0, bs);
    assert d[..24] == e[..24];
    DotsOfPrefix(d, e);
  }

  lemma NameOfLive(d: seq<Byte>, e: seq<Byte>, p: nat)
    requires p + HEADER <= |d| && p + HEADER <= |e| && LiveAt(e, p) == LiveAt(d, p) && Ino(e, p) == Ino(d, p) && Ino(d, p) != 0
    ensures Name(e, p) == Name(d, p)
  {
    assert LiveAt(d, p)[0] == LiveAt(e, p)[0];
  }

  /** The first record is kept, and the second keeps its name and inode. */
  lemma DotsRelinked(d: seq<Byte>, e: seq<Byte>, bs: nat)
    requires BlockSize(bs) && DotsAt(d) && Tiled(d, 0, bs) && SameBetween(d, e, 0, 12)
    requires LiveAt(e, 12) == LiveAt(d, 12) && Ino(e, 12) == Ino(d, 12)
    ensures DotsAt(e)
  {
    DotsVisits(d, 0, bs);
    SameHead(d, e, 0);
    assert e[HEADER..9] == d[HEADER..9];
    NameOfLive(d, e, 12);
  }

  lemma DotsSplit(d: seq<Byte>, p: nat, bs: nat, ino: Word32, name: seq<Byte>, kind: Byte)
    requires BlockSize(bs) && DotsAt(d) && Tiled(d, 0, bs) && Visits(d, 0, p) && p < |d| && p + HEADER <= |d|
    requires Nameable(name) && ino != 0 && p + RecLen(d, p) <= |d| && Slack(d, p) >= Padded(|name|)
    ensures DotsAt(Split(d, p, ino, name, kind))
  {
    hide DotsAt, Tiled, Split, Visits, LiveAt, Ino;
    DotsVisits(d, p, bs);
    SplitBytes(d, p, ino, name, kind);
    if p == 12 {
      DotsRelinked(d, Split(d, p, ino, name, kind), bs);
    } else {
      DotsSame(d, Split(d, p, ino, name, kind), p, bs);
    }
  }

  lemma DotsErase(d: seq<Byte>, p: nat, prev: int, bs: nat)
    requires BlockSize(bs) && DotsAt(d) && Tiled(d, 0, bs) && Visits(d, 0, p) && p < |d| && p + HEADER <= |d|
    requires prev >= 0 ==> Precedes(d, prev, p) && Visits(d, 0, prev)
    requires prev >= 0 && prev / bs == p / bs ==> RecLen(d, prev) + RecLen(d, p) < 0x1_0000
    requires Name(d, p) != DOT && Name(d, p) != DOTDOT
    ensures DotsAt(Erase(d, p, prev, bs))
  {
    hide Tiled, Merge, Tombstone, Visits, LiveAt, Le16, Le32;
    var e := Erase(d, p, prev, bs);
    DotsVisits(d, p, bs);
    if prev >= 0 && prev / bs == p / bs {
      DotsVisits(d, prev, bs);
      TiledFrom(d, 0, prev, bs);
      TiledStep(d, prev, bs);
      MergeBytes(d, prev, p);
      if prev == 12 { DotsRelinked(d, e, bs); } else { DotsSame(d, e, prev, bs); }
    } else {
      TombstoneBytes(d, p);
      DotsSame(d, e, p, bs);
    }
  }

  // ---------------------------------------------------------------- soundness of entry operations

  lemma SoundSizes(v: Vol)
    requires Sound(v)
    ensures v.geo.Sizes() && BlockSize(v.geo.blockSize) && Shape(v)
  {}

  /** A directory nobody touched is still sound. */
  lemma SoundElsewhere(v: Vol, w: Vol, ino: nat, j: nat)
    requires v.geo.Sizes() && Untouched(v, w, ino) && Live(v, j) && j != ino && GetInode(w, j) == GetInode(v, j)
    requires DirSound(v, GetInode(v, j))
    ensures DirSound(w, GetInode(w, j))
  {
    var n := GetInode(v, j);
    forall l: nat
      ensures Lookup(w, n, l) == Lookup(v, n, l)
      ensures Lookup(v, n, l) != 0 ==> Content(w, Lookup(v, n, l)) == Content(v, Lookup(v, n, l))
    {
      DataPlace(PerTable(v), l);
      assert P(w, j, PlaceOf(PerTable(v), l)) == P(v, j, PlaceOf(PerTable(v), l)) == Lookup(v, n, l);
    }
  }

  lemma KeepsBasics(v: Vol, w: Vol, ino: nat)
    requires InodeNumber(v, ino) && DirKeeps(v, w, ino)
    ensures w.geo == v.geo && w.live == v.live && |w.inodes| == |v.inodes| && Untouched(v, w, ino) && Owned(w)
    ensures forall i :: Live(v, i) && i != ino ==> Live(w, i) && GetInode(w, i) == GetInode(v, i)
  {}

  lemma SoundAfter(v: Vol, w: Vol, ino: nat)
    requires Sound(v) && Live(v, ino) && DirKeeps(v, w, ino)
    requires IsDir(GetInode(w, ino)) ==> DirSound(w, GetInode(w, ino))
    ensures Sound(w)
  {
    hide DirSound, Owned, Shape, Untouched;
    SoundSizes(v);
    KeepsBasics(v, w, ino);
    forall i | Live(w, i) && IsDir(GetInode(w, i)) ensures DirSound(w, GetInode(w, i)) {
      if i != ino {
        SoundElsewhere(v, w, ino, i);
      }
    }
  }

  /** The first block after an edit of the directory bytes at p. */
  lemma DotsAfterEdit(v: Vol, ino: nat, n: Inode, e: seq<Byte>, p: nat, w: Vol)
    requires Editing(v, ino, n) && DirSound(v, n) && p < |DirBytes(v, n)|
    requires OneBlockEdit(DirBytes(v, n), e, p, v.geo.blockSize) && Tiled(e, 0, v.geo.blockSize)
    requires Base(p, v.geo.blockSize) + v.geo.blockSize <= |e| && Lookup(v, n, p / v.geo.blockSize) < |v.data|
    requires w == WriteDirBlock(v, n, e, p) && DotsAt(DirBytes(v, n)) ==> DotsAt(e)
    requires w == WriteDirBlock(v, n, e, p)
    ensures DirSound(w, n) && DotsAt(DirBytes(v, n))
  {
    hide Owned, Untouched, Lookup, ReadEnd, Tiled, Base, OneBlockEdit, Ptr, PlaceOf, DotsAt, ByteAt;
    SizesBlock(v, ino, n);
    var d, bs := DirBytes(v, n), v.geo.blockSize;
    DirTiled(v, ino, n);
    FirstDirBlock(v, ino, n);
    DotsWhole(d, bs);
    DirWritten(v, ino, n, e, p);
    DotsPart(e, bs);
    FirstDirBlock(w, ino, n);
  }

  /** Block 0 of a non-empty directory holds its first bytes. */
  lemma FirstDirBlock(v: Vol, ino: nat, n: Inode)
    requires Editing(v, ino, n) && |DirBytes(v, n)| > 0
    ensures v.geo.blockSize <= |DirBytes(v, n)| && DirBytes(v, n)[0..v.geo.blockSize] == Content(v, Lookup(v, n, 0))
  {
    DirBlock(v, ino, n, 0);
  }

  lemma DotsWhole(d: seq<Byte>, bs: nat)
    requires BlockSize(bs) && bs <= |d| && Tiled(d, 0, bs) && DotsAt(d[0..bs])
    ensures DotsAt(d)
  {
    TiledExtract(d, 0, 0, bs);
    DotsVisits(d[0..bs], 0, bs);
    assert d[..24] == d[0..bs][..24];
    DotsOfPrefix(d[0..bs], d);
  }

  lemma DotsPart(d: seq<Byte>, bs: nat)
    requires BlockSize(bs) && bs <= |d| && Tiled(d, 0, bs) && DotsAt(d)
    ensures DotsAt(d[0..bs])
  {
    DotsVisits(d, 0, bs);
    assert d[..24] == d[0..bs][..24];
    DotsOfPrefix(d, d[0..bs]);
  }

  // ---------------------------------------------------------------- entry operations keep the invariant

  lemma SoundReady(v: Vol, ino: nat)
    requires Sound(v) && Live(v, ino)
    ensures DirReady(v, ino) && v.geo.Sizes() && InodeNumber(v, ino)
    ensures IsDir(GetInode(v, ino)) ==> DirSound(v, GetInode(v, ino))
  {}

  lemma CountGrows(blocks: Word32, spb: nat)
    requires (spb == 2 || spb == 4) && 1 <= blocks / spb < 4096
    ensures (blocks + spb) % 0x1_0000_0000 / spb == blocks / spb + 1
  {}

  lemma AddSlotSound(v: Vol, ino: nat, name: seq<Byte>, child: Word32, kind: Byte, p: nat)
    requires Parent(v, ino) && IsDir(GetInode(v, ino)) && Nameable(name) && child != 0
    requires DirReady(v, ino) && FitOf(v, ino, name) == Slot(p)
    ensures var w := AddEntry(v, ino, name, child, kind).v;
            InodeNumber(w, ino) && w.geo == v.geo && DirSound(w, GetInode(w, ino))
  {
    hide Owned, Ptr, PlaceOf, Untouched, Lookup, ReadEnd, Tiled, ByteAt, Aligned, Base, Listing, Split, Before, LiveAt,
         RecLen, Slack, InsertedAt, OneBlockEdit, DotsAt, Visits, FirstFit, DirBytes, DirSound, BlocksTiled;
    SoundReady(v, ino);
    SelfPut(v, ino);
    var n, bs := GetInode(v, ino), v.geo.blockSize;
    SlotWritten(v, ino, name, child, kind, p);
    var d := DirBytes(v, n);
    var e := Split(d, p, child, name, kind);
    TiledFrom(d, 0, p, bs);
    DirTiled(v, ino, n) by { SoundTiled(v, n); }
    SplitIsOneBlock(d, p, bs, child, name, kind);
    if DotsAt(d) { DotsSplit(d, p, bs, child, name, kind); }
    DotsAfterEdit(v, ino, n, e, p, WriteDirBlock(v, n, e, p));
  }

  lemma SoundTiled(v: Vol, n: Inode)
    requires v.geo.Sizes() && DirSound(v, n)
    ensures BlocksTiled(v, n)
  {}

  lemma AddEndSound(v: Vol, ino: nat, name: seq<Byte>, child: Word32, kind: Byte, p: nat)
    requires Parent(v, ino) && IsDir(GetInode(v, ino)) && Nameable(name) && child != 0
    requires DirReady(v, ino) && FitOf(v, ino, name) == AtEnd(p)
    ensures var w := AddEntry(v, ino, name, child, kind).v;
            InodeNumber(w, ino) && w.geo == v.geo && DirSound(w, GetInode(w, ino))
  {
    hide Owned, Ptr, PlaceOf, Untouched, Lookup, ReadEnd, Tiled, ByteAt, Aligned, FirstFit, DirBytes, Append, AddEntry,
         FreshBlock, DotsAt, BlocksTiled, RoundUp;
    SoundReady(v, ino);
    SoundSizes(v);
    AddEndKeeps(v, ino, name, child, kind, p);
    SameReady(v, ino, AddEntry(v, ino, name, child, kind).v);
    CountGrows(GetInode(v, ino).blocks, SectorsPerBlock(v));
  }

  lemma SameReady(v: Vol, ino: nat, w: Vol)
    requires InodeNumber(v, ino) && DirKeeps(v, w, ino) && IsDir(GetInode(v, ino)) && DirReady(w, ino)
    ensures w.geo == v.geo && InodeNumber(w, ino) && w.geo.Sizes() && BlocksTiled(w, GetInode(w, ino))
  {}

  /** Adding an entry, successful or not, keeps the invariant. */
  lemma AddSound(v: Vol, ino: nat, name: seq<Byte>, child: Word32, kind: Byte)
    requires Parent(v, ino) && Nameable(name) && child != 0
    ensures DirReady(v, ino)
    ensures var r := AddEntry(v, ino, name, child, kind); DirKeeps(v, r.v, ino) && Sound(r.v)
  {
    hide Owned, Untouched, Lookup, DirSound, FirstFit, DirBytes, Append, WriteDirBlock, Split, BlocksTiled;
    SoundReady(v, ino);
    var r := AddEntry(v, ino, name, child, kind);
    AddKeeps(v, ino, name, child, kind);
    if IsDir(GetInode(v, ino)) {
      match FitOf(v, ino, name)
      case Hole =>
      case Slot(p) => AddSlotSound(v, ino, name, child, kind, p);
      case AtEnd(p) => AddEndSound(v, ino, name, child, kind, p);
    }
    SoundAfter(v, r.v, ino);
  }

  lemma DirSoundAnySize(v: Vol, w: Vol, n: Inode, m: Inode)
    requires v.geo.Sizes() && w.geo == v.geo && w.data == v.data && m.block == n.block && m.blocks == n.blocks
    requires DirSound(v, n)
    ensures DirSound(w, m)
  {
    hide Tiled, DotsAt;
    forall l: nat ensures Lookup(w, m, l) == Lookup(v, n, l) {}
  }

  lemma RemoveAtSound(v: Vol, ino: nat, name: seq<Byte>, p: nat, prev: int)
    requires Sound(v) && Live(v, ino) && DirReady(v, ino) && IsDir(GetInode(v, ino)) && name != DOT && name != DOTDOT
    requires FindPos(DirBytes(v, GetInode(v, ino)), GetInode(v, ino).size, name, 0, -1) == At(p, prev)
    ensures var w := RemoveAt(v, ino, name, p, prev);
            InodeNumber(w, ino) && w.geo == v.geo && DirSound(w, GetInode(w, ino))
  {
    hide Owned, Ptr, PlaceOf, Untouched, Lookup, ReadEnd, Tiled, ByteAt, Aligned, Base, Listing, Erase, Before, LiveAt,
         RecLen, OneBlockEdit, DotsAt, Visits, FindPos, DirBytes, DirSound, BlocksTiled, Name;
    SoundReady(v, ino);
    SelfPut(v, ino);
    var n, bs := GetInode(v, ino), v.geo.blockSize;
    PickedRecord(v, ino, name, p, prev);
    EraseWritten(v, ino, name, p, prev);
    var d := DirBytes(v, n);
    var e := Erase(d, p, prev, bs);
    TiledFrom(d, 0, p, bs);
    if prev >= 0 { TiledFrom(d, 0, prev, bs); }
    EraseIsOneBlock(d, p, prev, bs);
    if DotsAt(d) { DotsErase(d, p, prev, bs); }
    var u := WriteDirBlock(v, n, e, p);
    DotsAfterEdit(v, ino, n, e, p, u);
    DirSoundAnySize(u, RemoveAt(v, ino, name, p, prev), n, GetInode(RemoveAt(v, ino, name, p, prev), ino));
  }

  /** Removing an entry, successful or not, keeps the invariant. */
  lemma RemoveSound(v: Vol, ino: nat, name: seq<Byte>)
    requires Sound(v) && Live(v, ino)
    ensures DirReady(v, ino)
    ensures var r := RemoveEntry(v, ino, name);
            DirKeeps(v, r.v, ino) && Sound(r.v) && r.v.used == v.used && (!r.ok ==> r.v == v)
  {
    hide Owned, Untouched, Lookup, DirSound, FindPos, DirBytes, RemoveAt, BlocksTiled, LookIn, Entries;
    SoundReady(v, ino);
    var r := RemoveEntry(v, ino, name);
    RemoveKeeps(v, ino, name);
    if r.ok {
      match FindPos(DirBytes(v, GetInode(v, ino)), GetInode(v, ino).size, name, 0, -1)
      case Missing =>
      case At(p, prev) => RemoveAtSound(v, ino, name, p, prev);
    }
    SoundAfter(v, r.v, ino);
  }
}
