/** The whole-volume operations (ext2_create_dir to ext2_rename) as state changes, and the invariant each one keeps. */
module FsSteps {
  import opened Bytes
  import opened InodeCodec
  import opened VolumeState
  import opened BlockMap
  import opened FileMap
  import opened FileData
  import opened FileTheorems
  import opened Shrink
  import opened DirRecords
  import opened DirData
  import opened DirOps
  import opened DirRemoval
  import opened FsOps

  // ---------------------------------------------------------------- link counts

  function LinksUp(n: Inode): Inode {
    n.(links := (n.links + 1) % 0x1_0000)
  }

  function LinksDown(n: Inode): Inode {
    n.(links := if n.links > 0 then n.links - 1 else 0)
  }

  /** Inode ino rewritten with the same map: the invariant stays. */
  lemma SameMapSound(v: Vol, ino: nat, m: Inode)
    requires Sound(v) && Live(v, ino)
    requires m.block == GetInode(v, ino).block && m.blocks == GetInode(v, ino).blocks && (IsDir(m) ==> IsDir(GetInode(v, ino)))
    ensures Sound(PutInode(v, ino, m))
    ensures forall i, loc :: Live(v, i) ==> P(PutInode(v, ino, m), i, loc) == P(v, i, loc)
  {
    hide DirSound, Owned;
    SoundSizes(v);
    SelfPut(v, ino);
    var w, n := PutInode(v, ino, m), GetInode(v, ino);
    SameMapOwned(v, ino, n, m) by { assert Editing(v, ino, n); }
    forall i | Live(w, i) && IsDir(GetInode(w, i)) ensures DirSound(w, GetInode(w, i)) {
      DirSoundAnySize(v, w, GetInode(v, i), GetInode(w, i));
    }
  }

  // ---------------------------------------------------------------- ext2_create_file

  lemma CreateFileSound(v: Vol, parent: nat, name: seq<Byte>)
    requires Parent(v, parent) && Nameable(name)
    ensures Sound(CreateFile(v, parent, name).v)
  {
    hide Sound, AddEntry, AddInode, DropInode;
    NewInodeIsFree(v) by { SoundSizes(v); }
    var ino := LowestFreeInode(v);
    if ino != 0 {
      FileAdded(v, ino, parent);
      var u := AddInode(v, ino, NewFile());
      AddSound(u, parent, name, ino, KIND_FILE);
      DropSound(AddEntry(u, parent, name, ino, KIND_FILE).v, ino, {});
      ReleaseNothing(DropInode(AddEntry(u, parent, name, ino, KIND_FILE).v, ino));
    }
  }

  lemma ReleaseNothing(v: Vol)
    ensures Release(v, {}) == v
  {
    assert v.used - {} == v.used;
  }

  /** Dropping an inode, and blocks that nobody else points to, keeps the invariant. */
  lemma DropSound(v: Vol, ino: nat, s: set<nat>)
    requires Sound(v) && (forall b :: b in s ==> v.geo.IsData(b))
    requires forall i, loc :: Live(v, i) && i != ino ==> P(v, i, loc) !in s
    ensures Sound(Release(DropInode(v, ino), s))
  {
    hide DirSound;
    var w := Release(DropInode(v, ino), s);
    forall i, loc | Live(w, i) ensures P(w, i, loc) == P(v, i, loc) { PtrOfData(v, w, GetInode(v, i), loc); }
    assert forall i, loc :: Live(w, i) ==> Moved(v, w, 0, Single, 0, i, loc);
    forall i | Live(w, i) && i !in w.geo.reserved && P(w, i, Single) == 0 ensures P(w, i, Double) == 0 && P(w, i, Triple) == 0 {
      assert P(v, i, Single) == 0;
    }
    forall i, loc | Live(w, i) && P(w, i, loc) != 0 ensures P(w, i, loc) in w.used {
      assert P(v, i, loc) in v.used;
    }
    OwnedAfter(v, w, 0, Single, 0);
    forall i | Live(w, i) && IsDir(GetInode(w, i)) ensures DirSound(w, GetInode(w, i)) {
      SameDataSound(v, w, GetInode(v, i));
    }
  }

  // ---------------------------------------------------------------- ext2_create_dir

  /** A fresh directory: block b filled with the dot entries, inode ino written and marked. */
  function AddDir(v: Vol, ino: nat, b: Word32, parent: Word32): Vol
    requires v.geo.Sizes() && InodeNumber(v, ino) && ino < 0x1_0000_0000 && b < |v.data|
  {
    AddInode(Filled(v, b, FirstBlock(v.geo.blockSize, ino, parent)), ino, NewDir(v, b))
  }

  lemma FilledSound(v: Vol, ino: nat, b: nat, c: Block)
    requires Sound(v) && Live(v, ino) && v.geo.IsData(b) && b !in v.used && |c| == v.geo.blockSize
    ensures var w := Filled(v, b, c); Sound(w) && Unowned(w, b) && b in w.used && GetInode(w, ino) == GetInode(v, ino)
  {
    hide Owned, Untouched, Lookup, Tiled, DotsAt;
    SoundSizes(v);
    DataExists(v, b);
    var w := Filled(v, b, c);
    FilledOwned(v, b, c);
    FilledKeeps(v, ino, b, c);
    SoundAfter(v, w, ino);
  }

  lemma DirAdded(v: Vol, ino: nat, b: Word32, parent: Word32)
    requires Parent(v, parent) && InodeNumber(v, ino) && ino !in v.live && ino < 0x1_0000_0000
    requires v.geo.IsData(b) && b !in v.used && b != 0 && parent != 0
    ensures v.geo.Sizes() && b < |v.data|
    ensures var w := AddDir(v, ino, b, parent);
            Parent(w, parent) && w.geo == v.geo && GetInode(w, parent) == GetInode(v, parent) && parent != ino
            && Live(w, ino) && P(w, ino, Direct(0)) == b
  {
    hide Sound, Owned, Filled, FirstBlock, Unowned, DirSound;
    SoundSizes(v);
    assert b < |v.data| by { DataExists(v, b); }
    var c, n := FirstBlock(v.geo.blockSize, ino, parent), NewDir(v, b);
    var u := Filled(v, b, c);
    FilledSound(v, parent, b, c);
    FilledShape(v, b, c);
    FileAdded(u, ino, parent) by { assert Parent(u, parent); }
    var x, w := AddInode(u, ino, NewFile()), AddDir(v, ino, b, parent);
    assert Unowned(x, b) by { BlankUnowned(u, ino, b); }
    AttachDirect(x, ino, 0, b, n) by { SoundOwned(x); }
    SameDir(u, x, ino, b, n);
    assert w == PutInode(Take(x, b), ino, n);
    NewDirSound(v, x, w, ino, b, parent);
  }

  lemma SameDir(u: Vol, x: Vol, ino: nat, b: nat, n: Inode)
    requires InodeNumber(u, ino) && x == AddInode(u, ino, NewFile()) && b in u.used
    ensures AddInode(u, ino, n) == PutInode(Take(x, b), ino, n)
  {
    assert u.used + {b} == u.used;
  }

  lemma SoundOwned(v: Vol)
    requires Sound(v)
    ensures Owned(v)
  {}

  lemma DataExists(v: Vol, b: nat)
    requires Shape(v) && v.geo.IsData(b)
    ensures b < |v.data|
  {}

  lemma FilledShape(v: Vol, b: nat, c: Block)
    requires b < |v.data|
    ensures var u := Filled(v, b, c);
            u.geo == v.geo && u.live == v.live && u.inodes == v.inodes && b in u.used && Content(u, b) == c
  {}

  lemma BlankUnowned(u: Vol, ino: nat, b: nat)
    requires InodeNumber(u, ino) && Unowned(u, b)
    ensures Unowned(AddInode(u, ino, NewFile()), b)
  {
    var x := AddInode(u, ino, NewFile());
    forall i, loc | Live(x, i) ensures P(x, i, loc) != b || b == 0 {
      if i == ino { UnmappedPtr(x, NewFile(), loc); } else { PtrOfData(u, x, GetInode(u, i), loc); assert P(u, i, loc) == P(x, i, loc); }
    }
  }

  lemma NewDirSound(v: Vol, x: Vol, w: Vol, ino: nat, b: Word32, parent: Word32)
    requires v.geo.Sizes() && Sound(x) && x.geo == v.geo && Live(x, ino) && w == PutInode(Take(x, b), ino, NewDir(v, b))
    requires Owned(w) && b != 0 && ino != 0 && ino < 0x1_0000_0000 && parent != 0 && BlockSize(v.geo.blockSize)
    requires Content(x, b) == FirstBlock(v.geo.blockSize, ino, parent)
    ensures Sound(w) && P(w, ino, Direct(0)) == b
  {
    hide Owned, FirstBlock, Tiled, DotsAt, Listing;
    FirstBlockSound(v.geo.blockSize, ino, parent);
    forall i | Live(w, i) && IsDir(GetInode(w, i)) ensures DirSound(w, GetInode(w, i)) {
      if i != ino {
        SameDataSound(x, w, GetInode(x, i));
      } else {
        forall l: nat ensures Lookup(w, NewDir(v, b), l) == if l == 0 then b else 0 {
          OneBlock(w, NewDir(v, b), l);
        }
      }
    }
  }

  /** An inode whose map holds nothing but block[0]. */
  lemma OneBlock(v: Vol, n: Inode, l: nat)
    requires v.geo.Sizes() && n.block == NO_BLOCKS[0 := n.block[0]]
    ensures Lookup(v, n, l) == if l == 0 then n.block[0] else 0
  {}

  function CreateDir(v: Vol, parent: nat, name: seq<Byte>): Made
    requires Parent(v, parent) && Nameable(name)
  {
    NewInodeIsFree(v);
    LowestFreeIsData(v);
    var ino, b := LowestFreeInode(v), LowestFree(v);
    if ino == 0 || b == 0 then Made(false, v, 0)
    else
      InodeIsWord(v, parent);
      DirLinked(v, ino, b, parent);
      var w := AddDir(v, ino, b, parent);
      var r := AddEntry(PutInode(w, parent, LinksUp(GetInode(w, parent))), parent, name, ino, KIND_DIR);
      if r.ok then Made(true, r.v, ino) else Made(false, Release(DropInode(r.v, ino), {b}), 0)
  }

  lemma InodeIsWord(v: Vol, ino: nat)
    requires Shape(v) && InodeNumber(v, ino)
    ensures 0 < ino < 0x1_0000_0000
  {}

  lemma DirLinked(v: Vol, ino: nat, b: Word32, parent: Word32)
    requires Parent(v, parent) && InodeNumber(v, ino) && ino !in v.live && ino < 0x1_0000_0000
    requires v.geo.IsData(b) && b !in v.used && b != 0 && parent != 0
    ensures v.geo.Sizes() && b < |v.data| && InodeNumber(AddDir(v, ino, b, parent), parent)
    ensures var w := AddDir(v, ino, b, parent);
            var u := PutInode(w, parent, LinksUp(GetInode(w, parent)));
            Parent(u, parent) && DirReady(u, parent) && Live(u, ino) && parent != ino && P(u, ino, Direct(0)) == b && u.geo == v.geo
  {
    hide Sound, AddDir;
    DirAdded(v, ino, b, parent);
    var w := AddDir(v, ino, b, parent);
    SameMapSound(w, parent, LinksUp(GetInode(w, parent)));
    SoundReady(PutInode(w, parent, LinksUp(GetInode(w, parent))), parent);
  }

  lemma CreateDirSound(v: Vol, parent: nat, name: seq<Byte>)
    requires Parent(v, parent) && Nameable(name)
    ensures Sound(CreateDir(v, parent, name).v)
  {
    hide Sound, AddEntry, AddDir, DropInode, Release, LinksUp;
    SoundSizes(v);
    NewInodeIsFree(v);
    LowestFreeIsData(v);
    var ino, b := LowestFreeInode(v), LowestFree(v);
    if ino != 0 && b != 0 {
      InodeIsWord(v, parent);
      DirLinked(v, ino, b, parent);
      var w := AddDir(v, ino, b, parent);
      var u := PutInode(w, parent, LinksUp(GetInode(w, parent)));
      AddSound(u, parent, name, ino, KIND_DIR);
      var r := AddEntry(u, parent, name, ino, KIND_DIR);
      OnlyOwner(u, r.v, parent, ino, b);
      DropSound(r.v, ino, {b});
    }
  }

  /** After the parent was edited, block b is still the new directory's and nobody else's. */
  lemma OnlyOwner(v: Vol, w: Vol, parent: nat, ino: nat, b: nat)
    requires InodeNumber(v, parent) && DirKeeps(v, w, parent) && Live(v, ino) && ino != parent && P(v, ino, Direct(0)) == b && b != 0
    ensures w.geo.IsData(b)
    ensures forall i, loc :: Live(w, i) && i != ino ==> P(w, i, loc) != b
  {
    assert P(w, ino, Direct(0)) == b;
  }

  // ---------------------------------------------------------------- ext2_remove_file and ext2_remove_dir

  /** Everything inode ino reaches is released and the emptied inode stored; its number is freed on demand. */
  ghost function Discard(v: Vol, ino: nat, n: Inode, m: Inode, drop: bool): Vol
    requires InodeNumber(v, ino)
  {
    var w := PutInode(FreeAll(v, n), ino, Unmapped(m));
    if drop then DropInode(w, ino) else w
  }

  lemma DiscardSound(v: Vol, ino: nat, n: Inode, m: Inode, drop: bool)
    requires Sound(v) && Live(v, ino) && n.block == GetInode(v, ino).block && (drop || !IsDir(m))
    ensures Sound(Discard(v, ino, n, m, drop))
  {
    hide DirSound, Owned, Untouched, FreeAll;
    SoundSizes(v);
    SelfPut(v, ino);
    SoundOwned(v);
    SameMapOwned(v, ino, GetInode(v, ino), n) by { assert Editing(v, ino, GetInode(v, ino)); }
    FreeAllOwned(v, ino, n, Unmapped(m));
    FreeAllFrame(v, n);
    var x, w := PutInode(FreeAll(v, n), ino, Unmapped(m)), Discard(v, ino, n, m, drop);
    UntouchedFrom(v, ino, n, x);
    forall i | Live(w, i) && IsDir(GetInode(w, i)) ensures DirSound(w, GetInode(w, i)) {
      assert i != ino;
      SoundElsewhere(v, x, ino, i);
      SameDataSound(x, w, GetInode(x, i));
    }
    if drop { DropOwned(x, ino); }
  }

  lemma FreeAllFrame(v: Vol, n: Inode)
    ensures var w := FreeAll(v, n); w.geo == v.geo && w.live == v.live && w.inodes == v.inodes && w.data == v.data
  {}

  lemma UntouchedFrom(v: Vol, ino: nat, n: Inode, w: Vol)
    requires InodeNumber(v, ino) && Untouched(PutInode(v, ino, n), w, ino)
    ensures Untouched(v, w, ino)
  {
    var u := PutInode(v, ino, n);
    forall i, loc | Live(v, i) && i != ino ensures P(u, i, loc) == P(v, i, loc) { PtrOfData(v, u, GetInode(v, i), loc); }
  }

  lemma DropOwned(v: Vol, ino: nat)
    requires Owned(v)
    ensures Owned(DropInode(v, ino))
  {
    var w := DropInode(v, ino);
    forall i, loc | Live(w, i) ensures P(w, i, loc) == P(v, i, loc) { PtrOfData(v, w, GetInode(v, i), loc); }
    assert forall i, loc :: Live(w, i) ==> Moved(v, w, 0, Single, 0, i, loc);
    forall i | Live(w, i) && i !in w.geo.reserved && P(w, i, Single) == 0 ensures P(w, i, Double) == 0 && P(w, i, Triple) == 0 {
      assert P(v, i, Single) == 0;
    }
    OwnedAfter(v, w, 0, Single, 0);
  }

  ghost function RemoveFile(v: Vol, parent: nat, name: seq<Byte>): Done
    requires DirReady(v, parent)
  {
    match DirLookup(v, parent, name)
    case Absent => Done(false, v)
    case Present(rec) =>
      if rec.kind == KIND_DIR then Done(false, v)
      else
        var r := RemoveEntry(v, parent, name);
        if !r.ok || !InodeNumber(r.v, rec.ino) then Done(false, r.v)
        else
          var m := LinksDown(GetInode(r.v, rec.ino)).(dtime := 0);
          Done(true, Discard(r.v, rec.ino, GetInode(r.v, rec.ino), m, m.links == 0))
  }

  /** The name does not stand for a directory under a file's kind, and it stands for something. */
  ghost predicate NamesLive(v: Vol, parent: nat, name: seq<Byte>)
    requires v.geo.Sizes()
  {
    match DirLookup(v, parent, name)
    case Absent => true
    case Present(rec) => Live(v, rec.ino) && (IsDir(GetInode(v, rec.ino)) ==> rec.kind == KIND_DIR)
  }

  lemma RemoveFileSound(v: Vol, parent: nat, name: seq<Byte>)
    requires Sound(v) && Live(v, parent) && NamesLive(v, parent, name)
    ensures DirReady(v, parent) && Sound(RemoveFile(v, parent, name).v)
  {
    hide Sound, RemoveEntry, Discard, LookIn, Entries;
    SoundReady(v, parent);
    RemoveSound(v, parent, name);
    match DirLookup(v, parent, name)
    case Absent =>
    case Present(rec) =>
      var r := RemoveEntry(v, parent, name);
      KeptMode(v, r.v, parent, rec.ino);
      if rec.kind != KIND_DIR && r.ok && InodeNumber(r.v, rec.ino) {
        var m := LinksDown(GetInode(r.v, rec.ino)).(dtime := 0);
        DiscardSound(r.v, rec.ino, GetInode(r.v, rec.ino), m, m.links == 0);
      }
  }

  /** Editing a directory changes no inode's mode, liveness or number. */
  lemma KeptMode(v: Vol, w: Vol, parent: nat, i: nat)
    requires InodeNumber(v, parent) && DirKeeps(v, w, parent) && Live(v, i)
    ensures Live(w, i) && GetInode(w, i).mode == GetInode(v, i).mode
  {}

  /** A tombstone, or one of the dot entries. */
  predicate DotRecord(d: seq<Byte>, p: nat)
    requires p + HEADER <= |d|
  {
    Ino(d, p) == 0 || Name(d, p) == DOT || Name(d, p) == DOTDOT
  }

  /** The records an emptiness check looks at, from p on, are dots or tombstones. */
  predicate OnlyDots(d: seq<Byte>, p: nat)
    decreases |d| - p
  {
    if p + 12 > |d| then true
    else if RecLen(d, p) == 0 then false
    else DotRecord(d, p) && OnlyDots(d, p + RecLen(d, p))
  }

  ghost function RemoveDir(v: Vol, parent: nat, name: seq<Byte>): Done
    requires DirReady(v, parent)
  {
    match DirLookup(v, parent, name)
    case Absent => Done(false, v)
    case Present(rec) =>
      if rec.kind != KIND_DIR || !InodeNumber(v, rec.ino) || !IsDir(GetInode(v, rec.ino)) ||
        !OnlyDots(Visible(v, GetInode(v, rec.ino)), 0) then Done(false, v)
      else
        var n, r := GetInode(v, rec.ino), RemoveEntry(v, parent, name);
        if !r.ok then Done(false, r.v)
        else
          RemoveKeeps(v, parent, name);
          var u := PutInode(r.v, parent, LinksDown(GetInode(r.v, parent)));
          Done(true, Discard(u, rec.ino, n, n.(links := 0, dtime := 0), true))
  }

  lemma RemoveSameMap(v: Vol, ino: nat, name: seq<Byte>)
    requires DirReady(v, ino)
    ensures var r := RemoveEntry(v, ino, name);
            InodeNumber(r.v, ino) && GetInode(r.v, ino).block == GetInode(v, ino).block
            && GetInode(r.v, ino).blocks == GetInode(v, ino).blocks
  {
    hide FindPos, LookIn, Entries, DirBytes, Owned, BlocksTiled, EraseAt;
  }

  lemma RemoveDirSound(v: Vol, parent: nat, name: seq<Byte>)
    requires Sound(v) && Live(v, parent) && NamesLive(v, parent, name)
    ensures DirReady(v, parent) && Sound(RemoveDir(v, parent, name).v)
  {
    hide Sound, RemoveEntry, Discard, LookIn, Entries, OnlyDots;
    SoundReady(v, parent);
    RemoveSound(v, parent, name);
    RemoveSameMap(v, parent, name);
    match DirLookup(v, parent, name)
    case Absent =>
    case Present(rec) =>
      var r := RemoveEntry(v, parent, name);
      if r.ok {
        KeptMode(v, r.v, parent, rec.ino);
        SameMapSound(r.v, parent, LinksDown(GetInode(r.v, parent)));
        var u, n := PutInode(r.v, parent, LinksDown(GetInode(r.v, parent))), GetInode(v, rec.ino);
        assert GetInode(u, rec.ino).block == n.block by { KeptOthers(v, r.v, parent, rec.ino); }
        DiscardSound(u, rec.ino, n, n.(links := 0, dtime := 0), true);
      }
  }

  lemma KeptOthers(v: Vol, w: Vol, parent: nat, i: nat)
    requires InodeNumber(v, parent) && DirKeeps(v, w, parent) && Live(v, i)
    ensures i != parent ==> Live(w, i) && GetInode(w, i) == GetInode(v, i)
  {}

  // ---------------------------------------------------------------- ext2_rename

  /** The ".." record of directory d, at offset 12 of its first block, pointed at np. */
  function Reparent(v: Vol, d: nat, np: Word32): Vol
    requires Owned(v) && Live(v, d)
  {
    var n := GetInode(v, d);
    var b := Lookup(v, n, 0);
    if n.size < 12 || b == 0 then v
    else
      FirstBlockData(v, d);
      PutBlock(v, b, Repointed(v.data[b], np))
  }

  lemma FirstBlockData(v: Vol, d: nat)
    requires Owned(v) && Live(v, d)
    ensures v.geo.Sizes()
    ensures var b := Lookup(v, GetInode(v, d), 0);
            b != 0 ==> b < |v.data| && |v.data[b]| == v.geo.blockSize && v.geo.IsData(b) && P(v, d, Direct(0)) == b
  {
    assert P(v, d, Direct(0)) == Lookup(v, GetInode(v, d), 0);
  }

  /** A directory block with its second record pointed elsewhere. */
  function Repointed(c: seq<Byte>, np: Word32): (r: seq<Byte>)
    requires 16 <= |c|
    ensures |r| == |c|
  {
    Patch(c, 12, Enc32(np))
  }

  /** Only the inode number of ".." changes in the listing, and the records still tile the block. */
  lemma RepointedReads(c: seq<Byte>, np: Word32, bs: nat)
    requires BlockSize(bs) && DotsAt(c) && Tiled(c, 0, bs) && np != 0
    ensures var e := Repointed(c, np);
            Tiled(e, 0, bs) && DotsAt(e) && Ino(e, 12) == np &&
            Listing(c, 0) == LiveAt(c, 0) + [Rec(Ino(c, 12), DOTDOT, c[19])] + Listing(c, 12 + RecLen(c, 12)) &&
            Listing(e, 0) == LiveAt(c, 0) + [Rec(np, DOTDOT, c[19])] + Listing(c, 12 + RecLen(c, 12))
  {
    hide Listing, InBlock, Padded, Tiled;
    var e := Repointed(c, np);
    DotsVisits(c, 0, bs);
    var next := 12 + RecLen(c, 12);
    PatchReads(c, 12, Enc32(np));
    PatchApart(c, 12, Enc32(np), 0, 12);
    PatchApart(c, 12, Enc32(np), 16, 6);
    HeadOf(c, e, 0, 9);
    HeadOf(c, e, 16, 6);
    Le32Of(e, 12, np);
    TiledStep(c, 0, bs);
    TiledStep(c, 12, bs);
    TiledStep(e, 0, bs);
    TiledStep(e, 12, bs);
    TiledOfSuffix(c, e, next, bs);
    ListingOfSuffix(c, e, next);
    ListingStep(c, 0);
    ListingStep(c, 12);
    ListingStep(e, 0);
    ListingStep(e, 12);
    assert e[HEADER..9] == c[HEADER..9] && e[20..22] == c[20..22];
    Regroup(LiveAt(c, 0), LiveAt(c, 12), Listing(c, next));
    Regroup(LiveAt(e, 0), LiveAt(e, 12), Listing(c, next));
  }

  lemma HeadOf(c: seq<Byte>, e: seq<Byte>, p: nat, n: nat)
    requires |e| == |c| && p + n <= |c| && e[p..p + n] == c[p..p + n]
    ensures forall i :: p <= i < p + n ==> e[i] == c[i]
  {
    forall i | p <= i < p + n ensures e[i] == c[i] {
      assert e[i] == e[p..p + n][i - p] && c[i] == c[p..p + n][i - p];
    }
  }

  lemma Le32Of(e: seq<Byte>, p: nat, x: Word32)
    requires p + 4 <= |e| && e[p..p + 4] == Enc32(x)
    ensures Le32(e, p) == x
  {
    var w := Enc32(x);
    assert e[p] == w[0] && e[p + 1] == w[1] && e[p + 2] == w[2] && e[p + 3] == w[3] by { HeadAt(e, p, w); }
  }

  lemma HeadAt(e: seq<Byte>, p: nat, w: seq<Byte>)
    requires p + |w| <= |e| && e[p..p + |w|] == w
    ensures forall i :: 0 <= i < |w| ==> e[p + i] == w[i]
  {
    forall i | 0 <= i < |w| ensures e[p + i] == w[i] { assert e[p..p + |w|][i] == w[i]; }
  }

  lemma ReparentSound(v: Vol, d: nat, np: Word32)
    requires Sound(v) && Live(v, d) && np != 0
    ensures var w := Reparent(v, d, np); Sound(w) && w.inodes == v.inodes && w.live == v.live
  {
    hide Owned, DotsAt, Tiled, Untouched;
    SoundSizes(v);
    SelfPut(v, d);
    var n := GetInode(v, d);
    FirstBlockData(v, d);
    var b := Lookup(v, n, 0);
    if n.size >= 12 && b != 0 {
      DirStored(v, d, n, 0, Repointed(v.data[b], np)) by { assert Editing(v, d, n) by { SoundOwned(v); } }
      var w := Reparent(v, d, np);
      SelfPut(w, d);
      if IsDir(n) { RepointedReads(v.data[b], np, v.geo.blockSize); }
      assert v.inodes[d - 1 := n] == v.inodes;
      SoundAfter(v, w, d);
    }
  }

  ghost predicate NamesInode(v: Vol, parent: nat, name: seq<Byte>)
    requires v.geo.Sizes()
  {
    match DirLookup(v, parent, name)
    case Absent => true
    case Present(rec) => Live(v, rec.ino)
  }

  function Rename(v: Vol, op: nat, oldName: seq<Byte>, np: nat, newName: seq<Byte>): Done
    requires Parent(v, op) && Parent(v, np) && Nameable(newName) && NamesInode(v, op, oldName)
  {
    SoundReady(v, op);
    SoundReady(v, np);
    if newName == DOT || newName == DOTDOT then Done(false, v)
    else if op == np && oldName == newName then Done(true, v)
    else
      match DirLookup(v, op, oldName)
      case Absent => Done(false, v)
      case Present(rec) =>
        if DirLookup(v, np, newName) != Absent then Done(false, v)
        else
          InodeIsWord(v, rec.ino);
          AddSound(v, np, newName, rec.ino, rec.kind);
          var a := AddEntry(v, np, newName, rec.ino, rec.kind);
          if !a.ok then Done(false, a.v)
          else
            RemoveSound(a.v, op, oldName);
            var r := RemoveEntry(a.v, op, oldName);
            if !r.ok then Done(false, r.v)
            else if rec.kind != KIND_DIR || op == np then Done(true, r.v)
            else
              RelinkSound(r.v, op, np, rec.ino);
              Done(true, Relink(r.v, op, np, rec.ino))
  }

  /** Both parents' link counts and the moved directory's ".." brought up to date. */
  function Relink(v: Vol, op: nat, np: nat, d: nat): Vol
    requires Sound(v) && Live(v, op) && Live(v, np) && Live(v, d) && op != np
  {
    RelinkSteps(v, op, np);
    InodeIsWord(v, np);
    var u := PutInode(v, op, LinksDown(GetInode(v, op)));
    Reparent(PutInode(u, np, LinksUp(GetInode(u, np))), d, np)
  }

  lemma RelinkSteps(v: Vol, op: nat, np: nat)
    requires Sound(v) && Live(v, op) && Live(v, np)
    ensures var u := PutInode(v, op, LinksDown(GetInode(v, op)));
            Sound(u) && Live(u, np) && Sound(PutInode(u, np, LinksUp(GetInode(u, np))))
  {
    hide Sound;
    SameMapSound(v, op, LinksDown(GetInode(v, op)));
    var u := PutInode(v, op, LinksDown(GetInode(v, op)));
    SameMapSound(u, np, LinksUp(GetInode(u, np)));
  }

  lemma RelinkSound(v: Vol, op: nat, np: nat, d: nat)
    requires Sound(v) && Live(v, op) && Live(v, np) && Live(v, d) && op != np
    ensures Sound(Relink(v, op, np, d))
  {
    hide Sound, Reparent;
    RelinkSteps(v, op, np);
    InodeIsWord(v, np) by { SoundSizes(v); }
    var u := PutInode(v, op, LinksDown(GetInode(v, op)));
    ReparentSound(PutInode(u, np, LinksUp(GetInode(u, np))), d, np);
  }
}
