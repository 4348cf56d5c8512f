/** Directory entries on a volume: ext2_add_dir_entry, ext2_dir_lookup and ext2_remove_dir_entry. */
module DirOps {
  import opened Bytes
  import opened InodeCodec
  import opened VolumeState
  import opened BlockMap
  import opened FileMap
  import opened FileData
  import opened FileTheorems
  import opened DirRecords
  import opened DirData

  datatype Done = Done(ok: bool, v: Vol)

  /** Stack buffer entries for a pointer table in ext2_add_dir_entry. */
  const TABLE_BUFFER: nat := 1024

  /** Blocks the directory counts as its own; the index the next appended block gets. */
  function BlockCount(v: Vol, n: Inode): nat
    requires v.geo.Sizes()
  {
    n.blocks / SectorsPerBlock(v)
  }

  /** The inode after one more block, ending at byte end. */
  function Grow(v: Vol, n: Inode, end: nat): Inode {
    Counted(v, n).(size := (end + v.geo.blockSize) % 0x1_0000_0000)
  }

  /** Block b entered into the map of n at the index the block count gives; past the table it is lost. */
  function HangAt(v: Vol, ino: nat, n: Inode, b: Word32, end: nat): Vol
    requires TableReady(v, n) && InodeNumber(v, ino)
    requires BlockCount(v, n) >= DIRECT ==> n.block[12] != 0
  {
    if BlockCount(v, n) < DIRECT then PutInode(v, ino, Grow(v, WithPtr(n, BlockCount(v, n), b), end))
    else if BlockCount(v, n) - DIRECT < PerTable(v) then
      PutInode(SetEntry(v, n.block[12], BlockCount(v, n) - DIRECT, b), ino, Grow(v, n, end))
    else PutInode(v, ino, Grow(v, n, end))
  }

  /** Block b, already filled, hung into the directory as its next block; a missing table is made first. */
  function HangBlock(v: Vol, ino: nat, b: Word32, end: nat): Done
    requires Owned(v) && Live(v, ino) && BlockCount(v, GetInode(v, ino)) < DIRECT + TABLE_BUFFER
  {
    SelfPut(v, ino);
    TableGrown(v, GetInode(v, ino), ino);
    TableAfter(v, GetInode(v, ino));
    var t := EnsureTable(v, GetInode(v, ino));
    if BlockCount(v, GetInode(v, ino)) < DIRECT then Done(true, HangAt(v, ino, GetInode(v, ino), b, end))
    else if t.phys == 0 then Done(false, v)
    else Done(true, HangAt(t.v, ino, t.n, b, end))
  }

  /** A fresh block holding the one record, appended to the directory. */
  function Append(v: Vol, ino: nat, end: nat, name: seq<Byte>, child: Word32, kind: Byte): Done
    requires Owned(v) && Live(v, ino) && BlockCount(v, GetInode(v, ino)) < DIRECT + TABLE_BUFFER && Nameable(name)
  {
    LowestFreeIsData(v);
    var b := LowestFree(v);
    if b == 0 then Done(false, v)
    else
      FilledOwned(v, b, FreshBlock(v.geo.blockSize, child, name, kind));
      HangBlock(Filled(v, b, FreshBlock(v.geo.blockSize, child, name, kind)), ino, b, end)
  }

  /** A free block taken and written. */
  function Filled(v: Vol, b: nat, c: Block): Vol
    requires b < |v.data|
  {
    PutBlock(Take(v, b), b, c)
  }

  lemma FilledOwned(v: Vol, b: nat, c: Block)
    requires Owned(v) && v.geo.IsData(b) && b !in v.used && |c| == v.geo.blockSize
    ensures var w := Filled(v, b, c);
            Owned(w) && Unowned(w, b) && b in w.used && w.inodes == v.inodes && w.live == v.live && w.geo == v.geo
            && (forall i, loc :: Live(v, i) ==> P(w, i, loc) == P(v, i, loc))
            && (forall c :: 0 <= c < |v.data| && c != b ==> w.data[c] == v.data[c])
  {
    var w := Filled(v, b, c);
    FreeIsUnowned(v, b);
    WriteMovesNothing(v, b, c);
    var m := PutBlock(v, b, c);
    forall i, loc | Live(v, i) ensures P(w, i, loc) == P(m, i, loc) {
      PtrOfData(m, w, GetInode(v, i), loc);
    }
    forall i | Live(w, i) && i !in w.geo.reserved && P(w, i, Single) == 0 ensures P(w, i, Double) == 0 && P(w, i, Triple) == 0 {
      assert P(v, i, Single) == 0;
    }
    assert forall i, loc :: Live(w, i) ==> Moved(v, w, 0, Single, 0, i, loc);
    assert forall i, loc :: Live(w, i) && P(w, i, loc) != 0 ==> P(w, i, loc) == P(v, i, loc);
    OwnedAfter(v, w, 0, Single, 0);
  }

  /** The directory found at its inode number; other inodes may always be there. */
  ghost predicate DirReady(v: Vol, ino: nat) {
    Owned(v) && Live(v, ino) && (IsDir(GetInode(v, ino)) ==> BlocksTiled(v, GetInode(v, ino)))
  }

  function AddEntry(v: Vol, ino: nat, name: seq<Byte>, child: Word32, kind: Byte): Done
    requires DirReady(v, ino) && Nameable(name) && child != 0
    requires BlockCount(v, GetInode(v, ino)) < DIRECT + TABLE_BUFFER
  {
    if !IsDir(GetInode(v, ino)) then Done(false, v)
    else
      match FirstFit(DirBytes(v, GetInode(v, ino)), GetInode(v, ino).size, Padded(|name|), 0)
      case Hole => Done(false, v)
      case AtEnd(p) => Append(v, ino, RoundUp(p, v.geo.blockSize), name, child, kind)
      case Slot(p) =>
        SlotWritten(v, ino, name, child, kind, p);
        Done(true, WriteDirBlock(v, GetInode(v, ino),
                                 Split(DirBytes(v, GetInode(v, ino)), p, child, name, kind), p))
  }

  lemma SplitIsOneBlock(d: seq<Byte>, p: nat, bs: nat, child: Word32, name: seq<Byte>, kind: Byte)
    requires BlockSize(bs) && p < |d| && Tiled(d, p, bs) && Aligned(|d|, bs)
    requires p + HEADER <= |d| && p + RecLen(d, p) <= |d| && Nameable(name) && Slack(d, p) >= Padded(|name|)
    ensures OneBlockEdit(d, Split(d, p, child, name, kind), p, bs)
  {
    SpanInBlock(p, RecLen(d, p), bs);
  }

  lemma SpanInBlock(p: nat, len: nat, bs: nat)
    requires BlockSize(bs) && InBlock(p, bs) + len <= bs
    ensures Base(p, bs) <= p && p + len <= Base(p, bs) + bs
  {}

  /** The slack-split case: where the record goes is in range, and the result is the split directory. */
  lemma SlotWritten(v: Vol, ino: nat, name: seq<Byte>, child: Word32, kind: Byte, p: nat)
    requires DirReady(v, ino) && IsDir(GetInode(v, ino)) && Nameable(name) && child != 0
    requires FirstFit(DirBytes(v, GetInode(v, ino)), GetInode(v, ino).size, Padded(|name|), 0) == Slot(p)
    ensures var n, bs := GetInode(v, ino), v.geo.blockSize;
            var d := DirBytes(v, n);
            BlockSize(bs) && Tiled(d, 0, bs) && Visits(d, 0, p) && p < |d| && p < n.size && p + HEADER <= |d|
            && p + RecLen(d, p) <= |d| && Slack(d, p) >= Padded(|name|)
            && Base(p, bs) + bs <= |d| && Lookup(v, n, p / bs) < |v.data| &&
            var e := Split(d, p, child, name, kind);
            Tiled(e, 0, bs) && InsertedAt(Listing(d, 0), Listing(e, 0), |Before(d, 0, p)| + |LiveAt(d, p)|, Rec(child, name, kind))
            && var w := WriteDirBlock(v, n, e, p);
               Owned(w) && Untouched(v, w, ino) && w.inodes == v.inodes && DirBytes(w, n) == e && BlocksTiled(w, n)
               && (forall l: nat :: Lookup(w, n, l) == Lookup(v, n, l))
  {
    hide Owned, Ptr, PlaceOf, Untouched, Lookup, ReadEnd, Tiled, ByteAt, Aligned, Base, Listing, Split, Before, LiveAt,
         RecLen, Slack, InsertedAt, OneBlockEdit;
    var n, bs := GetInode(v, ino), v.geo.blockSize;
    SelfPut(v, ino);
    SizesBlock(v, ino, n);
    var d := DirBytes(v, n);
    DirTiled(v, ino, n);
    FirstFitFinds(d, n.size, Padded(|name|), 0, bs);
    TiledFrom(d, 0, p, bs);
    SplitInserts(d, p, bs, child, name, kind);
    var e := Split(d, p, child, name, kind);
    SplitIsOneBlock(d, p, bs, child, name, kind);
    DirWritten(v, ino, n, e, p);
    var w := WriteDirBlock(v, n, e, p);
    SelfPut(w, ino);
  }

  // ---------------------------------------------------------------- appending a block

  /** The inode's map gained block b at logical index k (if that index can be stored), its contents kept. */
  ghost predicate Hung(v: Vol, n: Inode, w: Vol, m: Inode, k: nat, b: nat)
    requires v.geo.Sizes() && w.geo == v.geo
  {
    && (forall l: nat :: Lookup(w, m, l) == if l == k && k < DIRECT + PerTable(v) then b else Lookup(v, n, l))
    && (forall l: nat :: Lookup(v, n, l) != 0 ==> Content(w, Lookup(v, n, l)) == Content(v, Lookup(v, n, l)))
    && Content(w, b) == Content(v, b)
  }

  ghost predicate Hangable(v: Vol, ino: nat, b: nat) {
    && Owned(v) && Live(v, ino) && BlockCount(v, GetInode(v, ino)) < DIRECT + TABLE_BUFFER
    && b != 0 && v.geo.IsData(b) && b in v.used && Unowned(v, b) && b < 0x1_0000_0000
  }

  lemma HungByMove(v: Vol, w: Vol, ino: nat, k: nat, b: nat)
    requires Owned(v) && Live(v, ino) && w.geo == v.geo && k < DIRECT + PerTable(v)
    requires OnlyMoved(v, w, ino, PlaceOf(PerTable(v), k), b) && Content(w, b) == Content(v, b)
    requires forall i, loc :: Live(v, i) && HoldsData(loc) && P(v, i, loc) != 0 ==>
               Content(w, P(v, i, loc)) == Content(v, P(v, i, loc))
    ensures Untouched(v, w, ino) && Hung(v, GetInode(v, ino), w, GetInode(w, ino), k, b)
  {
    var n, m := GetInode(v, ino), GetInode(w, ino);
    DataPlace(PerTable(v), k);
    forall l: nat ensures Lookup(w, m, l) == if l == k then b else Lookup(v, n, l) {
      if l != k { PlacesDistinct(PerTable(v), l, k); }
      assert P(w, ino, PlaceOf(PerTable(v), l)) == Lookup(w, m, l);
      assert P(v, ino, PlaceOf(PerTable(v), l)) == Lookup(v, n, l);
    }
    forall l: nat | Lookup(v, n, l) != 0 ensures Content(w, Lookup(v, n, l)) == Content(v, Lookup(v, n, l)) {
      DataPlace(PerTable(v), l);
      assert P(v, ino, PlaceOf(PerTable(v), l)) == Lookup(v, n, l);
    }
  }

  /** What hanging a block into a directory comes to, in all three cases. */
  ghost predicate HangEffect(v: Vol, ino: nat, b: nat, end: nat, r: Done)
    requires v.geo.Sizes() && InodeNumber(v, ino)
  {
    && Owned(r.v) && r.v.live == v.live && r.v.geo == v.geo && |r.v.inodes| == |v.inodes|
    && Untouched(v, r.v, ino)
    && (!r.ok ==> r.v == v)
    && r.v.inodes == v.inodes[ino - 1 := GetInode(r.v, ino)]
    && (r.ok ==>
         var n, m := GetInode(v, ino), GetInode(r.v, ino);
         Hung(v, n, r.v, m, BlockCount(v, n), b)
         && m == n.(block := m.block, blocks := (n.blocks + SectorsPerBlock(v)) % 0x1_0000_0000,
                    size := (end + v.geo.blockSize) % 0x1_0000_0000))
  }

  lemma HangDirect(v: Vol, ino: nat, b: nat, end: nat)
    requires Hangable(v, ino, b) && BlockCount(v, GetInode(v, ino)) < DIRECT
    ensures HangEffect(v, ino, b, end, HangBlock(v, ino, b, end))
  {
    var w, n, k := HangBlock(v, ino, b, end).v, GetInode(v, ino), BlockCount(v, GetInode(v, ino));
    AttachDirect(v, ino, k, b, Grow(v, WithPtr(n, k, b), end));
    assert w == PutInode(Take(v, b), ino, Grow(v, WithPtr(n, k, b), end));
    hide Owned, Hung;
    HungByMove(v, w, ino, k, b);
  }

  lemma HangInTable(v: Vol, ino: nat, b: nat, end: nat)
    requires Hangable(v, ino, b) && BlockCount(v, GetInode(v, ino)) >= DIRECT
    requires GetInode(v, ino).block[12] != 0
    ensures TableReady(v, GetInode(v, ino))
    ensures HangEffect(v, ino, b, end, Done(true, HangAt(v, ino, GetInode(v, ino), b, end)))
  {
    SelfPut(v, ino);
    TableGrown(v, GetInode(v, ino), ino);
    if BlockCount(v, GetInode(v, ino)) - DIRECT < PerTable(v) {
      HangStored(v, ino, b, end);
    } else {
      HangLost(v, ino, b, end);
    }
  }

  lemma HangStored(v: Vol, ino: nat, b: nat, end: nat)
    requires Hangable(v, ino, b) && GetInode(v, ino).block[12] != 0 && TableReady(v, GetInode(v, ino))
    requires DIRECT <= BlockCount(v, GetInode(v, ino)) < DIRECT + PerTable(v)
    ensures HangEffect(v, ino, b, end, Done(true, HangAt(v, ino, GetInode(v, ino), b, end)))
  {
    hide Allocated, Exclusive, Chained, Geometry.MetaReserved, Geometry.MetaApart, Geometry.Totals, Hung;
    var n := GetInode(v, ino);
    var k, m, w := BlockCount(v, n), Grow(v, n, end), HangAt(v, ino, n, b, end);
    SinglePtr(v, ino);
    AttachEntry(v, ino, k - DIRECT, b, m);
    assert w == PutInode(SetEntry(Take(v, b), n.block[12], k - DIRECT, b), ino, m);
    DataUnchanged(v, w, ino);
    assert P(v, ino, Single) != b;
    HungByMove(v, w, ino, k, b);
  }

  lemma HangLost(v: Vol, ino: nat, b: nat, end: nat)
    requires Hangable(v, ino, b) && GetInode(v, ino).block[12] != 0 && TableReady(v, GetInode(v, ino))
    requires BlockCount(v, GetInode(v, ino)) >= DIRECT + PerTable(v)
    ensures HangEffect(v, ino, b, end, Done(true, HangAt(v, ino, GetInode(v, ino), b, end)))
  {
    hide Allocated, Exclusive, Chained, Geometry.MetaReserved, Geometry.MetaApart, Geometry.Totals, Hung;
    var n := GetInode(v, ino);
    var m := Grow(v, n, end);
    SelfPut(v, ino);
    SameMapOwned(v, ino, n, m);
    NotHung(v, ino, m, BlockCount(v, n), b);
  }

  /** An index past the table is dropped: nothing new is mapped. */
  lemma NotHung(v: Vol, ino: nat, m: Inode, k: nat, b: nat)
    requires Owned(v) && Live(v, ino) && m.block == GetInode(v, ino).block && k >= DIRECT + PerTable(v)
    ensures Untouched(v, PutInode(v, ino, m), ino) && Hung(v, GetInode(v, ino), PutInode(v, ino, m), m, k, b)
  {
    var w := PutInode(v, ino, m);
    forall i, loc | Live(v, i) ensures P(w, i, loc) == P(v, i, loc) { PtrOfData(v, w, GetInode(v, i), loc); }
    forall l: nat ensures Lookup(w, m, l) == Lookup(v, GetInode(v, ino), l) {
      PtrOfData(v, w, m, PlaceOf(PerTable(v), l));
    }
  }

  lemma NewTableHangable(v: Vol, ino: nat, b: nat)
    requires Hangable(v, ino, b) && GetInode(v, ino).block[12] == 0 && EnsureTable(v, GetInode(v, ino)).phys != 0
    ensures var t := EnsureTable(v, GetInode(v, ino));
            InodeNumber(t.v, ino) && TableReady(t.v, t.n) && t.n.block[12] != 0 &&
            t.n == GetInode(v, ino).(block := t.n.block) && t.v.inodes == v.inodes && t.v.live == v.live && t.v.geo == v.geo
            && var m := PutInode(t.v, ino, t.n);
            Hangable(m, ino, b) && GrowsAt(v, m, ino, Single) && Content(m, b) == Content(v, b)
  {
    SelfPut(v, ino);
    TableGrown(v, GetInode(v, ino), ino);
    TableAfter(v, GetInode(v, ino));
    LowestFreeIsData(v);
    var t := EnsureTable(v, GetInode(v, ino));
    var m := PutInode(t.v, ino, t.n);
    assert m.data == v.data[t.phys := ZeroBlock(v.geo.blockSize)] && t.phys !in v.used;
    forall i, loc | Live(m, i) ensures P(m, i, loc) != b {
      assert i == ino && loc == Single ==> P(m, i, loc) == t.phys;
    }
  }

  lemma HangNewTable(v: Vol, ino: nat, b: nat, end: nat)
    requires Hangable(v, ino, b) && BlockCount(v, GetInode(v, ino)) >= DIRECT
    requires GetInode(v, ino).block[12] == 0 && EnsureTable(v, GetInode(v, ino)).phys != 0
    ensures HangEffect(v, ino, b, end, HangBlock(v, ino, b, end))
  {
    hide Allocated, Exclusive, Chained, Geometry.MetaReserved, Geometry.MetaApart, Geometry.Totals, Hung, HangAt, EnsureTable,
         GrowsAt, Untouched, Unowned, BlocksSized, MetaUsed;
    NewTableHangable(v, ino, b);
    var t := EnsureTable(v, GetInode(v, ino));
    var m := PutInode(t.v, ino, t.n);
    HangInTable(m, ino, b, end);
    SameHang(t.v, ino, t.n, b, end);
    HangComposes(v, m, HangAt(m, ino, t.n, b, end), ino, BlockCount(v, GetInode(v, ino)), b);
    var w := HangAt(m, ino, t.n, b, end);
    assert m.inodes[ino - 1 := GetInode(w, ino)] == v.inodes[ino - 1 := GetInode(w, ino)];
  }

  lemma SameHang(v: Vol, ino: nat, n: Inode, b: Word32, end: nat)
    requires TableReady(v, n) && InodeNumber(v, ino) && BlockCount(v, n) >= DIRECT && n.block[12] != 0
    ensures TableReady(PutInode(v, ino, n), n)
    ensures HangAt(PutInode(v, ino, n), ino, n, b, end) == HangAt(v, ino, n, b, end)
  {
    hide AsPtrs, FromPtrs, Geometry.MetaReserved, Geometry.MetaApart, Geometry.Totals;
    var x := Grow(v, n, end);
    assert v.inodes[ino - 1 := n][ino - 1 := x] == v.inodes[ino - 1 := x];
  }

  lemma HangComposes(v: Vol, m: Vol, w: Vol, ino: nat, k: nat, b: nat)
    requires Owned(v) && Live(v, ino) && GrowsAt(v, m, ino, Single) && w.geo == v.geo && |w.inodes| == |v.inodes|
    requires Content(m, b) == Content(v, b) && Untouched(m, w, ino)
    requires Hung(m, GetInode(m, ino), w, GetInode(w, ino), k, b)
    ensures Untouched(v, w, ino) && Hung(v, GetInode(v, ino), w, GetInode(w, ino), k, b)
  {
    hide Owned;
    GrownIsUntouched(v, m, ino);
    UntouchedTwice(v, m, w, ino);
    HungTwice(v, m, w, ino, k, b);
  }

  lemma GrownIsUntouched(v: Vol, w: Vol, ino: nat)
    requires GrownFrom(v, w, ino)
    ensures Untouched(v, w, ino)
  {}

  lemma HungTwice(v: Vol, m: Vol, w: Vol, ino: nat, k: nat, b: nat)
    requires Owned(v) && Live(v, ino) && GrowsAt(v, m, ino, Single) && w.geo == v.geo && |w.inodes| == |v.inodes|
    requires Content(m, b) == Content(v, b)
    requires Hung(m, GetInode(m, ino), w, GetInode(w, ino), k, b)
    ensures Hung(v, GetInode(v, ino), w, GetInode(w, ino), k, b)
  {
    forall l: nat
      ensures Lookup(m, GetInode(m, ino), l) == Lookup(v, GetInode(v, ino), l)
      ensures Lookup(v, GetInode(v, ino), l) != 0 ==>
                Content(m, Lookup(v, GetInode(v, ino), l)) == Content(v, Lookup(v, GetInode(v, ino), l))
    {
      var at := PlaceOf(PerTable(v), l);
      DataPlace(PerTable(v), l);
      assert P(m, ino, at) == P(v, ino, at) == Lookup(v, GetInode(v, ino), l);
    }
  }

  lemma HangsBlock(v: Vol, ino: nat, b: nat, end: nat)
    requires Hangable(v, ino, b)
    ensures HangEffect(v, ino, b, end, HangBlock(v, ino, b, end))
  {
    hide Owned, Untouched, Hung, HangBlock, Shape;
    HangableSizes(v, ino, b);
    var n := GetInode(v, ino);
    if BlockCount(v, n) < DIRECT {
      HangDirect(v, ino, b, end);
    } else if n.block[12] != 0 {
      HangInTable(v, ino, b, end);
      HasTable(v, ino, b, end);
    } else if EnsureTable(v, n).phys != 0 {
      HangNewTable(v, ino, b, end);
    } else {
      HangFails(v, ino, b, end);
    }
  }

  lemma HangableSizes(v: Vol, ino: nat, b: nat)
    requires Hangable(v, ino, b)
    ensures v.geo.Sizes() && InodeNumber(v, ino) && Shape(v)
  {}

  lemma HasTable(v: Vol, ino: nat, b: nat, end: nat)
    requires Hangable(v, ino, b) && BlockCount(v, GetInode(v, ino)) >= DIRECT && GetInode(v, ino).block[12] != 0
    requires TableReady(v, GetInode(v, ino))
    ensures HangBlock(v, ino, b, end) == Done(true, HangAt(v, ino, GetInode(v, ino), b, end))
  {}

  lemma HangFails(v: Vol, ino: nat, b: nat, end: nat)
    requires Hangable(v, ino, b) && BlockCount(v, GetInode(v, ino)) >= DIRECT
    requires GetInode(v, ino).block[12] == 0 && EnsureTable(v, GetInode(v, ino)).phys == 0
    ensures HangEffect(v, ino, b, end, HangBlock(v, ino, b, end))
  {
    SelfPut(v, ino);
    TableGrown(v, GetInode(v, ino), ino);
    TableAfter(v, GetInode(v, ino));
  }

  // ---------------------------------------------------------------- adding an entry

  /** Whatever a directory operation does to inode ino, everything else about the volume stays. */
  ghost predicate DirKeeps(v: Vol, w: Vol, ino: nat)
    requires InodeNumber(v, ino)
  {
    && Owned(w) && w.live == v.live && w.geo == v.geo && |w.inodes| == |v.inodes|
    && w.inodes == v.inodes[ino - 1 := GetInode(w, ino)]
    && Untouched(v, w, ino)
    && (var n, m := GetInode(v, ino), GetInode(w, ino); m == n.(block := m.block, blocks := m.blocks, size := m.size))
  }

  /** m maps what n mapped, with the same contents, and block b holding c at index k if the index can be stored. */
  ghost predicate Extended(v: Vol, n: Inode, w: Vol, m: Inode, k: nat, b: nat, c: Block)
    requires v.geo.Sizes() && w.geo == v.geo
  {
    && (forall l: nat :: Lookup(w, m, l) == if l == k && k < DIRECT + PerTable(v) then b else Lookup(v, n, l))
    && (forall l: nat :: Lookup(v, n, l) != 0 ==> Content(w, Lookup(v, n, l)) == Content(v, Lookup(v, n, l)))
    && Content(w, b) == c
  }

  lemma FilledKeeps(v: Vol, ino: nat, b: nat, c: Block)
    requires Owned(v) && Live(v, ino) && v.geo.IsData(b) && b !in v.used && |c| == v.geo.blockSize
    ensures DirKeeps(v, Filled(v, b, c), ino)
    ensures forall l: nat :: Lookup(Filled(v, b, c), GetInode(v, ino), l) == Lookup(v, GetInode(v, ino), l)
    ensures forall l: nat :: Lookup(v, GetInode(v, ino), l) != 0 ==>
              Content(Filled(v, b, c), Lookup(v, GetInode(v, ino), l)) == Content(v, Lookup(v, GetInode(v, ino), l))
  {
    var w, n := Filled(v, b, c), GetInode(v, ino);
    FilledOwned(v, b, c);
    SelfPut(v, ino);
    forall i, loc | Live(v, i) && HoldsData(loc) && P(v, i, loc) != 0
      ensures Content(w, P(v, i, loc)) == Content(v, P(v, i, loc))
    {
      assert P(v, i, loc) in v.used;
    }
    forall l: nat
      ensures Lookup(w, n, l) == Lookup(v, n, l)
      ensures Lookup(v, n, l) != 0 ==> Content(w, Lookup(v, n, l)) == Content(v, Lookup(v, n, l))
    {
      DataPlace(PerTable(v), l);
      assert P(w, ino, PlaceOf(PerTable(v), l)) == P(v, ino, PlaceOf(PerTable(v), l)) == Lookup(v, n, l);
    }
  }

  lemma FreshTiled(bs: nat, ino: Word32, name: seq<Byte>, kind: Byte)
    requires BlockSize(bs) && Nameable(name) && ino != 0
    ensures Tiled(FreshBlock(bs, ino, name, kind), 0, bs)
  {
    AppendInserts([], 0, bs, ino, name, kind);
    assert [] + FreshBlock(bs, ino, name, kind) == FreshBlock(bs, ino, name, kind);
  }

  /** What Append does, with the block it got. */
  ghost predicate Appended(v: Vol, ino: nat, end: nat, c: Block, r: Done)
    requires v.geo.Sizes() && InodeNumber(v, ino)
  {
    && DirKeeps(v, r.v, ino)
    && var n, m, b := GetInode(v, ino), GetInode(r.v, ino), LowestFree(v);
       if r.ok then
         b != 0 && Extended(v, n, r.v, m, BlockCount(v, n), b, c)
         && m.size == (end + v.geo.blockSize) % 0x1_0000_0000
         && m.blocks == (n.blocks + SectorsPerBlock(v)) % 0x1_0000_0000
       else
         m == n && (forall l: nat :: Lookup(r.v, m, l) == Lookup(v, n, l))
         && (forall l: nat :: Lookup(v, n, l) != 0 ==> Content(r.v, Lookup(v, n, l)) == Content(v, Lookup(v, n, l)))
  }

  lemma AppendDoes(v: Vol, ino: nat, end: nat, name: seq<Byte>, child: Word32, kind: Byte)
    requires Owned(v) && Live(v, ino) && Nameable(name) && child != 0
    requires BlockCount(v, GetInode(v, ino)) < DIRECT + TABLE_BUFFER
    ensures Appended(v, ino, end, FreshBlock(v.geo.blockSize, child, name, kind), Append(v, ino, end, name, child, kind))
  {
    hide Allocated, Exclusive, Chained, Geometry.MetaReserved, Geometry.MetaApart, Geometry.Totals, Lookup, HangBlock,
         Filled, FreshBlock, Untouched, Unowned, MetaUsed, LowestFree;
    LowestFreeIsData(v);
    SelfPut(v, ino);
    var b, c := LowestFree(v), FreshBlock(v.geo.blockSize, child, name, kind);
    if b == 0 {
      UntouchedSelf(v, ino);
    } else {
      var u := Filled(v, b, c);
      FilledOwned(v, b, c);
      FilledKeeps(v, ino, b, c);
      FilledContent(v, b, c);
      HangsBlock(u, ino, b, end);
      UntouchedTwice(v, u, HangBlock(u, ino, b, end).v, ino);
    }
  }

  lemma FilledContent(v: Vol, b: nat, c: Block)
    requires b < |v.data|
    ensures Content(Filled(v, b, c), b) == c
  {}

  lemma UntouchedSelf(v: Vol, ino: nat)
    ensures Untouched(v, v, ino)
  {}

  lemma ExtendedTiled(v: Vol, n: Inode, w: Vol, m: Inode, k: nat, b: nat, c: Block)
    requires v.geo.Sizes() && w.geo == v.geo && Extended(v, n, w, m, k, b, c) && BlocksTiled(v, n)
    requires Tiled(c, 0, v.geo.blockSize)
    ensures BlocksTiled(w, m)
  {
    hide Tiled, Lookup;
    forall l: nat | Lookup(w, m, l) != 0 ensures Tiled(Content(w, Lookup(w, m, l)), 0, v.geo.blockSize) {
      if l == k && k < DIRECT + PerTable(v) {} else { assert Lookup(w, m, l) == Lookup(v, n, l); }
    }
  }

  function FitOf(v: Vol, ino: nat, name: seq<Byte>): Fit
    requires v.geo.Sizes() && InodeNumber(v, ino) && |name| < 256
  {
    FirstFit(DirBytes(v, GetInode(v, ino)), GetInode(v, ino).size, Padded(|name|), 0)
  }

  lemma AddSlotKeeps(v: Vol, ino: nat, name: seq<Byte>, child: Word32, kind: Byte, p: nat)
    requires DirReady(v, ino) && IsDir(GetInode(v, ino)) && Nameable(name) && child != 0
    requires BlockCount(v, GetInode(v, ino)) < DIRECT + TABLE_BUFFER && FitOf(v, ino, name) == Slot(p)
    ensures var r := AddEntry(v, ino, name, child, kind); DirKeeps(v, r.v, ino) && DirReady(r.v, ino)
  {
    hide Allocated, Exclusive, Chained, Geometry.MetaReserved, Geometry.MetaApart, Geometry.Totals, Lookup, Append, Tiled,
         Split, FirstFit, Untouched, BlocksTiled, MetaUsed, BlocksSized, DirBytes, Base, Slack, RecLen, Visits, Listing,
         InsertedAt, Before;
    SlotWritten(v, ino, name, child, kind, p);
    var r := AddEntry(v, ino, name, child, kind);
    assert v.inodes[ino - 1 := GetInode(r.v, ino)] == v.inodes;
  }

  lemma AddEndKeeps(v: Vol, ino: nat, name: seq<Byte>, child: Word32, kind: Byte, p: nat)
    requires DirReady(v, ino) && IsDir(GetInode(v, ino)) && Nameable(name) && child != 0
    requires BlockCount(v, GetInode(v, ino)) < DIRECT + TABLE_BUFFER && FitOf(v, ino, name) == AtEnd(p)
    ensures AddEntry(v, ino, name, child, kind) == Append(v, ino, RoundUp(p, v.geo.blockSize), name, child, kind)
    ensures var r := AddEntry(v, ino, name, child, kind);
            DirKeeps(v, r.v, ino) && DirReady(r.v, ino) &&
            Appended(v, ino, RoundUp(p, v.geo.blockSize), FreshBlock(v.geo.blockSize, child, name, kind), r)
  {
    hide Allocated, Exclusive, Chained, Geometry.MetaReserved, Geometry.MetaApart, Geometry.Totals, Lookup, Append, Tiled,
         WriteDirBlock, Split, FirstFit, Untouched, BlocksTiled, MetaUsed, BlocksSized, DirBytes, Extended, FreshBlock, RoundUp;
    var bs, r := v.geo.blockSize, AddEntry(v, ino, name, child, kind);
    AppendDoes(v, ino, RoundUp(p, bs), name, child, kind);
    FreshTiled(bs, child, name, kind);
    AppendedTiled(v, ino, RoundUp(p, bs), FreshBlock(bs, child, name, kind), r);
  }

  /** Adding an entry, successful or not, keeps ownership, tiling and every other inode. */
  lemma AddKeeps(v: Vol, ino: nat, name: seq<Byte>, child: Word32, kind: Byte)
    requires DirReady(v, ino) && Nameable(name) && child != 0
    requires BlockCount(v, GetInode(v, ino)) < DIRECT + TABLE_BUFFER
    ensures var r := AddEntry(v, ino, name, child, kind); DirKeeps(v, r.v, ino) && DirReady(r.v, ino)
  {
    hide Allocated, Exclusive, Chained, Geometry.MetaReserved, Geometry.MetaApart, Geometry.Totals, Lookup, Append, Tiled,
         WriteDirBlock, Split, FirstFit, Untouched, BlocksTiled, MetaUsed, BlocksSized, DirBytes, FreshBlock, RoundUp;
    UntouchedSelf(v, ino);
    assert v.inodes[ino - 1 := GetInode(v, ino)] == v.inodes;
    if IsDir(GetInode(v, ino)) {
      match FitOf(v, ino, name)
      case Hole =>
      case Slot(p) => AddSlotKeeps(v, ino, name, child, kind, p);
      case AtEnd(p) => AddEndKeeps(v, ino, name, child, kind, p);
    }
  }

  lemma AppendedTiled(v: Vol, ino: nat, end: nat, c: Block, r: Done)
    requires v.geo.Sizes() && InodeNumber(v, ino) && Appended(v, ino, end, c, r) && BlocksTiled(v, GetInode(v, ino))
    requires Tiled(c, 0, v.geo.blockSize)
    ensures BlocksTiled(r.v, GetInode(r.v, ino))
  {
    if r.ok {
      ExtendedTiled(v, GetInode(v, ino), r.v, GetInode(r.v, ino), BlockCount(v, GetInode(v, ino)), LowestFree(v), c);
    }
  }

  // ---------------------------------------------------------------- what adding means for the listing

  /** A directory as the kernel keeps it: whole blocks, all mapped, all tiled, and counted in inode->blocks. */
  ghost predicate WellFormedDir(v: Vol, ino: nat) {
    && DirReady(v, ino) && IsDir(GetInode(v, ino))
    && HoleFree(v, GetInode(v, ino)) && Aligned(GetInode(v, ino).size, v.geo.blockSize)
    && BlockCount(v, GetInode(v, ino)) == GetInode(v, ino).size / v.geo.blockSize
  }

  /** Without holes and with whole blocks, readers see exactly the bytes of the blocks. */
  lemma WholeDir(v: Vol, n: Inode)
    requires v.geo.Sizes() && HoleFree(v, n) && Aligned(n.size, v.geo.blockSize)
    ensures DirEnd(v, n) == n.size && |DirBytes(v, n)| == n.size && Visible(v, n) == DirBytes(v, n)
  {
    RoundUpAligned(n.size, v.geo.blockSize);
    ReadEndIsFirstHole(v, n, 0, RoundUp(n.size, v.geo.blockSize));
  }

  /** Splitting: the new record appears in the listing, right after the record that gave up its slack. */
  lemma AddBySplitInserts(v: Vol, ino: nat, name: seq<Byte>, child: Word32, kind: Byte, p: nat)
    requires WellFormedDir(v, ino) && Nameable(name) && child != 0
    requires BlockCount(v, GetInode(v, ino)) < DIRECT + TABLE_BUFFER && FitOf(v, ino, name) == Slot(p)
    ensures var r, n, d := AddEntry(v, ino, name, child, kind), GetInode(v, ino), DirBytes(v, GetInode(v, ino));
            r.ok && r.v.inodes == v.inodes && WellFormedDir(r.v, ino) && p + HEADER <= |d| &&
            InsertedAt(Entries(v, n), Entries(r.v, n), |Before(d, 0, p)| + |LiveAt(d, p)|, Rec(child, name, kind))
  {
    hide Allocated, Exclusive, Chained, Geometry.MetaReserved, Geometry.MetaApart, Geometry.Totals, Append, Tiled,
         Split, FirstFit, Untouched, BlocksTiled, MetaUsed, BlocksSized, DirBytes, Base, Slack, RecLen, Visits, Listing,
         InsertedAt, Before, LiveAt, ReadEnd, Lookup;
    SlotWritten(v, ino, name, child, kind, p);
    var r, n := AddEntry(v, ino, name, child, kind), GetInode(v, ino);
    assert forall x: nat :: MappedAt(r.v, n, x) == MappedAt(v, n, x) by { SameMapped(v, r.v, n); }
    WholeDir(v, n);
    WholeDir(r.v, n);
  }

  lemma SameMapped(v: Vol, w: Vol, n: Inode)
    requires v.geo.Sizes() && w.geo == v.geo && forall l: nat :: Lookup(w, n, l) == Lookup(v, n, l)
    ensures forall x: nat :: MappedAt(w, n, x) == MappedAt(v, n, x)
  {}

  /** Appending: the new record is the last of the listing, provided the block's index fits the single table. */
  lemma AddByAppendInserts(v: Vol, ino: nat, name: seq<Byte>, child: Word32, kind: Byte, p: nat)
    requires WellFormedDir(v, ino) && Nameable(name) && child != 0
    requires FitOf(v, ino, name) == AtEnd(p) && BlockCount(v, GetInode(v, ino)) < DIRECT + PerTable(v)
    requires GetInode(v, ino).size + v.geo.blockSize < 0x1_0000_0000
    requires AddEntry(v, ino, name, child, kind).ok
    ensures var r, n := AddEntry(v, ino, name, child, kind), GetInode(v, ino);
            WellFormedDir(r.v, ino) && Entries(r.v, GetInode(r.v, ino)) == Entries(v, n) + [Rec(child, name, kind)]
  {
    hide Allocated, Exclusive, Chained, Geometry.MetaReserved, Geometry.MetaApart, Geometry.Totals, Append, Tiled,
         FirstFit, Untouched, BlocksTiled, MetaUsed, BlocksSized, Slack, RecLen, Visits, Listing, AddEntry,
         Before, LiveAt, ReadEnd, Lookup, Extended, FreshBlock, RoundUp;
    var n, bs := GetInode(v, ino), v.geo.blockSize;
    SelfPut(v, ino);
    SizesBlock(v, ino, n);
    WholeDir(v, n);
    DirTiled(v, ino, n);
    FirstFitFinds(DirBytes(v, n), n.size, Padded(|name|), 0, bs);
    assert p == n.size;
    RoundUpAligned(p, bs);
    AddEndKeeps(v, ino, name, child, kind, p);
    var r, c := AddEntry(v, ino, name, child, kind), FreshBlock(bs, child, name, kind);
    var m := GetInode(r.v, ino);
    AppendedBytes(v, n, r.v, m, LowestFree(v), c);
    AppendInserts(DirBytes(v, n), 0, bs, child, name, kind);
    NextCount(n.blocks, SectorsPerBlock(v), n.size, bs);
    WholeDir(r.v, m);
  }

  lemma NextCount(blocks: nat, spb: nat, size: nat, bs: nat)
    requires BlockSize(bs) && spb == bs / 512 && Aligned(size, bs) && blocks / spb == size / bs && size + bs < 0x1_0000_0000
    ensures (blocks + spb) % 0x1_0000_0000 / spb == (size + bs) / bs && Aligned(size + bs, bs)
  {
    if bs == 1024 { assert spb == 2; } else { assert spb == 4; }
  }

  /** A directory one block longer reads as before, followed by that block. */
  lemma AppendedBytes(v: Vol, n: Inode, w: Vol, m: Inode, b: nat, c: Block)
    requires v.geo.Sizes() && w.geo == v.geo && HoleFree(v, n) && Aligned(n.size, v.geo.blockSize)
    requires n.size / v.geo.blockSize < DIRECT + PerTable(v) && b != 0 && |c| == v.geo.blockSize
    requires Extended(v, n, w, m, n.size / v.geo.blockSize, b, c) && m.size == n.size + v.geo.blockSize
    ensures HoleFree(w, m) && DirBytes(w, m) == DirBytes(v, n) + c
  {
    hide Lookup, ReadEnd, Aligned;
    var bs := v.geo.blockSize;
    AlignedEnd(n.size, bs);
    forall x: nat | x < m.size
      ensures MappedAt(w, m, x) && ByteAt(w, m, x) == if x < n.size then ByteAt(v, n, x) else c[x - n.size]
    {
      if x < n.size {
        assert MappedAt(v, n, x);
        BlockBefore(x, n.size, bs);
      } else {
        SameBaseBlock(x, n.size, bs);
      }
    }
    WholeDir(v, n);
    WholeDir(w, m);
    assert |DirBytes(w, m)| == |DirBytes(v, n) + c|;
    forall x | 0 <= x < m.size ensures DirBytes(w, m)[x] == (DirBytes(v, n) + c)[x] {}
  }

  lemma AlignedEnd(size: nat, bs: nat)
    requires BlockSize(bs) && Aligned(size, bs)
    ensures Aligned(size + bs, bs)
  {}

  lemma BlockBefore(x: nat, size: nat, bs: nat)
    requires BlockSize(bs) && Aligned(size, bs) && x < size
    ensures x / bs != size / bs
  {}
}
