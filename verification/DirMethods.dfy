/** Adding and removing directory entries on the disk: the block walks of ext2_add_dir_entry and ext2_remove_dir_entry. */
module DirMethods {
  import opened Bytes
  import opened InodeCodec
  import opened VolumeState
  import opened BlockMap
  import opened FileMap
  import opened FileData
  import opened FileTheorems
  import opened DirRecords
  import opened DirData
  import opened DirOps
  import opened DirRemoval
  import opened Ext2Volume
  import opened FileMethods
  import opened DirScan

  // ---------------------------------------------------------------- one block of the directory

  /** The block of d that byte p lies in. */
  function BlockAt(d: seq<Byte>, p: nat, bs: nat): (r: seq<Byte>)
    requires BlockSize(bs) && Base(p, bs) + bs <= |d|
    ensures |r| == bs
  {
    d[Base(p, bs)..Base(p, bs) + bs]
  }

  /** The state of a block walk at offset p: the buffer holds the block of p, unless the walk is at its boundary. */
  ghost predicate Walking(d: seq<Byte>, p: nat, bs: nat, buf: seq<Byte>)
    requires BlockSize(bs)
  {
    && p <= |d| && Aligned(|d|, bs) && Tiled(d, p, bs)
    && (p % bs != 0 ==> Base(p, bs) + bs <= |d| && buf == BlockAt(d, p, bs))
  }

  /** At a block boundary the walk is at the end, or at a mapped block. */
  lemma WalkLoads(v: Vol, ino: nat, n: Inode, p: nat, buf: seq<Byte>)
    requires Editing(v, ino, n) && BlockSize(v.geo.blockSize) && Walking(DirBytes(v, n), p, v.geo.blockSize, buf)
    requires p < n.size
    ensures var d, bs, b := DirBytes(v, n), v.geo.blockSize, Lookup(v, n, p / v.geo.blockSize);
            if p % bs == 0 && b == 0 then p == |d|
            else p < |d| && Base(p, bs) + bs <= |d| && b != 0 && v.geo.IsData(b) && b < |v.data|
                 && BlockAt(d, p, bs) == v.data[b] && |v.data[b]| == bs
  {
    hide Owned, Tiled, Lookup, ReadEnd, ByteAt, Base, BlockAt, RoundUp;
    SizesBlock(v, ino, n);
    var d, bs := DirBytes(v, n), v.geo.blockSize;
    RoundUpAligned(n.size, bs);
    ReadEndIsFirstHole(v, n, 0, RoundUp(n.size, bs));
    if p < |d| {
      BaseFacts(p, bs);
      DirBlock(v, ino, n, Base(p, bs));
      LookupData(v, ino, n, p / bs);
      BlockAtIs(d, p, bs);
    }
  }

  lemma BlockAtIs(d: seq<Byte>, p: nat, bs: nat)
    requires BlockSize(bs) && Base(p, bs) + bs <= |d|
    ensures BlockAt(d, p, bs) == d[Base(p, bs)..Base(p, bs) + bs]
  {}

  /** The record at p read from the block buffer. */
  lemma WalkReads(d: seq<Byte>, p: nat, bs: nat)
    requires BlockSize(bs) && p < |d| && Base(p, bs) + bs <= |d| && Tiled(d, p, bs)
    ensures var b, q := BlockAt(d, p, bs), InBlock(p, bs);
            q + HEADER <= bs && p + HEADER <= |d| && RecLen(b, q) == RecLen(d, p) && NameLen(b, q) == NameLen(d, p)
            && Ino(b, q) == Ino(d, p) && Name(b, q) == Name(d, p) && |Name(d, p)| == NameLen(d, p)
            && q + RecLen(d, p) <= bs && RecLen(d, p) >= Padded(NameLen(d, p))
  {
    hide Ino, RecLen, NameLen, Padded;
    BaseFacts(p, bs);
    TiledStep(d, p, bs);
    SpanInBlock(p, RecLen(d, p), bs);
    assert p % bs == InBlock(p, bs);
    ChunkHead(d, Base(p, bs), Base(p, bs) + bs, p % bs);
    NameIsWhole(d, p);
  }

  lemma NameIsWhole(d: seq<Byte>, p: nat)
    requires p + HEADER <= |d| && p + HEADER + NameLen(d, p) <= |d|
    ensures |Name(d, p)| == NameLen(d, p)
  {}

  /** The walk after the record at p. */
  lemma WalkNext(d: seq<Byte>, p: nat, bs: nat)
    requires BlockSize(bs) && p < |d| && Base(p, bs) + bs <= |d| && Tiled(d, p, bs) && Aligned(|d|, bs)
    ensures p + HEADER <= |d| && RecLen(d, p) > 0 && Walking(d, p + RecLen(d, p), bs, BlockAt(d, p, bs))
  {
    hide RecLen, Tiled, Base, Padded, Ino, NameLen, Aligned, BlockAt;
    RecordBasics(d, p, bs);
    TiledStep(d, p, bs);
    BaseFacts(p, bs);
    var q := p + RecLen(d, p);
    SpanInBlock(p, RecLen(d, p), bs) by { assert InBlock(p, bs) + RecLen(d, p) <= bs; }
    if q % bs != 0 {
      SameBase(p, q, bs);
      BlockAtIs(d, p, bs);
      BlockAtIs(d, q, bs);
    }
    TiledWithin(d, q, bs);
  }

  lemma SameBase(p: nat, q: nat, bs: nat)
    requires BlockSize(bs) && p <= q <= Base(p, bs) + bs && q % bs != 0
    ensures Base(q, bs) == Base(p, bs)
  {
    if bs == 1024 {} else {}
  }

  // ---------------------------------------------------------------- ext2_add_dir_entry

  /** The two writes of a split: own is what the old record keeps, len what the new one gets. */
  function SplitAt(d: seq<Byte>, p: nat, own: Word16, len: Word16, child: Word32, name: seq<Byte>, kind: Byte): (r: seq<Byte>)
    requires p + 6 <= |d| && |name| < 256 && p + own + HEADER + |name| <= |d|
    ensures |r| == |d|
  {
    Patch(Patch(d, p + 4, Enc16(own)), p + own, Record(child, len, name, kind))
  }

  lemma SplitIs(d: seq<Byte>, p: nat, child: Word32, name: seq<Byte>, kind: Byte)
    requires Nameable(name) && p + HEADER <= |d| && p + RecLen(d, p) <= |d| && Slack(d, p) >= Padded(|name|)
    ensures |name| < 256 && Slack(d, p) < 0x1_0000 && Padded(NameLen(d, p)) < 0x1_0000
    ensures p + 6 <= |d| && p + Padded(NameLen(d, p)) + HEADER + |name| <= |d|
    ensures Split(d, p, child, name, kind) == SplitAt(d, p, Padded(NameLen(d, p)), Slack(d, p), child, name, kind)
  {}

  lemma SplitAtInBlock(d: seq<Byte>, p: nat, bs: nat, own: Word16, len: Word16, child: Word32, name: seq<Byte>, kind: Byte)
    requires BlockSize(bs) && Base(p, bs) + bs <= |d| && |name| < 256
    requires InBlock(p, bs) + 6 <= bs && InBlock(p, bs) + own + HEADER + |name| <= bs
    ensures p + 6 <= |d| && p + own + HEADER + |name| <= |d|
    ensures BlockAt(SplitAt(d, p, own, len, child, name, kind), p, bs)
            == SplitAt(BlockAt(d, p, bs), InBlock(p, bs), own, len, child, name, kind)
  {
    hide InBlock, Base, BlockAt, Patch, Record, Enc16;
    PatchInBlock(d, p, bs, 4, Enc16(own));
    PatchInBlock(Patch(d, p + 4, Enc16(own)), p, bs, own, Record(child, len, name, kind));
  }

  /** Splitting a record changes its block as the same split of the block buffer does. */
  lemma SplitInBlock(d: seq<Byte>, p: nat, bs: nat, child: Word32, name: seq<Byte>, kind: Byte)
    requires BlockSize(bs) && p < |d| && Base(p, bs) + bs <= |d| && Tiled(d, p, bs) && Nameable(name)
    requires p + HEADER <= |d| && Slack(d, p) >= Padded(|name|)
    ensures p + RecLen(d, p) <= |d| && InBlock(p, bs) + HEADER <= bs
    ensures var b, q := BlockAt(d, p, bs), InBlock(p, bs);
            q + RecLen(b, q) <= bs && Slack(b, q) == Slack(d, p) &&
            BlockAt(Split(d, p, child, name, kind), p, bs) == Split(b, q, child, name, kind)
  {
    assert bs > 0 && HEADER == 8;
    hide *;
    WalkReads(d, p, bs);
    FitsBlock(d, p, bs, RecLen(d, p));
    SlackIs(d, p);
    SlackIs(BlockAt(d, p, bs), InBlock(p, bs));
    SplitIs(d, p, child, name, kind);
    SplitIs(BlockAt(d, p, bs), InBlock(p, bs), child, name, kind);
    SplitAtInBlock(d, p, bs, Padded(NameLen(d, p)), Slack(d, p), child, name, kind);
  }

  lemma SlackIs(d: seq<Byte>, p: nat)
    requires p + 8 <= |d|
    ensures HEADER == 8 && Slack(d, p) == RecLen(d, p) - Padded(NameLen(d, p))
  {}

  lemma FitsBlock(d: seq<Byte>, p: nat, bs: nat, len: nat)
    requires BlockSize(bs) && Base(p, bs) + bs <= |d| && InBlock(p, bs) + len <= bs
    ensures p + len <= |d|
  {
    BaseFacts(p, bs);
  }

  /** A patch inside one block, seen from the block. */
  lemma PatchInBlock(d: seq<Byte>, p: nat, bs: nat, k: nat, w: seq<Byte>)
    requires BlockSize(bs) && Base(p, bs) + bs <= |d| && InBlock(p, bs) + k + |w| <= bs
    ensures p + k + |w| <= |d|
    ensures BlockAt(Patch(d, p + k, w), p, bs) == Patch(BlockAt(d, p, bs), InBlock(p, bs) + k, w)
  {
    hide Base, Patch;
    BaseFacts(p, bs);
    PatchShift(d, Base(p, bs), bs, InBlock(p, bs) + k, w);
  }

  lemma PatchShift(d: seq<Byte>, base: nat, bs: nat, q: nat, w: seq<Byte>)
    requires base + bs <= |d| && q + |w| <= bs
    ensures Patch(d, base + q, w)[base..base + bs] == Patch(d[base..base + bs], q, w)
  {}

  /** The hypothesis under which a directory may be given one more entry. */
  ghost predicate Addable(v: Vol, ino: nat) {
    DirReady(v, ino) && BlockCount(v, GetInode(v, ino)) < DIRECT + TABLE_BUFFER
  }

  /** A fresh block with the one record, hung into the directory at the index its block count gives. */
  method AppendEntryBlock(fs: Volume, dirIno: nat, n: Inode, end: nat, name: seq<Byte>, child: Word32, kind: Byte)
    returns (ok: bool)
    requires fs.Valid() && Addable(fs.View(), dirIno) && n == GetInode(fs.View(), dirIno)
    requires Nameable(name) && child != 0
    modifies fs
    ensures fs.Valid() && Done(ok, fs.View()) == Append(old(fs.View()), dirIno, end, name, child, kind)
  {
    hide Volume.View, Volume.Valid, Owned, BlocksTiled, FreshBlock, LowestFree, Hung, EnsureTable;
    ghost var v := fs.View();
    SizesOf(v) by { OwnedShape(v); }
    LowestFreeIsData(v) by { OwnedShape(v); }
    var got, b := fs.AllocBlock();
    if !got {
      return false;
    }
    var c := FreshBlock(fs.geo.blockSize, child, name, kind);
    var _ := fs.WriteBlock(b, c);
    ghost var u := fs.View();
    FilledOwned(v, b, c);
    assert u == Filled(v, b, c);
    ok := HangEntryBlock(fs, dirIno, n, end, b);
  }

  lemma OwnedShape(v: Vol)
    requires Owned(v)
    ensures Shape(v)
  {}

  /** Entry index of the table set to b; an index past the block is lost in the stack buffer. */
  method EnterPointer(fs: Volume, t: Word32, index: nat, b: Word32)
    requires fs.Valid() && t != 0 && fs.geo.IsData(t) && index < TABLE_BUFFER
    modifies fs
    ensures fs.Valid() && t < |old(fs.View()).data| && |old(fs.View()).data[t]| == fs.geo.blockSize
    ensures fs.View() == if index < PerTable(old(fs.View())) then SetEntry(old(fs.View()), t, index, b) else old(fs.View())
  {
    hide Volume.View, Volume.Valid, AsPtrs, FromPtrs, Geometry.MetaReserved, Geometry.MetaApart, Geometry.Totals;
    DataSized(fs.View(), t);
    SizesOf(fs.View());
    ghost var v := fs.View();
    var _, buf := fs.ReadBlock(t);
    var table := AsPtrs(buf);
    if index < |table| {
      buf := FromPtrs(table[index := b]);
    }
    var _ := fs.WriteBlock(t, buf);
    assert v.data[t := v.data[t]] == v.data;
  }

  lemma TableOnly(v: Vol, n: Inode)
    requires Shape(v)
    ensures var t := EnsureTable(v, n); t.n == n.(block := t.n.block) && (t.phys == 0 ==> t.v == v)
  {}

  method HangEntryBlock(fs: Volume, dirIno: nat, n: Inode, end: nat, b: Word32) returns (ok: bool)
    requires fs.Valid() && Owned(fs.View()) && Live(fs.View(), dirIno) && n == GetInode(fs.View(), dirIno)
    requires BlockCount(fs.View(), n) < DIRECT + TABLE_BUFFER
    modifies fs
    ensures fs.Valid() && Done(ok, fs.View()) == HangBlock(old(fs.View()), dirIno, b, end)
  {
    hide Volume.View, Volume.Valid, Owned, EnsureTable, Shape, AsPtrs, FromPtrs;
    ghost var v := fs.View();
    SelfPut(v, dirIno);
    InodeFits(v, dirIno);
    TableGrown(v, n, dirIno);
    TableAfter(v, n);
    TableOnly(v, n);
    SizesOf(v);
    var spb := fs.geo.blockSize / 512;
    var existing, m := n.blocks / spb, n;
    if existing < 12 {
      m := WithPtr(m, existing, b);
    } else {
      var got;
      got, m := EnsureTableBlock(fs, n);
      if !got {
        return false;
      }
      var index := existing - 12;
      EnterPointer(fs, m.block[12], existing - 12, b);
    }
    m := m.(blocks := (m.blocks + spb) % 0x1_0000_0000, size := (end + fs.geo.blockSize) % 0x1_0000_0000);
    var _ := fs.WriteInode(dirIno, m);
    return true;
  }

  /** One round of the fit search, in the terms of the block buffer. */
  lemma FitStep(d: seq<Byte>, size: nat, need: nat, p: nat, bs: nat)
    requires BlockSize(bs) && p < size && p < |d| && Base(p, bs) + bs <= |d| && Tiled(d, p, bs)
    ensures var b, q := BlockAt(d, p, bs), InBlock(p, bs);
            q + HEADER <= bs && RecLen(b, q) > 0 && RecLen(b, q) >= Padded(NameLen(b, q)) && p + HEADER <= |d|
            && RecLen(b, q) == RecLen(d, p) && Slack(d, p) == RecLen(b, q) - Padded(NameLen(b, q))
            && FirstFit(d, size, need, p) ==
                 if RecLen(b, q) - Padded(NameLen(b, q)) >= need then Slot(p) else FirstFit(d, size, need, p + RecLen(b, q))
  {
    hide RecLen, NameLen, Padded, Base, BlockAt, Tiled;
    WalkReads(d, p, bs);
    RecordBasics(d, p, bs);
  }

  /** Where a walk that met a hole, or the end, stands in the fit search. */
  lemma FitEnds(d: seq<Byte>, size: nat, need: nat, p: nat)
    ensures p < size && p == |d| ==> FirstFit(d, size, need, p) == Hole
    ensures p >= size ==> FirstFit(d, size, need, p) == AtEnd(p)
  {}

  /** Where the slack was found: the buffered record and the block it is stored in. */
  ghost predicate SlotFound(v: Vol, ino: nat, n: Inode, name: seq<Byte>, p: nat, buf: seq<Byte>)
    requires v.geo.Sizes() && InodeNumber(v, ino)
  {
    && n == GetInode(v, ino) && IsDir(n) && Nameable(name) && FitOf(v, ino, name) == Slot(p)
    && Base(p, v.geo.blockSize) + v.geo.blockSize <= |DirBytes(v, n)|
    && buf == BlockAt(DirBytes(v, n), p, v.geo.blockSize)
  }

  lemma SlotRoom(v: Vol, ino: nat, n: Inode, name: seq<Byte>, p: nat, buf: seq<Byte>)
    requires v.geo.Sizes() && InodeNumber(v, ino) && DirReady(v, ino) && SlotFound(v, ino, n, name, p, buf)
    ensures var q, b := p % v.geo.blockSize, Lookup(v, n, p / v.geo.blockSize);
            b != 0 && b < |v.data| && v.geo.IsData(b) && q + HEADER <= |buf| && q + RecLen(buf, q) <= |buf|
            && Slack(buf, q) >= Padded(|name|)
  {
    hide Owned, Tiled, Lookup, Split, Base, DirBytes, FirstFit, BlocksTiled, Visits, RecLen, NameLen, Padded, Before,
         Listing, LiveAt, Untouched, InsertedAt;
    var bs := v.geo.blockSize;
    SelfPut(v, ino);
    SlotWritten(v, ino, name, 1, 1, p);
    var d := DirBytes(v, n);
    TiledFrom(d, 0, p, bs);
    SplitInBlock(d, p, bs, 1, name, 1);
    BaseFacts(p, bs);
    DirBlock(v, ino, n, Base(p, bs));
    LookupData(v, ino, n, p / bs);
  }

  /** What adding an entry comes to when slack was found: the block rewritten to c. */
  lemma SplitStored(v: Vol, ino: nat, name: seq<Byte>, child: Word32, kind: Byte, p: nat, l: nat, c: Block)
    requires v.geo.Sizes() && l == p / v.geo.blockSize
    requires DirReady(v, ino) && IsDir(GetInode(v, ino)) && Nameable(name) && child != 0
    requires BlockCount(v, GetInode(v, ino)) < DIRECT + TABLE_BUFFER && FitOf(v, ino, name) == Slot(p)
    requires Lookup(v, GetInode(v, ino), l) < |v.data|
    requires SplitBlock(v, ino, name, child, kind, p, c)
    ensures AddEntry(v, ino, name, child, kind) == Done(true, PutBlock(v, Lookup(v, GetInode(v, ino), l), c))
  {
    hide Owned, Tiled, Lookup, Split, Base, DirBytes, FirstFit, BlocksTiled, Visits, RecLen, NameLen, Padded, Before,
         Listing, LiveAt, Untouched, InsertedAt;
    SlotWritten(v, ino, name, child, kind, p);
  }

  /** c is the block around p of the directory with the record at p split. */
  ghost predicate SplitBlock(v: Vol, ino: nat, name: seq<Byte>, child: Word32, kind: Byte, p: nat, c: Block)
    requires v.geo.Sizes() && InodeNumber(v, ino)
  {
    var d, bs := DirBytes(v, GetInode(v, ino)), v.geo.blockSize;
    && Nameable(name) && p + HEADER <= |d| && p + RecLen(d, p) <= |d| && Slack(d, p) >= Padded(|name|)
    && Base(p, bs) + bs <= |d| && c == BlockAt(Split(d, p, child, name, kind), p, bs)
  }

  lemma SplitBuffered(v: Vol, ino: nat, n: Inode, name: seq<Byte>, child: Word32, kind: Byte, p: nat, buf: seq<Byte>)
    requires v.geo.Sizes() && InodeNumber(v, ino) && DirReady(v, ino) && SlotFound(v, ino, n, name, p, buf)
    requires var q := p % v.geo.blockSize; q + HEADER <= |buf| && q + RecLen(buf, q) <= |buf| && Slack(buf, q) >= Padded(|name|)
    ensures SplitBlock(v, ino, name, child, kind, p, Split(buf, p % v.geo.blockSize, child, name, kind))
  {
    hide Owned, Tiled, Lookup, Split, Base, DirBytes, FirstFit, BlocksTiled, Visits, RecLen, NameLen, Padded, Before,
         Listing, LiveAt, Untouched, InsertedAt, BlockAt;
    var bs := v.geo.blockSize;
    SelfPut(v, ino);
    SlotWritten(v, ino, name, 1, 1, p);
    var d := DirBytes(v, n);
    TiledFrom(d, 0, p, bs);
    SplitInBlock(d, p, bs, child, name, kind);
  }

  /** The record at p gives up its slack to the new record, and the block is stored. */
  method SplitEntryBlock(fs: Volume, ghost dirIno: nat, n: Inode, p: nat, buf: seq<Byte>, name: seq<Byte>, child: Word32, kind: Byte)
    requires fs.Valid() && Addable(fs.View(), dirIno) && n == GetInode(fs.View(), dirIno) && IsDir(n)
    requires Nameable(name) && child != 0 && FitOf(fs.View(), dirIno, name) == Slot(p)
    requires BlockSize(fs.geo.blockSize) && Base(p, fs.geo.blockSize) + fs.geo.blockSize <= |DirBytes(fs.View(), n)|
    requires buf == BlockAt(DirBytes(fs.View(), n), p, fs.geo.blockSize)
    modifies fs
    ensures fs.Valid() && AddEntry(old(fs.View()), dirIno, name, child, kind) == Done(true, fs.View())
  {
    hide Volume.View, Volume.Valid, Owned, Tiled, Lookup, Base, BlockAt, DirBytes, FirstFit, BlocksTiled, RecLen, NameLen,
         Padded, Pointing, AddEntry, Record, Patch, SplitBlock;
    ghost var v := fs.View();
    SelfPut(v, dirIno);
    EditingPoints(v, dirIno, n);
    OwnedSizes(v, dirIno);
    SlotRoom(v, dirIno, n, name, p, buf);
    SplitBuffered(v, dirIno, n, name, child, kind, p, buf);
    SplitStored(v, dirIno, name, child, kind, p, p / v.geo.blockSize,
                Split(buf, p % v.geo.blockSize, child, name, kind));
    var inBlk := p % fs.geo.blockSize;
    var own := Padded(NameLen(buf, inBlk));
    var slack := RecLen(buf, inBlk) - own;
    var b := Patch(buf, inBlk + 4, Enc16(own));
    b := Patch(b, inBlk + own, Record(child, slack, name, kind));
    var phys := BlockLookup(fs, n, p / fs.geo.blockSize);
    var _ := fs.WriteBlock(phys, b);
  }

  /** The next record's block is in the buffer; at a boundary it is read in, unless the directory ends there. */
  method WalkBlock(fs: Volume, ghost dirIno: nat, n: Inode, p: nat, buf: seq<Byte>) returns (ok: bool, b: seq<Byte>)
    requires fs.Valid() && Editing(fs.View(), dirIno, n) && BlockSize(fs.geo.blockSize) && p < n.size
    requires Walking(DirBytes(fs.View(), n), p, fs.geo.blockSize, buf)
    ensures var d, bs := DirBytes(fs.View(), n), fs.geo.blockSize;
            if ok then p < |d| && Base(p, bs) + bs <= |d| && b == BlockAt(d, p, bs) && Tiled(d, p, bs) && Aligned(|d|, bs)
            else p == |d|
  {
    hide Volume.View, Volume.Valid, Owned, Tiled, Lookup, Base, BlockAt, DirBytes, Pointing, Aligned, Shape;
    EditingPoints(fs.View(), dirIno, n);
    WalkLoads(fs.View(), dirIno, n, p, buf);
    if p % fs.geo.blockSize == 0 {
      var phys := BlockLookup(fs, n, p / fs.geo.blockSize);
      if phys == 0 {
        return false, buf;
      }
      ok, b := fs.ReadBlock(phys);
    } else {
      return true, buf;
    }
  }

  /** Adds an entry to the directory; the outcome and the new state are those of AddEntry. */
  method AddDirEntry(fs: Volume, dirIno: nat, name: seq<Byte>, child: Word32, kind: Byte) returns (ok: bool)
    requires fs.Valid() && (InodeNumber(fs.View(), dirIno) ==> Addable(fs.View(), dirIno)) && Nameable(name) && child != 0
    modifies fs
    ensures fs.Valid()
    ensures if InodeNumber(old(fs.View()), dirIno) then Done(ok, fs.View()) == AddEntry(old(fs.View()), dirIno, name, child, kind)
            else !ok && fs.View() == old(fs.View())
  {
    hide Volume.View, Volume.Valid, Owned, Tiled, Lookup, Base, BlockAt, DirBytes, FirstFit, BlocksTiled, RecLen, NameLen,
         Padded, Pointing, Walking, Append, Shape, Aligned, RoundUp;
    SizesOf(fs.View());
    var got, n := fs.ReadInode(dirIno);
    if !got || !IsDir(n) {
      return false;
    }
    ghost var v := fs.View();
    SelfPut(v, dirIno);
    var need, offs, buf := Padded(|name|), 0, [];
    ghost var d, bs := DirBytes(v, n), v.geo.blockSize;
    WalkStart(v, dirIno, n, buf);
    while offs < n.size
      invariant fs.Valid() && fs.View() == v && Walking(d, offs, bs, buf)
      invariant FitOf(v, dirIno, name) == FirstFit(d, n.size, need, offs)
    {
      FitEnds(d, n.size, need, offs);
      var more;
      more, buf := WalkBlock(fs, dirIno, n, offs, buf);
      if !more {
        return false;
      }
      FitStep(d, n.size, need, offs, bs);
      WalkNext(d, offs, bs);
      var inBlk := offs % fs.geo.blockSize;
      if RecLen(buf, inBlk) - Padded(NameLen(buf, inBlk)) >= need {
        SplitEntryBlock(fs, dirIno, n, offs, buf, name, child, kind);
        return true;
      }
      offs := offs + RecLen(buf, inBlk);
    }
    FitEnds(d, n.size, need, offs);
    RoundUpIs(offs, fs.geo.blockSize);
    if offs % fs.geo.blockSize != 0 {
      offs := (offs / fs.geo.blockSize + 1) * fs.geo.blockSize;
    }
    ok := AppendEntryBlock(fs, dirIno, n, offs, name, child, kind);
  }

  lemma WalkStart(v: Vol, ino: nat, n: Inode, buf: seq<Byte>)
    requires Editing(v, ino, n) && BlocksTiled(v, n)
    ensures BlockSize(v.geo.blockSize) && Walking(DirBytes(v, n), 0, v.geo.blockSize, buf)
  {
    hide Owned, BlocksTiled, Tiled, DirBytes;
    SizesBlock(v, ino, n);
    DirTiled(v, ino, n);
  }

  lemma RoundUpIs(p: nat, bs: nat)
    requires BlockSize(bs)
    ensures RoundUp(p, bs) == if p % bs != 0 then (p / bs + 1) * bs else p
  {
    if bs == 1024 {} else {}
  }

  // ---------------------------------------------------------------- ext2_remove_dir_entry

  /** One round of the name search, in the terms of the block buffer. */
  lemma FindStep(d: seq<Byte>, size: nat, name: seq<Byte>, p: nat, prev: int, bs: nat)
    requires BlockSize(bs) && p < size && p < |d| && Base(p, bs) + bs <= |d| && Tiled(d, p, bs)
    ensures var b, q := BlockAt(d, p, bs), InBlock(p, bs);
            q + HEADER <= bs && RecLen(b, q) > 0 && p + HEADER <= |d| && RecLen(b, q) == RecLen(d, p)
            && FindPos(d, size, name, p, prev) ==
                 if |name| == NameLen(b, q) && Name(b, q) == name then At(p, prev)
                 else FindPos(d, size, name, p + RecLen(b, q), p)
  {
    hide RecLen, NameLen, Padded, Base, BlockAt, Tiled, Name, InBlock;
    WalkReads(d, p, bs);
    RecordBasics(d, p, bs);
  }

  lemma FindEnds(d: seq<Byte>, size: nat, name: seq<Byte>, p: nat, prev: int)
    ensures p == |d| || p >= size ==> FindPos(d, size, name, p, prev) == Missing
  {}

  /** Erasing a record changes its block as the same edit of the block buffer does. */
  lemma EraseInBlock(d: seq<Byte>, p: nat, prev: int, bs: nat)
    requires BlockSize(bs) && p < |d| && Base(p, bs) + bs <= |d| && Tiled(d, p, bs) && p + HEADER <= |d|
    requires prev >= 0 ==> Precedes(d, prev, p) && Tiled(d, prev, bs)
    requires prev >= 0 && prev / bs == p / bs ==> RecLen(d, prev) + RecLen(d, p) < 0x1_0000
    ensures InBlock(p, bs) + HEADER <= bs
    ensures var b, q := BlockAt(d, p, bs), InBlock(p, bs);
            BlockAt(Erase(d, p, prev, bs), p, bs) ==
              if prev >= 0 && prev / bs == p / bs then
                Patch(b, InBlock(prev, bs) + 4, Enc16(RecLen(d, prev) + RecLen(d, p)))
              else Patch(b, q, Enc32(0))
  {
    hide InBlock, Base, BlockAt, Patch, RecLen, NameLen, Tiled, Ino, Padded;
    WalkReads(d, p, bs);
    if prev >= 0 && prev / bs == p / bs {
      SameBlockBase(prev, p, bs);
      MergeInBlock(d, prev, p, bs, RecLen(d, prev) + RecLen(d, p));
    } else {
      PatchInBlock(d, p, bs, 0, Enc32(0));
    }
  }

  lemma MergeInBlock(d: seq<Byte>, q: nat, p: nat, bs: nat, len: Word16)
    requires BlockSize(bs) && q < |d| && Base(q, bs) == Base(p, bs) && Base(p, bs) + bs <= |d| && Tiled(d, q, bs)
    ensures q + 6 <= |d| && InBlock(q, bs) + 6 <= bs
    ensures BlockAt(Patch(d, q + 4, Enc16(len)), p, bs) == Patch(BlockAt(d, p, bs), InBlock(q, bs) + 4, Enc16(len))
  {
    hide InBlock, Base, BlockAt, Patch, RecLen, NameLen, Tiled, Ino, Padded, Enc16;
    WalkReads(d, q, bs);
    PatchInBlock(d, q, bs, 4, Enc16(len));
    SameBlockAs(Patch(d, q + 4, Enc16(len)), q, p, bs);
    SameBlockAs(d, q, p, bs);
  }

  lemma SameBlockBase(q: nat, p: nat, bs: nat)
    requires BlockSize(bs) && q / bs == p / bs
    ensures Base(q, bs) == Base(p, bs)
  {}

  lemma SameBlockAs(d: seq<Byte>, q: nat, p: nat, bs: nat)
    requires BlockSize(bs) && Base(q, bs) == Base(p, bs) && Base(p, bs) + bs <= |d|
    ensures BlockAt(d, q, bs) == BlockAt(d, p, bs)
  {}

  /** The record a removal picked: its block is buffered and mapped, and the edit of the buffer is the edit of the directory. */
  lemma EraseBuffered(v: Vol, ino: nat, n: Inode, name: seq<Byte>, p: nat, prev: int, l: nat)
    requires v.geo.Sizes() && InodeNumber(v, ino) && DirReady(v, ino) && n == GetInode(v, ino) && IsDir(n)
    requires FindPos(DirBytes(v, n), n.size, name, 0, -1) == At(p, prev) && l == p / v.geo.blockSize
    ensures var d, bs := DirBytes(v, n), v.geo.blockSize;
            var q := InBlock(p, bs);
            Base(p, bs) + bs <= |d| && p < |d| && p + HEADER <= |d| && q + HEADER <= bs &&
            Lookup(v, n, l) != 0 && Lookup(v, n, l) < |v.data| && v.geo.IsData(Lookup(v, n, l)) &&
            var buf := BlockAt(d, p, bs);
            RecLen(buf, q) == RecLen(d, p) &&
            (prev >= 0 && prev / bs == p / bs ==>
               InBlock(prev, bs) + HEADER <= bs && RecLen(buf, InBlock(prev, bs)) + RecLen(buf, q) < 0x1_0000) &&
            var c := if prev >= 0 && prev / bs == p / bs then
                       Patch(buf, InBlock(prev, bs) + 4, Enc16(RecLen(buf, InBlock(prev, bs)) + RecLen(buf, q)))
                     else Patch(buf, q, Enc32(0));
            EraseAt(v, ino, name, p, prev) == PutBlock(v, Lookup(v, n, l), c)
  {
    hide Owned, Tiled, Lookup, Erase, Base, DirBytes, FindPos, BlocksTiled, Visits, RecLen, NameLen, Padded, Before, Ino,
         Listing, LiveAt, Untouched, InBlock, BlockAt, Patch, Aligned;
    var d, bs := DirBytes(v, n), v.geo.blockSize;
    SelfPut(v, ino);
    PickedRecord(v, ino, name, p, prev);
    EraseWritten(v, ino, name, p, prev);
    TiledFrom(d, 0, p, bs);
    WalkReads(d, p, bs);
    if prev >= 0 {
      TiledFrom(d, 0, prev, bs);
      if prev / bs == p / bs {
        SameBlockBase(prev, p, bs);
        SameBlockAs(d, prev, p, bs);
        WalkReads(d, prev, bs);
      }
    }
    EraseInBlock(d, p, prev, bs);
    BlockAtIs(Erase(d, p, prev, bs), p, bs);
    BaseFacts(p, bs);
    DirBlock(v, ino, n, Base(p, bs));
    LookupData(v, ino, n, l);
  }

  /** The picked record is merged into its predecessor in the block, or marked deleted. */
  method EraseRecord(fs: Volume, dirIno: nat, n: Inode, name: seq<Byte>, p: nat, prev: int, buf: seq<Byte>)
    requires fs.Valid() && DirReady(fs.View(), dirIno) && n == GetInode(fs.View(), dirIno) && IsDir(n)
    requires FindPos(DirBytes(fs.View(), n), n.size, name, 0, -1) == At(p, prev)
    requires BlockSize(fs.geo.blockSize) && Base(p, fs.geo.blockSize) + fs.geo.blockSize <= |DirBytes(fs.View(), n)|
    requires buf == BlockAt(DirBytes(fs.View(), n), p, fs.geo.blockSize)
    modifies fs`disk
    ensures fs.Valid() && fs.View() == EraseAt(old(fs.View()), dirIno, name, p, prev)
  {
    hide Volume.View, Volume.Valid, Owned, Lookup, Base, BlockAt, DirBytes, FindPos, BlocksTiled, RecLen, NameLen, Pointing,
         Patch, EraseAt, Shape;
    ghost var v := fs.View();
    SelfPut(v, dirIno);
    OwnedSizes(v, dirIno);
    EditingPoints(v, dirIno, n);
    EraseBuffered(v, dirIno, n, name, p, prev, p / fs.geo.blockSize);
    var phys := BlockLookup(fs, n, p / fs.geo.blockSize);
    var edited := ErasedBuffer(buf, p % fs.geo.blockSize, prev, p / fs.geo.blockSize, fs.geo.blockSize);
    var _ := fs.WriteBlock(phys, edited);
  }

  /** The edit of the buffered block: q is the place of the record in block l, prev the offset of the record before it. */
  method ErasedBuffer(buf: seq<Byte>, q: nat, prev: int, l: nat, bs: nat) returns (c: seq<Byte>)
    requires BlockSize(bs) && q + HEADER <= |buf|
    requires prev >= 0 && prev / bs == l ==> prev % bs + HEADER <= |buf| && RecLen(buf, prev % bs) + RecLen(buf, q) < 0x1_0000
    ensures c == if prev >= 0 && prev / bs == l then
                   Patch(buf, prev % bs + 4, Enc16(RecLen(buf, prev % bs) + RecLen(buf, q)))
                 else Patch(buf, q, Enc32(0))
  {
    hide RecLen, Patch;
    if prev >= 0 && prev / bs == l {
      return Patch(buf, prev % bs + 4, Enc16((RecLen(buf, prev % bs) + RecLen(buf, q)) % 0x1_0000));
    }
    return Patch(buf, q, Enc32(0));
  }

  /** The record is erased, and the size goes down with the last one. */
  method EraseEntryBlock(fs: Volume, dirIno: nat, n: Inode, name: seq<Byte>, p: nat, prev: int, buf: seq<Byte>)
    requires fs.Valid() && DirReady(fs.View(), dirIno) && n == GetInode(fs.View(), dirIno) && IsDir(n)
    requires FindPos(DirBytes(fs.View(), n), n.size, name, 0, -1) == At(p, prev)
    requires BlockSize(fs.geo.blockSize) && Base(p, fs.geo.blockSize) + fs.geo.blockSize <= |DirBytes(fs.View(), n)|
    requires buf == BlockAt(DirBytes(fs.View(), n), p, fs.geo.blockSize)
    modifies fs
    ensures fs.Valid() && fs.View() == RemoveAt(old(fs.View()), dirIno, name, p, prev)
  {
    hide Volume.View, Volume.Valid, Owned, Lookup, Base, BlockAt, DirBytes, FindPos, BlocksTiled, RecLen, NameLen, Pointing,
         Patch, EraseAt;
    SelfPut(fs.View(), dirIno);
    OwnedSizes(fs.View(), dirIno);
    InodeFits(fs.View(), dirIno) by { OwnedShape(fs.View()); }
    EraseBuffered(fs.View(), dirIno, n, name, p, prev, p / fs.geo.blockSize);
    var recLen := RecLen(buf, p % fs.geo.blockSize);
    EraseRecord(fs, dirIno, n, name, p, prev, buf);
    if p + recLen >= n.size {
      var _ := fs.WriteInode(dirIno, n.(size := ShrunkSize(n.size, recLen)));
    }
  }

  /** Removes an entry from the directory; the outcome and the new state are those of RemoveEntry. */
  method RemoveDirEntry(fs: Volume, dirIno: nat, name: seq<Byte>) returns (ok: bool)
    requires fs.Valid()
    requires InodeNumber(fs.View(), dirIno) ==> DirReady(fs.View(), dirIno) && Readable(fs.View(), dirIno)
    modifies fs
    ensures fs.Valid()
    ensures if InodeNumber(old(fs.View()), dirIno) then Done(ok, fs.View()) == RemoveEntry(old(fs.View()), dirIno, name)
            else !ok && fs.View() == old(fs.View())
  {
    hide Volume.View, Volume.Valid, Owned, Tiled, Lookup, Base, BlockAt, DirBytes, FindPos, BlocksTiled, RecLen, NameLen,
         Name, Padded, Pointing, Walking, Shape, Aligned, LookIn, Entries, Legible, RemoveAt, Readable;
    if name == DOT || name == DOTDOT {
      return false;
    }
    var found, ino, kind := LookupEntry(fs, dirIno, name);
    if !found {
      return false;
    }
    var got, n := fs.ReadInode(dirIno);
    ghost var v := fs.View();
    SelfPut(v, dirIno);
    OwnedSizes(v, dirIno);
    var offs, prev: int, buf := 0, -1, [];
    ghost var d, bs := DirBytes(v, n), v.geo.blockSize;
    WalkStart(v, dirIno, n, buf);
    while offs < n.size
      invariant fs.Valid() && fs.View() == v && Walking(d, offs, bs, buf)
      invariant FindPos(d, n.size, name, 0, -1) == FindPos(d, n.size, name, offs, prev)
    {
      FindEnds(d, n.size, name, offs, prev);
      var more;
      more, buf := WalkBlock(fs, dirIno, n, offs, buf);
      if !more {
        return false;
      }
      FindStep(d, n.size, name, offs, prev, bs);
      WalkNext(d, offs, bs);
      var inBlk := offs % fs.geo.blockSize;
      if |name| == NameLen(buf, inBlk) && Name(buf, inBlk) == name {
        EraseEntryBlock(fs, dirIno, n, name, offs, prev, buf);
        return true;
      }
      prev := offs;
      offs := offs + RecLen(buf, inBlk);
    }
    FindEnds(d, n.size, name, offs, prev);
    return false;
  }
}
