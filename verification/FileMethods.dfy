/** Mapping, reading, writing and releasing file blocks on a mounted volume: the loops of kernel/fs/ext2.c. */
module FileMethods {
  import opened Bytes
  import opened InodeCodec
  import opened VolumeState
  import opened BlockMap
  import opened FileMap
  import opened FileData
  import opened FileTheorems
  import opened DirRecords
  import opened Ext2Volume

  /** Every block number the inode leads to is a data block. */
  ghost predicate Pointing(v: Vol, n: Inode) {
    forall loc :: Ptr(v, n, loc) == 0 || v.geo.IsData(Ptr(v, n, loc))
  }

  lemma EditingPoints(v: Vol, ino: nat, n: Inode)
    requires Editing(v, ino, n)
    ensures Pointing(v, n) && TableReady(v, n) && Shape(v)
  {
    var u := PutInode(v, ino, n);
    forall loc ensures Ptr(v, n, loc) == 0 || v.geo.IsData(Ptr(v, n, loc)) {
      PtrOfData(v, u, n, loc);
      assert P(u, ino, loc) == Ptr(v, n, loc);
    }
    assert Ptr(v, n, Single) == n.block[12];
  }

  lemma TableEntry(v: Vol, t: nat, i: nat)
    requires Shape(v) && (t == 0 || v.geo.IsData(t))
    ensures t == 0 || i >= PerTable(v) ==> Entry(v, t, i) == 0
    ensures t != 0 && i < PerTable(v) ==> t < |v.data| && |v.data[t]| == v.geo.blockSize && Entry(v, t, i) == AsPtrs(v.data[t])[i]
  {}

  /** Reads the block number behind one or two levels of pointer tables. */
  method GetBlockFromPtr(fs: Volume, block: Word32, target: nat, level: nat) returns (b: Word32)
    requires fs.Valid() && (block == 0 || fs.geo.IsData(block)) && 1 <= level <= 2
    requires level == 2 ==> forall i :: Entry(fs.View(), block, i) == 0 || fs.geo.IsData(Entry(fs.View(), block, i))
    ensures level == 1 ==> b == Entry(fs.View(), block, target)
    ensures level == 2 ==> b == Entry(fs.View(), Entry(fs.View(), block, target / PerTable(fs.View())), target % PerTable(fs.View()))
    decreases level
  {
    hide Volume.View, Volume.Valid, AsPtrs, Shape, BlocksSized, MetaUsed, Geometry.MetaReserved, Geometry.MetaApart,
         Geometry.Totals;
    var ppb := fs.geo.blockSize / 4;
    TableEntry(fs.View(), block, if level == 1 then target else target / ppb);
    var ok, buf := fs.ReadBlock(block);
    if !ok {
      return 0;
    }
    var contents := AsPtrs(buf);
    if level == 1 {
      if target >= ppb {
        return 0;
      }
      return contents[target];
    }
    var first, second := target / ppb, target % ppb;
    if first >= ppb {
      return 0;
    }
    b := GetBlockFromPtr(fs, contents[first], second, 1);
  }

  method BlockLookup(fs: Volume, n: Inode, logical: nat) returns (b: Word32)
    requires fs.Valid() && Pointing(fs.View(), n)
    ensures b == Lookup(fs.View(), n, logical)
  {
    hide Volume.View, Volume.Valid;
    var ppb, l := fs.geo.blockSize / 4, logical;
    if l < 12 {
      return n.block[l];
    }
    l := l - 12;
    if l < ppb {
      assert Ptr(fs.View(), n, Single) == n.block[12];
      b := GetBlockFromPtr(fs, n.block[12], l, 1);
      return;
    }
    l := l - ppb;
    if l < ppb * ppb {
      assert Ptr(fs.View(), n, Double) == n.block[13];
      forall i ensures Entry(fs.View(), n.block[13], i) == Ptr(fs.View(), n, Mid(i)) {}
      b := GetBlockFromPtr(fs, n.block[13], l, 2);
      return;
    }
    BeyondDouble(fs.View(), n, l);
    return 0;
  }

  /** Past the double-indirect range nothing is mapped. */
  lemma BeyondDouble(v: Vol, n: Inode, l: nat)
    requires Shape(v) && l >= PerTable(v) * PerTable(v) && Pointing(v, n)
    ensures Ptr(v, n, Leaf(l / PerTable(v), l % PerTable(v))) == 0
  {
    var ppb := PerTable(v);
    assert ppb == 256 || ppb == 512;
    assert l / ppb >= ppb;
    assert Ptr(v, n, Double) == n.block[13];
    TableEntry(v, n.block[13], l / ppb);
  }

  /** Makes sure block[12] holds a pointer table, zeroed when new; fails when no block is free. */
  method EnsureTableBlock(fs: Volume, n: Inode) returns (ok: bool, m: Inode)
    requires fs.Valid() && TableReady(fs.View(), n)
    modifies fs
    ensures fs.Valid() && ok == (m.block[12] != 0)
    ensures Grown(fs.View(), m, m.block[12]) == EnsureTable(old(fs.View()), n)
    ensures !ok ==> fs.View() == old(fs.View())
  {
    hide Volume.View, Volume.Valid, LowestFree, Geometry.MetaReserved, Geometry.MetaApart, Geometry.Totals;
    LowestFreeIsData(fs.View());
    if n.block[12] != 0 {
      return true, n;
    }
    var got, b := fs.AllocBlock();
    if !got {
      return false, n;
    }
    var _ := fs.WriteBlock(b, ZeroBlock(fs.geo.blockSize));
    return true, WithPtr(n, 12, b);
  }

  /** The block behind entry k of the pointer table, allocated and entered when the entry is empty. */
  method TableEntryBlock(fs: Volume, n: Inode, k: nat) returns (m: Inode, phys: Word32)
    requires fs.Valid() && TableReady(fs.View(), n) && n.block[12] != 0 && k < PerTable(fs.View())
    modifies fs
    ensures fs.Valid() && Grown(fs.View(), m, phys) == EntryAlloc(old(fs.View()), n, k)
  {
    hide Volume.View, Volume.Valid, LowestFree, Geometry.MetaReserved, Geometry.MetaApart, Geometry.Totals;
    ghost var v := fs.View();
    LowestFreeIsData(v);
    TableEntry(v, n.block[12], k);
    var _, buf := fs.ReadBlock(n.block[12]);
    var ind := AsPtrs(buf);
    if ind[k] != 0 {
      var _ := fs.WriteBlock(n.block[12], buf);
      assert v.data[n.block[12] := buf] == v.data;
      return n, ind[k];
    }
    var ok, b := fs.AllocBlock();
    if !ok {
      return n, 0;
    }
    var _ := fs.WriteBlock(n.block[12], FromPtrs(ind[k := b]));
    return n.(blocks := (n.blocks + fs.geo.blockSize / 512) % 0x1_0000_0000), b;
  }

  /** The block for a logical index, allocated when the file has none there. */
  method FileAllocBlock(fs: Volume, n: Inode, logical: nat) returns (m: Inode, phys: Word32)
    requires fs.Valid() && TableReady(fs.View(), n)
    modifies fs
    ensures fs.Valid() && Grown(fs.View(), m, phys) == FileAlloc(old(fs.View()), n, logical)
  {
    hide Volume.View, Volume.Valid, LowestFree, EnsureTable, EntryAlloc, Shape;
    var ppb := fs.geo.blockSize / 4;
    LowestFreeIsData(fs.View());
    if logical < 12 {
      if n.block[logical] != 0 {
        return n, n.block[logical];
      }
      var ok, b := fs.AllocBlock();
      if !ok {
        return n, 0;
      }
      m := WithPtr(n, logical, b);
      return m.(blocks := (m.blocks + fs.geo.blockSize / 512) % 0x1_0000_0000), b;
    }
    if logical < 12 + ppb {
      TableAfter(fs.View(), n);
      var ok;
      ok, m := EnsureTableBlock(fs, n);
      if !ok {
        return n, 0;
      }
      m, phys := TableEntryBlock(fs, m, logical - 12);
      return;
    }
    return n, 0;
  }

  // ---------------------------------------------------------------- ext2_read_data and ext2_write_data

  /** How much of `left` bytes at byte offset at lies in the block of that offset. */
  function ChunkAt(at: nat, left: nat, bs: nat): (r: nat)
    requires BlockSize(bs)
    ensures left > 0 ==> 0 < r <= left
    ensures at % bs + r <= bs
  {
    if left > bs - at % bs then bs - at % bs else left
  }

  lemma NextIsChunk(at: nat, left: nat, bs: nat)
    requires BlockSize(bs) && left > 0
    ensures if NextStart(at, bs) >= at + left then ChunkAt(at, left, bs) == left
            else at + ChunkAt(at, left, bs) == NextStart(at, bs)
  {
    if bs == 1024 {} else {}
  }

  lemma ReadStep(v: Vol, n: Inode, at: nat, end: nat)
    requires v.geo.Sizes() && at < end && MappedAt(v, n, at)
    ensures ReadEnd(v, n, at, end) == ReadEnd(v, n, at + ChunkAt(at, end - at, v.geo.blockSize), end)
  {
    hide MappedAt, NextStart, ChunkAt;
    NextIsChunk(at, end - at, v.geo.blockSize);
    assert ReadEnd(v, n, end, end) == end;
    SameUntilNext(at, at, v.geo.blockSize);
  }

  lemma SameBlockAt(at: nat, i: nat, bs: nat)
    requires BlockSize(bs) && at % bs + i < bs
    ensures (at + i) / bs == at / bs && (at + i) % bs == at % bs + i
  {
    if bs == 1024 {} else {}
  }

  /** The part of a block a read copies, as bytes of the file. */
  lemma ChunkBytes(v: Vol, n: Inode, at: nat, chunk: nat)
    requires Shape(v) && Pointing(v, n) && MappedAt(v, n, at) && at % v.geo.blockSize + chunk <= v.geo.blockSize
    ensures var b, lo := Content(v, Lookup(v, n, at / v.geo.blockSize)), at % v.geo.blockSize;
            |b| == v.geo.blockSize && b[lo..lo + chunk] == BytesOf(v, n, at, at + chunk)
  {
    hide Lookup;
    MappedIsData(v, n, at / v.geo.blockSize);
    var b, lo := Content(v, Lookup(v, n, at / v.geo.blockSize)), at % v.geo.blockSize;
    var part := b[lo..lo + chunk];
    forall i | 0 <= i < chunk ensures part[i] == ByteAt(v, n, at + i) {
      SameBlockAt(at, i, v.geo.blockSize);
    }
  }

  lemma MappedIsData(v: Vol, n: Inode, l: nat)
    requires v.geo.Sizes() && Pointing(v, n) && Lookup(v, n, l) != 0
    ensures v.geo.IsData(Lookup(v, n, l))
  {}

  lemma BytesJoin(v: Vol, n: Inode, lo: nat, mid: nat, hi: nat)
    requires v.geo.Sizes() && lo <= mid <= hi
    ensures BytesOf(v, n, lo, mid) + BytesOf(v, n, mid, hi) == BytesOf(v, n, lo, hi)
  {
    hide ByteAt;
  }

  method ReadBytes(fs: Volume, n: Inode, offset: nat, size: nat) returns (buf: seq<Byte>)
    requires fs.Valid() && Pointing(fs.View(), n) && offset + size < 0x1_0000_0000
    ensures buf == ReadData(fs.View(), n, offset, size)
  {
    hide Volume.View, Volume.Valid, Lookup, Pointing, ByteAt, BytesOf, ReadEnd, Shape, ChunkAt, Content;
    buf := [];
    ghost var v := fs.View();
    SizesOf(v);
    if offset >= n.size {
      return;
    }
    var count := if offset + size > n.size then n.size - offset else size;
    ghost var end := offset + count;
    while |buf| < count
      invariant |buf| <= count && buf == BytesOf(v, n, offset, offset + |buf|)
      invariant ReadEnd(v, n, offset + |buf|, end) == ReadEnd(v, n, offset, end)
    {
      var at := offset + |buf|;
      var blockIdx, inBlock := at / fs.geo.blockSize, at % fs.geo.blockSize;
      var chunk := ChunkAt(at, count - |buf|, fs.geo.blockSize);
      var phys := BlockLookup(fs, n, blockIdx);
      if phys == 0 {
        HoleEnds(v, n, at, end);
        return;
      }
      ReadRound(v, n, offset, at, end, chunk);
      var _, blockBuf := fs.ReadBlock(phys);
      buf := buf + blockBuf[inBlock..inBlock + chunk];
    }
    HoleEnds(v, n, end, end);
  }

  /** One round of the read loop: the chunk copied continues the bytes read so far. */
  lemma ReadRound(v: Vol, n: Inode, offset: nat, at: nat, end: nat, chunk: nat)
    requires Shape(v) && BlockSize(v.geo.blockSize) && Pointing(v, n) && offset <= at < end
    requires Lookup(v, n, at / v.geo.blockSize) != 0 && chunk == ChunkAt(at, end - at, v.geo.blockSize)
    ensures v.geo.IsData(Lookup(v, n, at / v.geo.blockSize))
    ensures var b, lo := Content(v, Lookup(v, n, at / v.geo.blockSize)), at % v.geo.blockSize;
            b == v.data[Lookup(v, n, at / v.geo.blockSize)] && |b| == v.geo.blockSize && lo + chunk <= |b| &&
            BytesOf(v, n, offset, at) + b[lo..lo + chunk] == BytesOf(v, n, offset, at + chunk)
    ensures chunk > 0 && at + chunk <= end && ReadEnd(v, n, at, end) == ReadEnd(v, n, at + chunk, end)
  {
    hide Lookup, Pointing, ByteAt, BytesOf, ReadEnd, ChunkAt;
    MappedIsData(v, n, at / v.geo.blockSize);
    ReadStep(v, n, at, end);
    ChunkBytes(v, n, at, chunk);
    BytesJoin(v, n, offset, at, at + chunk);
  }

  lemma SizesOf(v: Vol)
    requires Shape(v)
    ensures v.geo.Sizes() && BlockSize(v.geo.blockSize)
  {}

  lemma HoleEnds(v: Vol, n: Inode, at: nat, end: nat)
    requires v.geo.Sizes() && at <= end && (at == end || Lookup(v, n, at / v.geo.blockSize) == 0)
    ensures ReadEnd(v, n, at, end) == at
  {}

  /** One round of the write loop on the disk; phys is 0 when no block can be had. */
  method WriteRound(fs: Volume, ghost ino: nat, n: Inode, at: nat, rest: seq<Byte>) returns (m: Inode, done: nat)
    requires fs.Valid() && Editing(fs.View(), ino, n) && rest != [] && at + |rest| < 0x1_0000_0000
    modifies fs
    ensures fs.Valid() && Written(fs.View(), m, done) == WriteChunk(old(fs.View()), ino, n, at, rest)
  {
    hide Volume.View, Volume.Valid, Lookup, Owned, Pointing, TableReady, FileAlloc;
    ghost var v := fs.View();
    EditingPoints(v, ino, n);
    SizesOf(v);
    TargetObtained(v, ino, n, at);
    var blockIdx, inBlock := at / fs.geo.blockSize, at % fs.geo.blockSize;
    var chunk := if |rest| > fs.geo.blockSize - inBlock then fs.geo.blockSize - inBlock else |rest|;
    var phys := BlockLookup(fs, n, blockIdx);
    m := n;
    if phys == 0 && at >= n.size {
      m, phys := FileAllocBlock(fs, n, blockIdx);
    }
    assert Grown(fs.View(), m, phys) == TargetBlock(v, ino, n, at);
    if phys == 0 {
      return m, 0;
    }
    DataSized(fs.View(), phys);
    if at >= m.size {
      m := m.(size := at + |rest|);
    }
    if inBlock == 0 && chunk == fs.geo.blockSize {
      assert Patch(fs.View().data[phys], 0, rest[..chunk]) == rest[..chunk];
      var _ := fs.WriteBlock(phys, rest[..chunk]);
    } else {
      var _, blockBuf := fs.ReadBlock(phys);
      var _ := fs.WriteBlock(phys, Patch(blockBuf, inBlock, rest[..chunk]));
    }
    return m, chunk;
  }

  lemma DataSized(v: Vol, b: nat)
    requires Shape(v) && v.geo.IsData(b)
    ensures b < |v.data| && |v.data[b]| == v.geo.blockSize
  {}

  method WriteBytes(fs: Volume, ghost ino: nat, n: Inode, offset: nat, data: seq<Byte>) returns (m: Inode, done: nat)
    requires fs.Valid() && Editing(fs.View(), ino, n) && offset + |data| < 0x1_0000_0000
    modifies fs
    ensures fs.Valid() && Written(fs.View(), m, done) == WriteFrom(old(fs.View()), ino, n, offset, data)
  {
    hide Volume.View, Volume.Valid, Editing, Wrote, WriteChunk, WriteFrom;
    m, done := n, 0;
    ghost var whole := WriteFrom(fs.View(), ino, n, offset, data);
    while done < |data|
      invariant fs.Valid() && done <= |data| && Editing(fs.View(), ino, m)
      invariant var r := WriteFrom(fs.View(), ino, m, offset + done, data[done..]);
                whole == Written(r.v, r.n, done + r.done)
    {
      ghost var v, rest, k := fs.View(), data[done..], m;
      ghost var c := WriteChunk(v, ino, m, offset + done, rest);
      WriteStep(v, ino, m, offset + done, rest);
      var chunk;
      m, chunk := WriteRound(fs, ino, m, offset + done, data[done..]);
      if chunk == 0 {
        return;
      }
      assert data[done..][chunk..] == data[done + chunk..];
      done := done + chunk;
    }
    WriteEnd(fs.View(), ino, m, offset + done, data[done..]);
    if offset + |data| > m.size {
      m := m.(size := offset + |data|);
    }
  }

  // ---------------------------------------------------------------- ext2_node_read and ext2_node_write

  method NodeRead(fs: Volume, ino: nat, offset: nat, size: nat) returns (ok: bool, buf: seq<Byte>)
    requires fs.Valid() && offset + size < 0x1_0000_0000
    requires Owned(fs.View()) && (InodeNumber(fs.View(), ino) ==> Live(fs.View(), ino))
    ensures ok == InodeNumber(fs.View(), ino)
    ensures ok ==> buf == ReadData(fs.View(), GetInode(fs.View(), ino), offset, size)
  {
    hide Volume.View, Volume.Valid, ReadData, Pointing;
    var n;
    ok, n := fs.ReadInode(ino);
    if !ok {
      return false, [];
    }
    SelfPut(fs.View(), ino);
    EditingPoints(fs.View(), ino, n);
    buf := ReadBytes(fs, n, offset, size);
  }

  method NodeWriteAt(fs: Volume, ino: nat, offset: nat, data: seq<Byte>) returns (done: nat)
    requires fs.Valid() && Owned(fs.View()) && Live(fs.View(), ino) && offset + |data| < 0x1_0000_0000
    modifies fs
    ensures fs.Valid() && NodeWritten(fs.View(), done) == NodeWrite(old(fs.View()), ino, offset, data)
  {
    ghost var v := fs.View();
    NodeWriteIs(v, ino, offset, data);
    hide *;
    var _, n := fs.ReadInode(ino);
    var m;
    m, done := WriteBytes(fs, ino, n, offset, data);
    StoreLonger(fs, ino, offset, n.size, m, done);
  }

  /** The inode is stored again only when the bytes written reach past the old end of the file. */
  method StoreLonger(fs: Volume, ino: nat, offset: nat, size: nat, m: Inode, done: nat)
    requires fs.Valid() && InodeNumber(fs.View(), ino) && ino < 0x1_0000_0000 && offset + done < 0x1_0000_0000
    modifies fs
    ensures fs.Valid()
    ensures NodeWritten(fs.View(), done) == StoreIfLonger(ino, offset, size, Written(old(fs.View()), m, done))
  {
    hide Volume.View, Volume.Valid, InodeNumber;
    if done > 0 && offset + done > size {
      var _ := fs.WriteInode(ino, m.(size := offset + done));
    }
  }

  /** The write of a node, from the write of its bytes. */
  lemma NodeWriteIs(v: Vol, ino: nat, offset: nat, data: seq<Byte>)
    requires Shape(v) && Owned(v) && Live(v, ino) && offset + |data| < 0x1_0000_0000
    ensures InodeNumber(v, ino) && ino < 0x1_0000_0000 && Editing(v, ino, GetInode(v, ino))
    ensures var n := GetInode(v, ino);
            var r := WriteFrom(v, ino, n, offset, data);
            InodeNumber(r.v, ino) && r.done <= |data| &&
            NodeWrite(v, ino, offset, data) == StoreIfLonger(ino, offset, n.size, r)
  {
    SelfPut(v, ino);
    InodeFits(v, ino);
    hide WriteFrom, Owned;
    WroteFits(v, ino, GetInode(v, ino), offset, data);
  }

  lemma InodeFits(v: Vol, ino: nat)
    requires Shape(v) && InodeNumber(v, ino)
    ensures ino < 0x1_0000_0000
  {}

  lemma WroteFits(v: Vol, ino: nat, n: Inode, offset: nat, data: seq<Byte>)
    requires Editing(v, ino, n) && offset + |data| < 0x1_0000_0000
    ensures var r := WriteFrom(v, ino, n, offset, data); InodeNumber(r.v, ino) && r.done <= |data|
  {
    hide WriteFrom, Owned;
  }
}
