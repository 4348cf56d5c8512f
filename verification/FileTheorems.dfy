/** ext2_node_write on whole volumes: agreement with reading, and what stays as it was. */
module FileTheorems {
  import opened Bytes
  import opened InodeCodec
  import opened VolumeState
  import opened BlockMap
  import opened FileMap
  import opened FileData

  datatype NodeWritten = NodeWritten(v: Vol, done: nat)

  lemma SelfPut(v: Vol, ino: nat)
    requires InodeNumber(v, ino)
    ensures PutInode(v, ino, GetInode(v, ino)) == v
  {
    assert v.inodes[ino - 1 := v.inodes[ino - 1]] == v.inodes;
  }

  /** The inode is stored again only when the bytes written reach past the old end of the file. */
  function StoreIfLonger(ino: nat, offset: nat, size: nat, r: Written): NodeWritten
    requires InodeNumber(r.v, ino) && offset + r.done < 0x1_0000_0000
  {
    if r.done > 0 && offset + r.done > size then
      NodeWritten(PutInode(r.v, ino, r.n.(size := offset + r.done)), r.done)
    else NodeWritten(r.v, r.done)
  }

  function NodeWrite(v: Vol, ino: nat, offset: nat, buf: seq<Byte>): NodeWritten
    requires Owned(v) && Live(v, ino) && offset + |buf| < 0x1_0000_0000
  {
    SelfPut(v, ino);
    StoreIfLonger(ino, offset, GetInode(v, ino).size, WriteFrom(v, ino, GetInode(v, ino), offset, buf))
  }

  /** Inode j maps the same places and shows the same bytes on both volumes. */
  ghost predicate SameFile(v: Vol, w: Vol, j: nat)
    requires v.geo.Sizes() && w.geo.Sizes() && InodeNumber(v, j) && InodeNumber(w, j)
  {
    && GetInode(w, j).block == GetInode(v, j).block && GetInode(w, j).size == GetInode(v, j).size
    && forall x: nat ::
         MappedAt(w, GetInode(w, j), x) == MappedAt(v, GetInode(v, j), x)
         && (MappedAt(v, GetInode(v, j), x) ==> ByteAt(w, GetInode(w, j), x) == ByteAt(v, GetInode(v, j), x))
  }

  lemma UntouchedIsSame(v: Vol, w: Vol, ino: nat, j: nat)
    requires v.geo.Sizes() && Untouched(v, w, ino) && Live(v, j) && j != ino && GetInode(w, j) == GetInode(v, j)
    ensures SameFile(v, w, j)
  {
    var n := GetInode(v, j);
    forall x: nat
      ensures MappedAt(w, n, x) == MappedAt(v, n, x) && (MappedAt(v, n, x) ==> ByteAt(w, n, x) == ByteAt(v, n, x))
    {
      var loc := PlaceOf(PerTable(v), x / v.geo.blockSize);
      DataPlace(PerTable(v), x / v.geo.blockSize);
      assert P(w, j, loc) == P(v, j, loc) == Lookup(v, n, x / v.geo.blockSize);
    }
  }

  lemma WriteParts(v: Vol, ino: nat, offset: nat, buf: seq<Byte>)
    requires Owned(v) && Live(v, ino) && offset + |buf| < 0x1_0000_0000
    ensures Editing(v, ino, GetInode(v, ino))
    ensures var n := GetInode(v, ino);
            var r := WriteFrom(v, ino, n, offset, buf);
            Editing(r.v, ino, r.n) && Live(r.v, ino) && GetInode(r.v, ino) == n && r.v.live == v.live && r.v.geo == v.geo &&
            Within(n, r.n) && r.done <= |buf| && NodeWrite(v, ino, offset, buf) == StoreIfLonger(ino, offset, n.size, r)
  {
    SelfPut(v, ino);
    hide WriteFrom, Owned, Untouched, Stored, Kept, Within;
  }

  /** The inode stored with its new size, or left stale on the disk: ownership holds either way. */
  lemma StoredOrStale(ino: nat, offset: nat, size: nat, r: Written)
    requires Editing(r.v, ino, r.n) && Live(r.v, ino) && Within(GetInode(r.v, ino), r.n) && offset + r.done < 0x1_0000_0000
    requires ino !in r.v.geo.reserved && GetInode(r.v, ino).block[12] == 0 ==>
               GetInode(r.v, ino).block[13] == 0 && GetInode(r.v, ino).block[14] == 0
    ensures var w := StoreIfLonger(ino, offset, size, r).v; Owned(w) && w.live == r.v.live && Live(w, ino)
  {
    hide Owned, Within;
    if r.done > 0 && offset + r.done > size {
      SameMapOwned(r.v, ino, r.n, r.n.(size := offset + r.done));
    } else {
      StaleInodeOwned(r.v, r.n, ino);
    }
  }

  /** Ownership survives every write, complete, short or failing. */
  lemma NodeWriteOwned(v: Vol, ino: nat, offset: nat, buf: seq<Byte>)
    requires Owned(v) && Live(v, ino) && offset + |buf| < 0x1_0000_0000
    ensures var r := NodeWrite(v, ino, offset, buf);
            Owned(r.v) && Live(r.v, ino) && r.v.live == v.live && r.done <= |buf|
  {
    WriteParts(v, ino, offset, buf);
    TableFirst(v, ino);
    hide WriteFrom, Owned, NodeWrite, Within, Editing;
    StoredOrStale(ino, offset, GetInode(v, ino).size, WriteFrom(v, ino, GetInode(v, ino), offset, buf));
  }

  /** A file without a table has no deeper tables either. */
  lemma TableFirst(v: Vol, ino: nat)
    requires Owned(v) && Live(v, ino)
    ensures var n := GetInode(v, ino);
            ino !in v.geo.reserved && n.block[12] == 0 ==> n.block[13] == 0 && n.block[14] == 0
  {
    assert ino !in v.geo.reserved && P(v, ino, Single) == 0 ==> P(v, ino, Double) == 0 && P(v, ino, Triple) == 0;
  }

  /** Pointers of m that were set in v are read through n just as well, when n only adds to m. */
  lemma WithinLookup(v: Vol, w: Vol, m: Inode, n: Inode, x: nat)
    requires v.geo.Sizes() && w.geo == v.geo && Within(m, n) && MappedAt(v, m, x)
    ensures Lookup(w, m, x / v.geo.blockSize) == Lookup(w, n, x / v.geo.blockSize)
  {
    var loc := PlaceOf(PerTable(v), x / v.geo.blockSize);
    assert m.block[12] == 0 || m.block[12] == n.block[12];
    assert m.block[13] == 0 || m.block[13] == n.block[13];
    assert Entry(v, 0, 0) == 0;
  }

  lemma WithinBytes(v: Vol, w: Vol, m: Inode, n: Inode, x: nat)
    requires v.geo.Sizes() && w.geo == v.geo && Within(m, n) && MappedAt(v, m, x)
    ensures MappedAt(w, m, x) == MappedAt(w, n, x) && ByteAt(w, m, x) == ByteAt(w, n, x)
  {
    WithinLookup(v, w, m, n, x);
  }

  /** The inode as it stands on the volume after the write: either stored with its new size or left as it was. */
  lemma AfterWrite(v: Vol, ino: nat, offset: nat, buf: seq<Byte>)
    requires Owned(v) && Live(v, ino) && offset + |buf| < 0x1_0000_0000
    requires HoleFree(v, GetInode(v, ino)) && offset <= GetInode(v, ino).size
    ensures var r, n := NodeWrite(v, ino, offset, buf), GetInode(v, ino);
            Live(r.v, ino) && r.v.geo == v.geo && r.done <= |buf| &&
            var m := GetInode(r.v, ino);
            m.size == (if offset + r.done > n.size then offset + r.done else n.size) &&
            Stored(r.v, m, offset, buf[..r.done]) && Kept(v, n, r.v, m, offset, offset + r.done)
  {
    hide Allocated, Exclusive, Chained, BlocksSized, MetaUsed, Geometry.MetaReserved, Geometry.MetaApart,
         Geometry.Totals, Lookup, WriteFrom, ByteAt, Untouched;
    SelfPut(v, ino);
    var n := GetInode(v, ino);
    var r := WriteFrom(v, ino, n, offset, buf);
    var s := NodeWrite(v, ino, offset, buf);
    var m := GetInode(s.v, ino);
    if r.done > 0 && offset + r.done > n.size {
      SameMapBytes(s.v, r.n, m);
      SameDataBytes(r.v, s.v, r.n);
    } else {
      assert m == n && s.v == r.v;
      forall x: nat | MappedAt(v, n, x)
        ensures MappedAt(r.v, n, x) == MappedAt(r.v, r.n, x) && ByteAt(r.v, n, x) == ByteAt(r.v, r.n, x)
      {
        WithinBytes(v, r.v, n, r.n, x);
      }
      forall x: nat | offset <= x < offset + r.done ensures MappedAt(v, n, x) {}
    }
  }

  lemma SameDataBytes(v: Vol, w: Vol, n: Inode)
    requires v.geo.Sizes() && w.geo == v.geo && w.data == v.data
    ensures forall x: nat :: MappedAt(w, n, x) == MappedAt(v, n, x) && ByteAt(w, n, x) == ByteAt(v, n, x)
  {
    forall l: nat ensures Lookup(w, n, l) == Lookup(v, n, l) {
      PtrOfData(v, w, n, PlaceOf(PerTable(v), l));
    }
  }

  /** The sequence with data laid over it at offset, grown when data reaches past its end. */
  function Splice(s: seq<Byte>, offset: nat, data: seq<Byte>): seq<Byte>
    requires offset <= |s|
  {
    s[..offset] + data + (if offset + |data| < |s| then s[offset + |data|..] else [])
  }

  /**
   * Write/read agreement: a write that returns d replaces exactly d bytes, extending the file when it must;
   * the file stays free of holes and reads back what was written.
   */
  lemma WriteReadAgreement(v: Vol, ino: nat, offset: nat, buf: seq<Byte>)
    requires Owned(v) && Live(v, ino) && offset + |buf| < 0x1_0000_0000
    requires HoleFree(v, GetInode(v, ino)) && offset <= GetInode(v, ino).size
    ensures var r := NodeWrite(v, ino, offset, buf);
            Live(r.v, ino) && r.v.geo == v.geo && r.done <= |buf| &&
            HoleFree(r.v, GetInode(r.v, ino)) &&
            FileBytes(r.v, GetInode(r.v, ino)) == Splice(FileBytes(v, GetInode(v, ino)), offset, buf[..r.done]) &&
            ReadData(r.v, GetInode(r.v, ino), offset, r.done) == buf[..r.done]
  {
    AfterWrite(v, ino, offset, buf);
    var n, r := GetInode(v, ino), NodeWrite(v, ino, offset, buf);
    hide Owned, Lookup, NodeWrite, ByteAt, MappedAt, ReadData, Stored, Kept, Splice, FileBytes;
    Spliced(v, n, r.v, GetInode(r.v, ino), offset, buf[..r.done]);
  }

  /** A write that stays inside the file is never short. */
  lemma WriteInsideIsFull(v: Vol, ino: nat, offset: nat, buf: seq<Byte>)
    requires Owned(v) && Live(v, ino) && offset + |buf| < 0x1_0000_0000
    requires HoleFree(v, GetInode(v, ino)) && offset + |buf| <= GetInode(v, ino).size
    ensures NodeWrite(v, ino, offset, buf).done == |buf|
  {
    SelfPut(v, ino);
    MappedWriteIsFull(v, ino, GetInode(v, ino), offset, buf);
  }

  lemma Spliced(v: Vol, n: Inode, w: Vol, m: Inode, offset: nat, data: seq<Byte>)
    requires v.geo.Sizes() && w.geo == v.geo && HoleFree(v, n) && offset <= n.size
    requires m.size == if offset + |data| > n.size then offset + |data| else n.size as int
    requires Stored(w, m, offset, data) && Kept(v, n, w, m, offset, offset + |data|)
    ensures HoleFree(w, m)
    ensures FileBytes(w, m) == Splice(FileBytes(v, n), offset, data)
    ensures ReadData(w, m, offset, |data|) == data
  {
    hide Lookup, ByteAt, MappedAt;
    var old_, new_, end := FileBytes(v, n), FileBytes(w, m), offset + |data|;
    var want := Splice(old_, offset, data);
    forall x: nat | x < m.size ensures new_[x] == want[x] && MappedAt(w, m, x) {
      if offset <= x < end {
        assert data[x - offset] == want[x];
      } else {
        assert MappedAt(v, n, x) && old_[x] == ByteAt(v, n, x);
      }
    }
    assert new_ == want;
    if offset < m.size {
      ReadEndIsFirstHole(w, m, offset, end);
      assert ReadData(w, m, offset, |data|) == BytesOf(w, m, offset, end);
    }
  }

  /** A write changes at most the one inode, and nobody else's blocks or bytes. */
  lemma WriteFrame(v: Vol, ino: nat, offset: nat, buf: seq<Byte>)
    requires Owned(v) && Live(v, ino) && offset + |buf| < 0x1_0000_0000
    ensures var r, n := NodeWrite(v, ino, offset, buf), GetInode(v, ino);
            Untouched(v, r.v, ino) && r.v.inodes == v.inodes[ino - 1 := GetInode(r.v, ino)] &&
            var m := GetInode(r.v, ino);
            m == n.(block := m.block, blocks := m.blocks, size := m.size)
  {
    SelfPut(v, ino);
    var n := GetInode(v, ino);
    var r := WriteFrom(v, ino, n, offset, buf);
    var s := NodeWrite(v, ino, offset, buf);
    UntouchedSize(v, r.v, ino, r.n, GetInode(s.v, ino));
    assert s.v == PutInode(r.v, ino, GetInode(s.v, ino)) by { SelfPut(r.v, ino); }
  }

  /** Every other live file keeps its inode, its mapping and its bytes. */
  lemma WriteLeavesOthers(v: Vol, ino: nat, offset: nat, buf: seq<Byte>, j: nat)
    requires Owned(v) && Live(v, ino) && offset + |buf| < 0x1_0000_0000 && Live(v, j) && j != ino
    ensures var r := NodeWrite(v, ino, offset, buf);
            r.v.geo == v.geo && Live(r.v, j) && GetInode(r.v, j) == GetInode(v, j) && SameFile(v, r.v, j)
  {
    WriteFrame(v, ino, offset, buf);
    UntouchedIsSame(v, NodeWrite(v, ino, offset, buf).v, ino, j);
  }
}
