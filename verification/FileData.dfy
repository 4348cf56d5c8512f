/** File contents: ext2_read_data, ext2_write_data and ext2_node_write over the block map. */
module FileData {
  import opened Bytes
  import opened InodeCodec
  import opened VolumeState
  import opened BlockMap
  import opened FileMap

  // ---------------------------------------------------------------- the byte view

  /** Byte x of a file; 0 where nothing is mapped. */
  function ByteAt(v: Vol, n: Inode, x: nat): Byte
    requires v.geo.Sizes()
  {
    var b := Content(v, Lookup(v, n, x / v.geo.blockSize));
    if x % v.geo.blockSize < |b| then b[x % v.geo.blockSize] else 0
  }

  predicate MappedAt(v: Vol, n: Inode, x: nat)
    requires v.geo.Sizes()
  {
    Lookup(v, n, x / v.geo.blockSize) != 0
  }

  function BytesOf(v: Vol, n: Inode, lo: nat, hi: nat): (r: seq<Byte>)
    requires v.geo.Sizes() && lo <= hi
    ensures |r| == hi - lo && forall i {:trigger r[i]} :: 0 <= i < |r| ==> r[i] == ByteAt(v, n, lo + i)
  {
    seq<Byte>(hi - lo, i requires 0 <= i < hi - lo => ByteAt(v, n, lo + i))
  }

  /** A file without holes: every byte below its size is mapped. */
  ghost predicate HoleFree(v: Vol, n: Inode)
    requires v.geo.Sizes()
  {
    forall x: nat :: x < n.size ==> MappedAt(v, n, x)
  }

  function FileBytes(v: Vol, n: Inode): seq<Byte>
    requires v.geo.Sizes()
  {
    BytesOf(v, n, 0, n.size)
  }

  // ---------------------------------------------------------------- reading

  /** First byte of the block after the one x lies in. */
  function NextStart(x: nat, bs: nat): nat
    requires bs > 0
  {
    (x / bs + 1) * bs
  }

  lemma SameUntilNext(x: nat, y: nat, bs: nat)
    requires bs == 1024 || bs == 2048
    ensures x < NextStart(x, bs)
    ensures x <= y < NextStart(x, bs) ==> y / bs == x / bs
  {}

  /** Where a read of lo..hi stops: at the first unmapped block, or at hi. */
  function ReadEnd(v: Vol, n: Inode, lo: nat, hi: nat): (r: nat)
    requires v.geo.Sizes() && lo <= hi
    ensures lo <= r <= hi
    decreases hi - lo
  {
    SameUntilNext(lo, lo, v.geo.blockSize);
    if lo == hi || !MappedAt(v, n, lo) then lo
    else if NextStart(lo, v.geo.blockSize) >= hi then hi
    else ReadEnd(v, n, NextStart(lo, v.geo.blockSize), hi)
  }

  lemma {:induction false} ReadEndIsFirstHole(v: Vol, n: Inode, lo: nat, hi: nat)
    requires v.geo.Sizes() && lo <= hi
    ensures forall x: nat :: lo <= x < ReadEnd(v, n, lo, hi) ==> MappedAt(v, n, x)
    ensures ReadEnd(v, n, lo, hi) < hi ==> !MappedAt(v, n, ReadEnd(v, n, lo, hi))
    decreases hi - lo
  {
    hide NextStart, Lookup;
    var next := NextStart(lo, v.geo.blockSize);
    SameUntilNext(lo, lo, v.geo.blockSize);
    if lo < hi && MappedAt(v, n, lo) {
      forall x: nat | lo <= x < next ensures MappedAt(v, n, x) {
        SameUntilNext(lo, x, v.geo.blockSize);
      }
      if next < hi {
        ReadEndIsFirstHole(v, n, next, hi);
      }
    }
  }

  /** What ext2_read_data delivers for size bytes at offset. */
  function ReadData(v: Vol, n: Inode, offset: nat, size: nat): seq<Byte>
    requires v.geo.Sizes()
  {
    if offset >= n.size then []
    else
      var end := if offset + size > n.size then n.size as nat else offset + size;
      BytesOf(v, n, offset, ReadEnd(v, n, offset, end))
  }

  // ---------------------------------------------------------------- writing

  datatype Written = Written(v: Vol, n: Inode, done: nat)

  /** The dirty in-memory inode n of inode ino goes with volume v. */
  ghost predicate Editing(v: Vol, ino: nat, n: Inode) {
    Live(v, ino) && Owned(PutInode(v, ino, n))
  }

  /** The block a chunk at byte off goes to: allocated only at or past the end of the file. */
  function TargetBlock(v: Vol, ghost ino: nat, n: Inode, off: nat): (g: Grown)
    requires Editing(v, ino, n)
  {
    var l := off / v.geo.blockSize;
    if Lookup(v, n, l) == 0 && off >= n.size then
      FileAllocGrows(v, n, ino, l);
      FileAlloc(v, n, l)
    else Grown(v, n, Lookup(v, n, l))
  }

  lemma TargetObtained(v: Vol, ino: nat, n: Inode, off: nat)
    requires Editing(v, ino, n)
    ensures var g, u := TargetBlock(v, ino, n, off), PutInode(v, ino, n);
            var at := PlaceOf(PerTable(v), off / v.geo.blockSize);
            Obtained(u, PutInode(g.v, ino, g.n), ino, at, g.phys) && Within(n, g.n) && SameButMap(n, g.n)
            && g.v.inodes == v.inodes && g.v.live == v.live
            && (g.phys == 0 || v.geo.IsData(g.phys)) && Live(g.v, ino) && g.v.geo == v.geo && Shape(g.v)
            && (MappedAt(v, n, off) ==> g.phys == Lookup(v, n, off / v.geo.blockSize))
  {
    var u, l := PutInode(v, ino, n), off / v.geo.blockSize;
    if Lookup(v, n, l) == 0 && off >= n.size {
      FileAllocGrows(v, n, ino, l);
      FileAllocKeeps(v, n, l);
      GotIsData(u, FileAlloc(v, n, l), ino, PlaceOf(PerTable(v), l));
      hide FileAlloc, Owned, GrowsAt, Ptr, PlaceOf;
    } else {
      PtrOfData(v, u, n, PlaceOf(PerTable(v), l));
      DataPlace(PerTable(v), l);
      hide PlaceOf;
    }
  }

  lemma FileAllocKeeps(v: Vol, n: Inode, l: nat)
    requires TableReady(v, n)
    ensures var g := FileAlloc(v, n, l); g.v.inodes == v.inodes && g.v.live == v.live && g.v.geo == v.geo
  {
    LowestFreeIsData(v);
  }

  /** The block obtained is one the inode points to. */
  lemma GotIsData(u: Vol, g: Grown, ino: nat, at: Loc)
    requires InodeNumber(u, ino) && InodeNumber(g.v, ino) && Live(u, ino)
    requires Obtained(u, PutInode(g.v, ino, g.n), ino, at, g.phys)
    ensures g.phys == 0 || g.v.geo.IsData(g.phys)
    ensures Live(g.v, ino) && Shape(g.v)
  {
    var w := PutInode(g.v, ino, g.n);
    assert g.phys != 0 ==> P(w, ino, at) == g.phys;
    hide Ptr;
  }

  /** One round of the write loop; done is 0 when no block can be had. */
  function WriteChunk(v: Vol, ghost ino: nat, n: Inode, off: nat, rest: seq<Byte>): (r: Written)
    requires Editing(v, ino, n) && rest != [] && off + |rest| < 0x1_0000_0000
    ensures r.done <= |rest|
  {
    TargetObtained(v, ino, n, off);
    var g := TargetBlock(v, ino, n, off);
    var at := off % v.geo.blockSize;
    var chunk := if |rest| > v.geo.blockSize - at then v.geo.blockSize - at else |rest|;
    if g.phys == 0 then Written(g.v, g.n, 0)
    else
      var size: Word32 := if off >= g.n.size then off + |rest| else g.n.size;
      Written(PutBlock(g.v, g.phys, Patch(g.v.data[g.phys], at, rest[..chunk])), g.n.(size := size), chunk)
  }

  // ---------------------------------------------------------------- one round

  /** Inodes other than ino keep their pointers and their contents. */
  ghost predicate Untouched(v: Vol, w: Vol, ino: nat) {
    && w.live == v.live && |w.inodes| == |v.inodes| && w.geo == v.geo
    && (forall i, loc :: Live(v, i) && i != ino ==> P(w, i, loc) == P(v, i, loc))
    && (forall i, loc :: Live(v, i) && i != ino && HoldsData(loc) && P(v, i, loc) != 0 ==>
          Content(w, P(v, i, loc)) == Content(v, P(v, i, loc)))
  }

  /** Bytes outside lo..hi that were mapped still are, and hold the same value. */
  ghost predicate Kept(v: Vol, n: Inode, w: Vol, m: Inode, lo: nat, hi: nat)
    requires v.geo.Sizes() && w.geo.Sizes()
  {
    forall x: nat :: !(lo <= x < hi) && MappedAt(v, n, x) ==> MappedAt(w, m, x) && ByteAt(w, m, x) == ByteAt(v, n, x)
  }

  /** The bytes from lo on are mapped and hold data. */
  ghost predicate Stored(w: Vol, m: Inode, lo: nat, data: seq<Byte>)
    requires w.geo.Sizes()
  {
    forall x: nat :: lo <= x < lo + |data| ==> MappedAt(w, m, x) && ByteAt(w, m, x) == data[x - lo]
  }

  lemma SameMapOwned(v: Vol, ino: nat, n: Inode, m: Inode)
    requires Editing(v, ino, n) && m.block == n.block
    ensures Editing(v, ino, m)
    ensures forall i, loc :: Live(v, i) ==> P(PutInode(v, ino, m), i, loc) == P(PutInode(v, ino, n), i, loc)
  {
    var u, w := PutInode(v, ino, n), PutInode(v, ino, m);
    forall i, loc | Live(v, i) ensures P(w, i, loc) == P(u, i, loc) {}
    assert forall i, loc :: Live(w, i) ==> Moved(u, w, 0, Single, 0, i, loc);
    forall i | Live(w, i) && i !in w.geo.reserved && P(w, i, Single) == 0 ensures P(w, i, Double) == 0 && P(w, i, Triple) == 0 {
      assert P(u, i, Single) == 0;
    }
    OwnedAfter(u, w, 0, Single, 0);
  }

  /** Writing into the block mapped at one place of ino: pointers stay, and so do all other data blocks. */
  lemma StoreOwned(v: Vol, ino: nat, n: Inode, at: Loc, b: nat, c: Block)
    requires Editing(v, ino, n) && HoldsData(at) && b != 0 && Ptr(v, n, at) == b && |c| == v.geo.blockSize
    ensures v.geo.IsData(b) && b < |v.data|
    ensures Editing(PutBlock(v, b, c), ino, n)
    ensures Untouched(PutInode(v, ino, n), PutInode(PutBlock(v, b, c), ino, n), ino)
    ensures forall loc :: Ptr(PutBlock(v, b, c), n, loc) == Ptr(v, n, loc)
    ensures forall loc :: HoldsData(loc) && loc != at && Ptr(v, n, loc) != 0 ==>
              Content(PutBlock(v, b, c), Ptr(v, n, loc)) == Content(v, Ptr(v, n, loc))
  {
    var u := PutInode(v, ino, n);
    forall loc ensures Ptr(u, n, loc) == Ptr(v, n, loc) { PtrOfData(v, u, n, loc); }
    assert P(u, ino, at) == b;
    WriteMovesNothing(u, b, c);
    var w := PutBlock(u, b, c);
    assert w == PutInode(PutBlock(v, b, c), ino, n);
    forall loc ensures Ptr(PutBlock(v, b, c), n, loc) == Ptr(v, n, loc) {
      PtrOfData(PutBlock(v, b, c), w, n, loc);
      assert P(w, ino, loc) == P(u, ino, loc);
    }
    forall loc | HoldsData(loc) && loc != at && Ptr(v, n, loc) != 0
      ensures Content(PutBlock(v, b, c), Ptr(v, n, loc)) == Content(v, Ptr(v, n, loc))
    {
      assert P(u, ino, loc) == Ptr(v, n, loc);
    }
  }

  /** After the target block is had: what the round keeps and what it stores. */
  lemma StoreBytes(v: Vol, ino: nat, n: Inode, off: nat, data: seq<Byte>)
    requires Editing(v, ino, n) && MappedAt(v, n, off) && off % v.geo.blockSize + |data| <= v.geo.blockSize
    ensures var b := Lookup(v, n, off / v.geo.blockSize);
            b < |v.data| && |v.data[b]| == v.geo.blockSize &&
            var w := PutBlock(v, b, Patch(v.data[b], off % v.geo.blockSize, data));
            Stored(w, n, off, data) && Kept(v, n, w, n, off, off + |data|)
  {
    var bs, l := v.geo.blockSize, off / v.geo.blockSize;
    var b := Lookup(v, n, l);
    var at := PlaceOf(PerTable(v), l);
    DataPlace(PerTable(v), l);
    assert P(PutInode(v, ino, n), ino, at) == b by { PtrOfData(v, PutInode(v, ino, n), n, at); }
    var c := Patch(v.data[b], off % bs, data);
    StoreOwned(v, ino, n, at, b, c);
    var w := PutBlock(v, b, c);
    forall x: nat ensures Lookup(w, n, x / bs) == Lookup(v, n, x / bs) {}
    forall x: nat | off <= x < off + |data| ensures MappedAt(w, n, x) && ByteAt(w, n, x) == data[x - off] {
      assert x / bs == l && x % bs == x - off + off % bs;
    }
    forall x: nat | !(off <= x < off + |data|) && MappedAt(v, n, x)
      ensures MappedAt(w, n, x) && ByteAt(w, n, x) == ByteAt(v, n, x)
    {
      if x / bs == l {
      } else {
        PlacesDistinct(PerTable(v), x / bs, l);
        DataPlace(PerTable(v), x / bs);
      }
    }
  }

  /** Getting the target block keeps every mapped byte and every other inode. */
  lemma TargetKeeps(v: Vol, ino: nat, n: Inode, off: nat)
    requires Editing(v, ino, n)
    ensures var g := TargetBlock(v, ino, n, off);
            Editing(g.v, ino, g.n) && g.v.geo == v.geo && Kept(v, n, g.v, g.n, 0, 0)
            && Untouched(PutInode(v, ino, n), PutInode(g.v, ino, g.n), ino) && Within(n, g.n) && SameButMap(n, g.n)
            && (g.phys != 0 ==> Lookup(g.v, g.n, off / v.geo.blockSize) == g.phys)
            && (g.phys == 0 ==> !MappedAt(v, n, off))
  {
    TargetObtained(v, ino, n, off);
    var g, u, bs := TargetBlock(v, ino, n, off), PutInode(v, ino, n), v.geo.blockSize;
    var w, at := PutInode(g.v, ino, g.n), PlaceOf(PerTable(v), off / bs);
    hide TargetBlock, Owned, Shape, PlaceOf, Ptr;
    forall x: nat | MappedAt(v, n, x)
      ensures MappedAt(g.v, g.n, x) && ByteAt(g.v, g.n, x) == ByteAt(v, n, x)
    {
      var loc := PlaceOf(PerTable(v), x / bs);
      DataPlace(PerTable(v), x / bs);
      PtrOfData(v, u, n, loc);
      PtrOfData(g.v, w, g.n, loc);
      assert P(u, ino, loc) == Lookup(v, n, x / bs);
      assert P(w, ino, loc) == P(u, ino, loc);
      assert Content(w, P(u, ino, loc)) == Content(u, P(u, ino, loc));
    }
    PtrOfData(g.v, w, g.n, at);
    PtrOfData(v, u, n, at);
    DataPlace(PerTable(v), off / bs);
    assert P(w, ino, at) == Lookup(g.v, g.n, off / bs);
    assert P(u, ino, at) == Lookup(v, n, off / bs);
  }

  /** Everything promised of a partial or complete write of rest at off. */
  ghost predicate Wrote(v: Vol, ino: nat, n: Inode, off: nat, rest: seq<Byte>, r: Written)
    requires v.geo.Sizes() && InodeNumber(v, ino)
  {
    && r.done <= |rest| && Editing(r.v, ino, r.n) && r.v.geo == v.geo
    && r.v.inodes == v.inodes && r.v.live == v.live
    && Untouched(PutInode(v, ino, n), PutInode(r.v, ino, r.n), ino)
    && Within(n, r.n) && r.n == n.(block := r.n.block, blocks := r.n.blocks, size := r.n.size)
    && Stored(r.v, r.n, off, rest[..r.done]) && Kept(v, n, r.v, r.n, off, off + r.done)
  }

  lemma ChunkWrote(v: Vol, ino: nat, n: Inode, off: nat, rest: seq<Byte>)
    requires Editing(v, ino, n) && rest != [] && off + |rest| < 0x1_0000_0000
    ensures Wrote(v, ino, n, off, rest, WriteChunk(v, ino, n, off, rest))
    ensures WriteChunk(v, ino, n, off, rest).done == 0 ==> !MappedAt(v, n, off)
  {
    TargetObtained(v, ino, n, off);
    TargetKeeps(v, ino, n, off);
    var g, at, r := TargetBlock(v, ino, n, off), off % v.geo.blockSize, WriteChunk(v, ino, n, off, rest);
    hide TargetBlock, Owned, Ptr, PlaceOf, Lookup;
    if g.phys != 0 {
      var m := PutBlock(g.v, g.phys, Patch(g.v.data[g.phys], at, rest[..r.done]));
      StoreBytes(g.v, ino, g.n, off, rest[..r.done]);
      StoreLookup(g.v, ino, g.n, off, Patch(g.v.data[g.phys], at, rest[..r.done]));
      SameMapOwned(m, ino, g.n, r.n);
      SameMapBytes(m, g.n, r.n);
      SameMapBytes(g.v, g.n, r.n);
      UntouchedTwice(PutInode(v, ino, n), PutInode(g.v, ino, g.n), PutInode(m, ino, g.n), ino);
      UntouchedSize(PutInode(v, ino, n), m, ino, g.n, r.n);
    }
  }

  lemma StoreLookup(v: Vol, ino: nat, n: Inode, off: nat, c: Block)
    requires Editing(v, ino, n) && MappedAt(v, n, off) && |c| == v.geo.blockSize
    ensures var b := Lookup(v, n, off / v.geo.blockSize);
            b < |v.data| && Editing(PutBlock(v, b, c), ino, n)
            && Untouched(PutInode(v, ino, n), PutInode(PutBlock(v, b, c), ino, n), ino)
  {
    var at := PlaceOf(PerTable(v), off / v.geo.blockSize);
    DataPlace(PerTable(v), off / v.geo.blockSize);
    StoreOwned(v, ino, n, at, Lookup(v, n, off / v.geo.blockSize), c);
  }

  lemma SameMapBytes(v: Vol, n: Inode, m: Inode)
    requires v.geo.Sizes() && m.block == n.block
    ensures forall x: nat :: MappedAt(v, m, x) == MappedAt(v, n, x) && ByteAt(v, m, x) == ByteAt(v, n, x)
  {
    forall l: nat ensures Lookup(v, m, l) == Lookup(v, n, l) {}
  }

  lemma UntouchedTwice(u: Vol, m: Vol, w: Vol, ino: nat)
    requires Untouched(u, m, ino) && Untouched(m, w, ino)
    ensures Untouched(u, w, ino)
  {
    forall i, loc | Live(u, i) && i != ino && HoldsData(loc) && P(u, i, loc) != 0
      ensures Content(w, P(u, i, loc)) == Content(u, P(u, i, loc))
    {
      assert P(m, i, loc) == P(u, i, loc);
    }
  }

  lemma UntouchedSize(u: Vol, v: Vol, ino: nat, n: Inode, m: Inode)
    requires InodeNumber(v, ino) && Untouched(u, PutInode(v, ino, n), ino)
    ensures Untouched(u, PutInode(v, ino, m), ino)
  {
    var a, b := PutInode(v, ino, n), PutInode(v, ino, m);
    forall i, loc | Live(u, i) && i != ino ensures P(b, i, loc) == P(a, i, loc) {
      PtrOfData(a, b, GetInode(a, i), loc);
    }
  }

  /** The write loop from byte off on; the file size is raised to the end once everything is written. */
  function WriteFrom(v: Vol, ghost ino: nat, n: Inode, off: nat, rest: seq<Byte>): (r: Written)
    requires Editing(v, ino, n) && off + |rest| < 0x1_0000_0000
    ensures Wrote(v, ino, n, off, rest, r)
    decreases |rest|
  {
    if rest == [] then
      var size: Word32 := if off > n.size then off else n.size;
      NothingWrote(v, ino, n, off, size);
      Written(v, n.(size := size), 0)
    else
      ChunkWrote(v, ino, n, off, rest);
      var c := WriteChunk(v, ino, n, off, rest);
      if c.done == 0 then c
      else
        var r := WriteFrom(c.v, ino, c.n, off + c.done, rest[c.done..]);
        WroteTwice(v, ino, n, off, rest, c, r);
        Written(r.v, r.n, c.done + r.done)
  }

  lemma NothingWrote(v: Vol, ino: nat, n: Inode, off: nat, size: Word32)
    requires Editing(v, ino, n)
    ensures Wrote(v, ino, n, off, [], Written(v, n.(size := size), 0))
  {
    SameMapOwned(v, ino, n, n.(size := size));
    SameMapBytes(v, n, n.(size := size));
  }

  lemma WroteTwice(v: Vol, ino: nat, n: Inode, off: nat, rest: seq<Byte>, c: Written, r: Written)
    requires v.geo.Sizes() && InodeNumber(v, ino) && Wrote(v, ino, n, off, rest, c) && c.done <= |rest|
    requires Wrote(c.v, ino, c.n, off + c.done, rest[c.done..], r)
    ensures Wrote(v, ino, n, off, rest, Written(r.v, r.n, c.done + r.done))
  {
    hide Owned, Lookup, ByteAt;
    UntouchedTwice(PutInode(v, ino, n), PutInode(c.v, ino, c.n), PutInode(r.v, ino, r.n), ino);
    var d := c.done + r.done;
    forall x: nat | off <= x < off + d ensures MappedAt(r.v, r.n, x) && ByteAt(r.v, r.n, x) == rest[..d][x - off] {
      if x < off + c.done {
        assert rest[..c.done][x - off] == rest[x - off];
      } else {
        assert rest[c.done..][..r.done][x - off - c.done] == rest[x - off];
      }
    }
    forall x: nat | !(off <= x < off + d) && MappedAt(v, n, x)
      ensures MappedAt(r.v, r.n, x) && ByteAt(r.v, r.n, x) == ByteAt(v, n, x)
    {
      assert MappedAt(c.v, c.n, x);
    }
  }

  /** A write into bytes that are all mapped already is never short. */
  lemma {:induction false} MappedWriteIsFull(v: Vol, ino: nat, n: Inode, off: nat, rest: seq<Byte>)
    requires Editing(v, ino, n) && off + |rest| < 0x1_0000_0000
    requires forall x: nat :: off <= x < off + |rest| ==> MappedAt(v, n, x)
    ensures WriteFrom(v, ino, n, off, rest).done == |rest|
    decreases |rest|
  {
    hide WriteChunk, Allocated, Exclusive, Chained, BlocksSized, MetaUsed, MappedAt, ByteAt, Untouched, Stored, Within,
         Geometry.MetaReserved, Geometry.MetaApart, Geometry.Totals;
    if rest != [] {
      ChunkWrote(v, ino, n, off, rest);
      var c := WriteChunk(v, ino, n, off, rest);
      forall x: nat | off + c.done <= x < off + |rest| ensures MappedAt(c.v, c.n, x) {
        assert MappedAt(v, n, x);
      }
      MappedWriteIsFull(c.v, ino, c.n, off + c.done, rest[c.done..]);
    }
  }

  /** The loop body once: a round without progress ends the write, any other leaves the rest to be written. */
  lemma WriteStep(v: Vol, ino: nat, n: Inode, off: nat, rest: seq<Byte>)
    requires Editing(v, ino, n) && rest != [] && off + |rest| < 0x1_0000_0000
    ensures var c := WriteChunk(v, ino, n, off, rest);
            c.done <= |rest| && Editing(c.v, ino, c.n) &&
            if c.done == 0 then WriteFrom(v, ino, n, off, rest) == c
            else var r := WriteFrom(c.v, ino, c.n, off + c.done, rest[c.done..]);
                 WriteFrom(v, ino, n, off, rest) == Written(r.v, r.n, c.done + r.done)
  {
    hide WriteChunk, Editing, MappedAt;
    ChunkWrote(v, ino, n, off, rest);
    hide Wrote;
  }

  lemma WriteEnd(v: Vol, ino: nat, n: Inode, off: nat, rest: seq<Byte>)
    requires Editing(v, ino, n) && off < 0x1_0000_0000 && rest == []
    ensures WriteFrom(v, ino, n, off, rest) == Written(v, n.(size := if off > n.size then off else n.size), 0)
  {
    hide WriteChunk, Editing, Wrote;
  }
}
