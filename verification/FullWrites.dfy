/** How far a write gets: the exact count ext2_write_data returns, and when it is the whole request. */
module FullWrites {
  import opened Bytes
  import opened InodeCodec
  import opened VolumeState
  import opened BlockMap
  import opened FileMap
  import opened FileData
  import opened FileTheorems
  import opened DirRecords
  import opened DirData

  // ---------------------------------------------------------------- free blocks

  lemma FreeSetTake(v: Vol)
    requires Shape(v)
    ensures LowestFree(v) == 0 <==> FreeSet(v) == {}
    ensures LowestFree(v) != 0 ==>
              FreeSet(Take(v, LowestFree(v))) == FreeSet(v) - {LowestFree(v)} && LowestFree(v) in FreeSet(v)
  {
    LowestFreeIsData(v);
    if LowestFree(v) == 0 {
      assert forall b :: b in FreeSet(v) ==> b in v.used;
    } else {
      assert LowestFree(v) in FreeSet(v);
    }
  }

  /** Whether a block can be had for an index that has none: in range, with a free block and one more for a missing table. */
  ghost predicate CanGet(v: Vol, n: Inode, l: nat) {
    l < DIRECT + PerTable(v) && |FreeSet(v)| >= if l >= DIRECT && n.block[12] == 0 then 2 else 1
  }

  lemma FileAllocGets(v: Vol, ino: nat, n: Inode, l: nat)
    requires Editing(v, ino, n) && Lookup(v, n, l) == 0
    ensures TableReady(v, n)
    ensures FileAlloc(v, n, l).phys != 0 <==> CanGet(v, n, l)
  {
    TableGrown(v, n, ino);
    FreeSetTake(v);
    LowestFreeIsData(v);
    if DIRECT <= l < DIRECT + PerTable(v) {
      FileAllocIndirect(v, n, l);
      TableAfter(v, n);
      if n.block[12] == 0 { FreshTableGets(v, n, l - DIRECT); } else { EntryGets(v, n, l - DIRECT); }
    } else if l < DIRECT {
      hide Owned, Ptr;
      if LowestFree(v) == 0 { assert |FreeSet(v)| == 0; } else { assert |FreeSet(v)| >= 1; }
    }
  }

  lemma EntryGets(v: Vol, n: Inode, k: nat)
    requires TableReady(v, n) && n.block[12] != 0 && k < PerTable(v) && Entry(v, n.block[12], k) == 0
    ensures EntryAlloc(v, n, k).phys != 0 <==> FreeSet(v) != {}
  {
    FreeSetTake(v);
    LowestFreeIsData(v);
  }

  /** A fresh table is empty; it takes one free block before the data block takes another. */
  lemma FreshTableGets(v: Vol, n: Inode, k: nat)
    requires TableReady(v, n) && n.block[12] == 0 && k < PerTable(v)
    requires TableReady(EnsureTable(v, n).v, EnsureTable(v, n).n)
    ensures var t := EnsureTable(v, n);
            (t.phys != 0 <==> FreeSet(v) != {}) &&
            (t.phys != 0 ==>
               t.n.block[12] != 0 && k < PerTable(t.v) && (EntryAlloc(t.v, t.n, k).phys != 0 <==> |FreeSet(v)| >= 2))
  {
    FreeSetTake(v);
    LowestFreeIsData(v);
    var t := EnsureTable(v, n);
    if t.phys != 0 {
      ZeroEntries(v.geo.blockSize, k);
      assert FreeSet(t.v) == FreeSet(v) - {LowestFree(v)};
      assert |FreeSet(t.v)| == |FreeSet(v)| - 1;
      EntryGets(t.v, t.n, k);
      assert FreeSet(t.v) == {} <==> |FreeSet(t.v)| == 0;
    }
  }

  // ---------------------------------------------------------------- one round

  /** What one round of the loop does to the mapping, the size and the chance of getting more. */
  lemma ChunkMaps(v: Vol, ino: nat, n: Inode, off: nat, rest: seq<Byte>)
    requires Editing(v, ino, n) && rest != [] && off + |rest| < 0x1_0000_0000
    ensures var c, l := WriteChunk(v, ino, n, off, rest), off / v.geo.blockSize;
            c.v.geo == v.geo && Editing(c.v, ino, c.n) &&
            (c.done == 0 <==> Lookup(v, n, l) == 0 && (off < n.size || !CanGet(v, n, l))) &&
            (c.done != 0 ==> c.n.size == (if off >= n.size then off + |rest| else n.size as nat) &&
                             c.done == if NextStart(off, v.geo.blockSize) >= off + |rest| then |rest|
                                       else NextStart(off, v.geo.blockSize) - off) &&
            (forall k: nat :: k != l ==> Lookup(c.v, c.n, k) == Lookup(v, n, k)) &&
            (Lookup(v, n, l) != 0 ==> c.v.used == v.used && c.n.block == n.block)
  {
    var l, bs := off / v.geo.blockSize, v.geo.blockSize;
    var g, c := TargetBlock(v, ino, n, off), WriteChunk(v, ino, n, off, rest);
    TargetObtained(v, ino, n, off);
    ChunkWrote(v, ino, n, off, rest);
    if Lookup(v, n, l) == 0 && off >= n.size {
      FileAllocGets(v, ino, n, l);
      FileAllocLookup(v, n, ino, l);
    }
    RoundIs(v, ino, n, off, rest);
    hide Owned, Ptr, PlaceOf, FileAlloc, Obtained, Shape, WriteChunk, CanGet;
    if g.phys != 0 {
      TargetKeeps(v, ino, n, off);
      StoreKeepsLookups(g.v, ino, g.n, off, c);
    }
  }

  /** The round in terms of the block it goes to. */
  lemma RoundIs(v: Vol, ino: nat, n: Inode, off: nat, rest: seq<Byte>)
    requires Editing(v, ino, n) && rest != [] && off + |rest| < 0x1_0000_0000
    ensures var g, c, bs := TargetBlock(v, ino, n, off), WriteChunk(v, ino, n, off, rest), v.geo.blockSize;
            if g.phys == 0 then c == Written(g.v, g.n, 0)
            else c.done == (if NextStart(off, bs) >= off + |rest| then |rest| else NextStart(off, bs) - off) &&
                 c.n == g.n.(size := if off >= g.n.size then off + |rest| else g.n.size) &&
                 |c.v.data| == |g.v.data| && g.phys < |g.v.data| && |c.v.data[g.phys]| == |g.v.data[g.phys]| &&
                 c.v == PutBlock(g.v, g.phys, c.v.data[g.phys])
  {
    TargetObtained(v, ino, n, off);
    hide Owned, Ptr, PlaceOf, Obtained, TargetBlock;
    var bs := v.geo.blockSize;
    if bs == 1024 {} else {}
  }

  lemma StoreKeepsLookups(v: Vol, ino: nat, n: Inode, off: nat, c: Written)
    requires Editing(v, ino, n) && MappedAt(v, n, off) && c.n.block == n.block && |c.v.data| == |v.data|
    requires var b := Lookup(v, n, off / v.geo.blockSize);
             b < |v.data| && |c.v.data[b]| == v.geo.blockSize && c.v == PutBlock(v, b, c.v.data[b])
    ensures forall k: nat :: Lookup(c.v, c.n, k) == Lookup(v, n, k)
    ensures c.v.used == v.used && c.v.geo == v.geo
  {
    var at, b := PlaceOf(PerTable(v), off / v.geo.blockSize), Lookup(v, n, off / v.geo.blockSize);
    DataPlace(PerTable(v), off / v.geo.blockSize);
    StoreOwned(v, ino, n, at, b, c.v.data[b]);
    forall k: nat ensures Lookup(c.v, c.n, k) == Lookup(v, n, k) {
      assert Ptr(PutBlock(v, b, c.v.data[b]), n, PlaceOf(PerTable(v), k)) == Ptr(v, n, PlaceOf(PerTable(v), k));
    }
  }

  // ---------------------------------------------------------------- the whole write

  /** Of the rounds that start at off, at block starts behind it and before x, the one at x is the first at or past the size. */
  predicate FirstPastSize(n: Inode, off: nat, x: nat, bs: nat) {
    x >= n.size && (x == off || (off < n.size && x < n.size + bs))
  }

  /**
   * Where a write of off..end ends: at the first unmapped block, unless that is where the write first reaches the size and
   * a block can be had there; then at the next unmapped block. A write allocates at most one data block, because the
   * size is raised to the end of the request by the first round that starts at or past it.
   */
  ghost function Reach(v: Vol, n: Inode, off: nat, end: nat): nat
    requires v.geo.Sizes() && off <= end
  {
    var bs := v.geo.blockSize;
    var x := ReadEnd(v, n, off, end);
    if x == end || !FirstPastSize(n, off, x, bs) || !CanGet(v, n, x / bs) then x
    else if NextStart(x, bs) >= end then end
    else ReadEnd(v, n, NextStart(x, bs), end)
  }

  /** One round of the loop, as far as mapping and size go. */
  ghost predicate Round(v: Vol, n: Inode, w: Vol, m: Inode, off: nat, end: nat, done: nat)
    requires v.geo.Sizes() && off < end
  {
    var bs, l := v.geo.blockSize, off / v.geo.blockSize;
    && w.geo == v.geo
    && (done == 0 <==> Lookup(v, n, l) == 0 && (off < n.size || !CanGet(v, n, l)))
    && (done != 0 ==> m.size == (if off >= n.size then end else n.size as nat)
                      && done == if NextStart(off, bs) >= end then end - off else NextStart(off, bs) - off)
    && (forall k: nat :: k != l ==> Lookup(w, m, k) == Lookup(v, n, k))
    && (Lookup(v, n, l) != 0 ==> w.used == v.used && m.block == n.block)
  }

  lemma SameEndFrom(v: Vol, n: Inode, w: Vol, m: Inode, l: nat, lo: nat, hi: nat)
    requires v.geo.Sizes() && w.geo == v.geo && lo <= hi && l < lo / v.geo.blockSize
    requires forall k: nat :: k != l ==> Lookup(w, m, k) == Lookup(v, n, k)
    ensures ReadEnd(w, m, lo, hi) == ReadEnd(v, n, lo, hi)
    decreases hi - lo
  {
    hide Lookup, NextStart;
    SameUntilNext(lo, lo, v.geo.blockSize);
    NextIsStart(lo, v.geo.blockSize);
    if lo < hi && MappedAt(v, n, lo) && NextStart(lo, v.geo.blockSize) < hi {
      SameEndFrom(v, n, w, m, l, NextStart(lo, v.geo.blockSize), hi);
    }
  }

  lemma NextIsStart(x: nat, bs: nat)
    requires BlockSize(bs)
    ensures NextStart(x, bs) / bs == x / bs + 1 && NextStart(x, bs) % bs == 0 && x < NextStart(x, bs) <= x + bs
  {
    if bs == 1024 {} else {}
  }

  /** A read stops where it starts, at its end, or at a block start. */
  lemma {:induction false} ReadEndIsStart(v: Vol, n: Inode, lo: nat, hi: nat)
    requires v.geo.Sizes() && lo <= hi
    ensures var r := ReadEnd(v, n, lo, hi); r == lo || r == hi || (r % v.geo.blockSize == 0 && r >= NextStart(lo, v.geo.blockSize))
    decreases hi - lo
  {
    hide Lookup, NextStart;
    SameUntilNext(lo, lo, v.geo.blockSize);
    NextIsStart(lo, v.geo.blockSize);
    if lo < hi && MappedAt(v, n, lo) && NextStart(lo, v.geo.blockSize) < hi {
      var next := NextStart(lo, v.geo.blockSize);
      NextIsStart(next, v.geo.blockSize);
      ReadEndIsStart(v, n, next, hi);
    }
  }

  /** A round leaves the rest of the write with the same place to end. */
  lemma ReachStep(v: Vol, n: Inode, w: Vol, m: Inode, off: nat, end: nat, done: nat)
    requires v.geo.Sizes() && off < end && Round(v, n, w, m, off, end, done)
    ensures done == 0 ==> Reach(v, n, off, end) == off
    ensures done != 0 ==> off + done <= end && Reach(v, n, off, end) == Reach(w, m, off + done, end)
  {
    hide Lookup, NextStart, CanGet, ReadEnd, Reach, FirstPastSize;
    var bs, next := v.geo.blockSize, NextStart(off, v.geo.blockSize);
    NextIsStart(off, bs);
    ReachStays(v, n, off, end);
    if done != 0 && next < end {
      SameEndFrom(v, n, w, m, off / bs, next, end);
      if MappedAt(v, n, off) { MappedRound(v, n, w, m, off, end); } else { AllocatingRound(v, n, w, m, off, end); }
    } else if done != 0 {
      ReachNothing(w, m, end);
    }
  }

  /** A write that gets nothing, or everything, in its first round. */
  lemma ReachStays(v: Vol, n: Inode, off: nat, end: nat)
    requires v.geo.Sizes() && off < end
    ensures var gets := MappedAt(v, n, off) || (off >= n.size && CanGet(v, n, off / v.geo.blockSize));
            (!gets ==> Reach(v, n, off, end) == off) &&
            (gets && NextStart(off, v.geo.blockSize) >= end ==> Reach(v, n, off, end) == end)
  {
    hide MappedAt, NextStart, CanGet;
  }

  lemma ReachNothing(v: Vol, n: Inode, off: nat)
    requires v.geo.Sizes()
    ensures Reach(v, n, off, off) == off
  {}

  lemma MappedRound(v: Vol, n: Inode, w: Vol, m: Inode, off: nat, end: nat)
    requires v.geo.Sizes() && off < end && MappedAt(v, n, off) && NextStart(off, v.geo.blockSize) < end
    requires var next := NextStart(off, v.geo.blockSize);
             Round(v, n, w, m, off, end, next - off) && next > off && ReadEnd(w, m, next, end) == ReadEnd(v, n, next, end)
    ensures Reach(v, n, off, end) == Reach(w, m, NextStart(off, v.geo.blockSize), end)
  {
    hide Lookup, NextStart, CanGet, ReadEnd, FirstPastSize;
    var bs, next := v.geo.blockSize, NextStart(off, v.geo.blockSize);
    NextIsStart(off, bs);
    ReadEndIsStart(v, n, next, end);
    NextIsStart(next, bs);
    var x := ReadEnd(v, n, next, end);
    ReadEndNext(v, n, off, end);
    SameChance(v, n, w, m, x / bs);
    if x < end {
      NextIsStart(x, bs);
      LaterBlock(off, x, bs);
      SameAfter(v, n, w, m, off / bs, x, end);
      SamePast(n, m, off, x, end, bs);
    }
  }

  lemma ReadEndNext(v: Vol, n: Inode, off: nat, end: nat)
    requires v.geo.Sizes() && off < end && MappedAt(v, n, off) && NextStart(off, v.geo.blockSize) < end
    ensures ReadEnd(v, n, off, end) == ReadEnd(v, n, NextStart(off, v.geo.blockSize), end)
  {
    hide MappedAt, NextStart;
  }

  lemma LaterBlock(off: nat, x: nat, bs: nat)
    requires BlockSize(bs) && x >= NextStart(off, bs)
    ensures off / bs < x / bs
  {
    if bs == 1024 {} else {}
  }

  /** The place where the size is first reached is the same seen from one block later. */
  lemma SamePast(n: Inode, m: Inode, off: nat, x: nat, end: nat, bs: nat)
    requires BlockSize(bs) && x < end && m.size == if off >= n.size then end else n.size as nat
    requires var next := NextStart(off, bs); x == next || (x % bs == 0 && x >= NextStart(next, bs))
    ensures FirstPastSize(n, off, x, bs) == FirstPastSize(m, NextStart(off, bs), x, bs)
  {
    var next := NextStart(off, bs);
    NextIsStart(off, bs);
    NextAdds(next, bs);
    hide NextStart;
  }

  lemma NextAdds(x: nat, bs: nat)
    requires BlockSize(bs) && x % bs == 0
    ensures NextStart(x, bs) == x + bs
  {
    if bs == 1024 {} else {}
  }

  /** Behind the next stop the reads agree too. */
  lemma SameAfter(v: Vol, n: Inode, w: Vol, m: Inode, l: nat, x: nat, end: nat)
    requires v.geo.Sizes() && w.geo == v.geo && l < x / v.geo.blockSize
    requires forall k: nat :: k != l ==> Lookup(w, m, k) == Lookup(v, n, k)
    ensures NextStart(x, v.geo.blockSize) < end ==>
              ReadEnd(w, m, NextStart(x, v.geo.blockSize), end) == ReadEnd(v, n, NextStart(x, v.geo.blockSize), end)
  {
    hide Lookup, NextStart;
    NextIsStart(x, v.geo.blockSize);
    if NextStart(x, v.geo.blockSize) < end { SameEndFrom(v, n, w, m, l, NextStart(x, v.geo.blockSize), end); }
  }

  lemma SameChance(v: Vol, n: Inode, w: Vol, m: Inode, l: nat)
    requires w.geo == v.geo && w.used == v.used && m.block == n.block
    ensures CanGet(w, m, l) == CanGet(v, n, l)
  {
    assert FreeSet(w) == FreeSet(v);
  }

  lemma AllocatingRound(v: Vol, n: Inode, w: Vol, m: Inode, off: nat, end: nat)
    requires v.geo.Sizes() && off < end && !MappedAt(v, n, off) && NextStart(off, v.geo.blockSize) < end
    requires var next := NextStart(off, v.geo.blockSize);
             Round(v, n, w, m, off, end, next - off) && next > off && ReadEnd(w, m, next, end) == ReadEnd(v, n, next, end)
    ensures Reach(v, n, off, end) == Reach(w, m, NextStart(off, v.geo.blockSize), end)
  {
    hide Lookup, NextStart, CanGet;
    assert ReadEnd(v, n, off, end) == off;
  }

  /** The count ext2_write_data returns, for every file, offset and request. */
  lemma {:induction false} WriteReaches(v: Vol, ino: nat, n: Inode, off: nat, rest: seq<Byte>)
    requires Editing(v, ino, n) && off + |rest| < 0x1_0000_0000
    ensures v.geo.Sizes() && off + WriteFrom(v, ino, n, off, rest).done == Reach(v, n, off, off + |rest|)
    decreases |rest|
  {
    hide *;
    SizesBlock(v, ino, n);
    if rest != [] {
      var c := WriteChunk(v, ino, n, off, rest);
      OneRound(v, ino, n, off, rest);
      if c.done != 0 {
        WriteReaches(c.v, ino, c.n, off + c.done, rest[c.done..]);
      }
    } else {
      WriteEnd(v, ino, n, off, rest);
      ReachNothing(v, n, off);
    }
  }

  /** The loop unrolled once, with the place the rest of it ends. */
  lemma OneRound(v: Vol, ino: nat, n: Inode, off: nat, rest: seq<Byte>)
    requires Editing(v, ino, n) && v.geo.Sizes() && rest != [] && off + |rest| < 0x1_0000_0000
    ensures var c := WriteChunk(v, ino, n, off, rest);
            c.done <= |rest| &&
            if c.done == 0 then WriteFrom(v, ino, n, off, rest).done == 0 && Reach(v, n, off, off + |rest|) == off
            else Editing(c.v, ino, c.n) && c.v.geo.Sizes() &&
                 WriteFrom(v, ino, n, off, rest).done == c.done + WriteFrom(c.v, ino, c.n, off + c.done, rest[c.done..]).done &&
                 Reach(v, n, off, off + |rest|) == Reach(c.v, c.n, off + c.done, off + c.done + |rest[c.done..]|)
  {
    hide *;
    var c := WriteChunk(v, ino, n, off, rest);
    WriteStep(v, ino, n, off, rest);
    ChunkIsRound(v, ino, n, off, rest);
    ReachStep(v, n, c.v, c.n, off, off + |rest|, c.done);
    if c.done != 0 { SizesBlock(c.v, ino, c.n); }
    assert off + c.done + |rest[c.done..]| == off + |rest|;
  }

  lemma ChunkIsRound(v: Vol, ino: nat, n: Inode, off: nat, rest: seq<Byte>)
    requires Editing(v, ino, n) && v.geo.Sizes() && rest != [] && off + |rest| < 0x1_0000_0000
    ensures var c := WriteChunk(v, ino, n, off, rest);
            Editing(c.v, ino, c.n) && c.done <= |rest| && Round(v, n, c.v, c.n, off, off + |rest|, c.done)
  {
    hide WriteChunk, Editing, Lookup, CanGet, NextStart;
    ChunkMaps(v, ino, n, off, rest);
  }

  // ---------------------------------------------------------------- ext2_node_write

  lemma NodeWriteReaches(v: Vol, ino: nat, offset: nat, buf: seq<Byte>)
    requires Owned(v) && Live(v, ino) && offset + |buf| < 0x1_0000_0000
    ensures v.geo.Sizes() && offset + NodeWrite(v, ino, offset, buf).done == Reach(v, GetInode(v, ino), offset, offset + |buf|)
  {
    hide Owned, WriteFrom, Reach;
    WriteParts(v, ino, offset, buf);
    WriteReaches(v, ino, GetInode(v, ino), offset, buf);
  }

  /** No block is mapped behind the one the file ends in. */
  ghost predicate Tight(v: Vol, n: Inode)
    requires v.geo.Sizes()
  {
    forall x: nat :: x >= RoundUp(n.size, v.geo.blockSize) ==> !MappedAt(v, n, x)
  }

  /**
   * When a write to a file without holes is complete: it stays in the blocks the file has, or it needs one block more, does
   * not start at an end inside a block, and that block can be had. A write that needs two new blocks is always short.
   */
  lemma WriteIsFullWhen(v: Vol, ino: nat, offset: nat, buf: seq<Byte>)
    requires Owned(v) && Live(v, ino) && offset + |buf| < 0x1_0000_0000 && v.geo.Sizes()
    requires HoleFree(v, GetInode(v, ino)) && Tight(v, GetInode(v, ino)) && offset <= GetInode(v, ino).size
    ensures NodeWrite(v, ino, offset, buf).done == |buf| <==>
              var n, bs, end := GetInode(v, ino), v.geo.blockSize, offset + |buf|;
              var cap := RoundUp(n.size, bs);
              end <= cap || (end <= cap + bs && (offset < n.size || n.size == cap) && CanGet(v, n, cap / bs))
  {
    hide Owned, CanGet, Lookup;
    NodeWriteReaches(v, ino, offset, buf);
    hide NodeWrite;
    ReachOfWhole(v, GetInode(v, ino), offset, offset + |buf|);
  }

  lemma ReachOfWhole(v: Vol, n: Inode, off: nat, end: nat)
    requires v.geo.Sizes() && HoleFree(v, n) && Tight(v, n) && off <= n.size && off <= end
    ensures var bs := v.geo.blockSize;
            var cap := RoundUp(n.size, bs);
            Reach(v, n, off, end) ==
              if end <= cap then end
              else if (off < n.size || n.size == cap) && CanGet(v, n, cap / bs) then if end <= cap + bs then end else cap + bs
              else cap
  {
    hide CanGet, Lookup, ReadEnd, NextStart, RoundUp;
    var bs, cap := v.geo.blockSize, RoundUp(n.size, v.geo.blockSize);
    RoundUpAligned(n.size, bs);
    NextAdds(cap, bs);
    MappedBelow(v, n, cap);
    ReadEndIsFirstHole(v, n, off, end);
    if end > cap {
      assert !MappedAt(v, n, cap) && ReadEnd(v, n, off, end) == cap;
      if cap + bs < end {
        ReadEndIsFirstHole(v, n, cap + bs, end);
        assert !MappedAt(v, n, cap + bs) && ReadEnd(v, n, cap + bs, end) == cap + bs;
      }
    } else {
      assert ReadEnd(v, n, off, end) == end;
    }
  }

  /** A file without holes is mapped to the end of its last block. */
  lemma MappedBelow(v: Vol, n: Inode, cap: nat)
    requires v.geo.Sizes() && HoleFree(v, n) && cap == RoundUp(n.size, v.geo.blockSize)
    ensures forall x: nat :: x < cap ==> MappedAt(v, n, x)
  {
    hide Lookup;
    forall x: nat | x < cap ensures MappedAt(v, n, x) {
      if x >= n.size { LastBlock(n.size, x, v.geo.blockSize); assert MappedAt(v, n, n.size - 1); }
    }
  }

  lemma LastBlock(size: nat, x: nat, bs: nat)
    requires BlockSize(bs) && size <= x < RoundUp(size, bs)
    ensures size > 0 && (size - 1) / bs == x / bs
  {
    if bs == 1024 {} else {}
  }
}
