/** The mounted volume: the disk, the cached counters, and the block-level operations of kernel/fs/ext2.c. */
module Ext2Volume {
  import opened Bytes
  import opened InodeCodec
  import opened VolumeState
  import opened DiskLayout
  import opened Bitmap

  /** A superblock image with its two free counters copied in. */
  function SuperPatched(b: Block, at: nat, blocks: Word32, inodes: Word32): (r: Block)
    requires at + 20 <= |b|
    ensures |r| == |b| && Le32(r, at + 12) == blocks && Le32(r, at + 16) == inodes
  {
    var r := Patch(b, at + 12, Enc32(blocks) + Enc32(inodes));
    assert forall i :: 0 <= i < 4 ==> r[at + 12 + i] == Enc32(blocks)[i] && r[at + 16 + i] == Enc32(inodes)[i];
    r
  }

  /** One descriptor's counters copied in. */
  lemma DescPatched(d: Block, c: Counters, g: nat)
    requires 32 * (g + 1) <= |d| && g < |c.groupBlocks| && g < |c.groupInodes| && DescsHold(d, c, g)
    requires c.groupBlocks[g] < 0x1_0000 && c.groupInodes[g] < 0x1_0000
    ensures DescsHold(Patch(d, 32 * g + 12, Enc16(c.groupBlocks[g]) + Enc16(c.groupInodes[g])), c, g + 1)
  {
    var w, p := Enc16(c.groupBlocks[g]) + Enc16(c.groupInodes[g]), 32 * g + 12;
    var r := Patch(d, p, w);
    assert Le16(r, p) == c.groupBlocks[g] && Le16(r, p + 2) == c.groupInodes[g] by {
      assert r[p] == w[0] && r[p + 1] == w[1] && r[p + 2] == w[2] && r[p + 3] == w[3];
    }
    forall h | 0 <= h < g ensures Le16(r, 32 * h + 12) == Le16(d, 32 * h + 12) && Le16(r, 32 * h + 14) == Le16(d, 32 * h + 14) {
      PatchBefore(d, p, w, 32 * h + 12);
      PatchBefore(d, p, w, 32 * h + 14);
    }
    hide Patch, Le16, Enc16;
  }

  lemma PatchBefore(d: Block, p: nat, w: seq<Byte>, q: nat)
    requires q + 2 <= p && p + |w| <= |d|
    ensures Le16(Patch(d, p, w), q) == Le16(d, q)
  {}

  class Volume {
    const geo: Geometry
    var disk: seq<Block>
    var free: Counters

    ghost function View(): (v: Vol)
      requires DiskSized(geo, disk)
      reads this
      ensures v.geo == geo
    {
      ViewOf(geo, disk)
    }

    ghost predicate Valid()
      reads this
      ensures Valid() ==> DiskSized(geo, disk) && Shape(View()) && |View().inodes| == geo.inodesCount && geo.Valid()
    {
      Consistent(geo, disk, free)
    }

    // -------------------------------------------------------------- sectors and blocks

    method ReadSector(sector: nat) returns (buf: seq<Byte>)
      requires geo.blockSize >= SECTOR && SectorBlock(geo.blockSize, sector) < |disk|
      requires SectorStart(geo.blockSize, sector) + SECTOR <= |disk[SectorBlock(geo.blockSize, sector)]|
      ensures var at, lo := SectorBlock(geo.blockSize, sector), SectorStart(geo.blockSize, sector);
              buf == disk[at][lo..lo + SECTOR]
    {
      hide *;
      var at, lo := SectorBlock(geo.blockSize, sector), SectorStart(geo.blockSize, sector);
      buf := disk[at][lo..lo + SECTOR];
    }

    /** One sector of the disk replaced; a step of the disk, not of the volume. */
    method WriteSector(sector: nat, buf: seq<Byte>)
      requires geo.blockSize >= SECTOR && SectorBlock(geo.blockSize, sector) < |disk| && |buf| == SECTOR
      requires SectorStart(geo.blockSize, sector) + SECTOR <= |disk[SectorBlock(geo.blockSize, sector)]|
      modifies this`disk
      ensures var at, lo := SectorBlock(geo.blockSize, sector), SectorStart(geo.blockSize, sector);
              disk == old(disk)[at := Patch(old(disk)[at], lo, buf)]
    {
      hide *;
      var at, lo := SectorBlock(geo.blockSize, sector), SectorStart(geo.blockSize, sector);
      disk := disk[at := Patch(disk[at], lo, buf)];
    }

    /** Block 0 means "no block" and reads as nothing. */
    method ReadBlock(b: nat) returns (ok: bool, buf: Block)
      requires Valid() && (b == 0 || geo.IsData(b))
      ensures ok == (b != 0)
      ensures ok ==> buf == View().data[b] && |buf| == geo.blockSize
    {
      if b == 0 {
        return false, [];
      }
      return true, disk[b];
    }

    method WriteBlock(b: nat, buf: Block) returns (ok: bool)
      requires Valid() && (b == 0 || geo.IsData(b)) && |buf| == geo.blockSize
      modifies this`disk
      ensures Valid() && ok == (b != 0)
      ensures View() == if ok then PutBlock(old(View()), b, buf) else old(View())
    {
      if b == 0 {
        return false;
      }
      ConsistentBlock(geo, disk, free, b, buf);
      disk := disk[b := buf];
      return true;
    }

    // -------------------------------------------------------------- inode slots

    method ReadInode(ino: nat) returns (ok: bool, n: Inode)
      requires Valid()
      ensures ok == InodeNumber(View(), ino)
      ensures ok ==> n == GetInode(View(), ino)
    {
      if ino < 1 || ino > geo.inodesCount {
        return false, ZERO;
      }
      SlotComputed(geo, ino);
      SectorOfInode(geo, disk, ino, ZERO);
      hide Geometry.InodeGroup, Geometry.InodeIndex, SectorBlock, SectorStart, Geometry.Valid, SlotOf, SlotOffset, WithInode, Consistent, Shape, InodeOn, Marked, DataOf;
      var group, index := geo.InodeGroup(ino - 1), geo.InodeIndex(ino - 1);
      if group >= geo.groups {
        return false, ZERO;
      }
      var off := SlotOffset(geo, geo.inodeTable[group], index);
      var buf := ReadSector(off / SECTOR);
      return true, Decode(buf[off % SECTOR..off % SECTOR + INODE_BYTES]);
    }

    method WriteInode(ino: nat, n: Inode) returns (ok: bool)
      requires Valid() && ino < 0x1_0000_0000
      modifies this`disk
      ensures Valid() && ok == InodeNumber(old(View()), ino)
      ensures View() == if ok then PutInode(old(View()), ino, n) else old(View())
    {
      // ino - 1 in 32-bit arithmetic
      var slot := if ino == 0 then 0xFFFF_FFFF else ino - 1;
      SlotComputed(geo, slot + 1);
      hide Geometry.InodeGroup, Geometry.InodeIndex, SectorBlock, SectorStart, Geometry.MetaApart, Geometry.MetaReserved, SlotOf, SlotOffset,
           WithInode, Consistent, Shape, ViewOf, Geometry.Sizes, Geometry.Totals, Geometry.Valid, Encode, Patch, InodeOn;
      var group, index := geo.InodeGroup(slot), geo.InodeIndex(slot);
      if group >= geo.groups {
        return false;
      }
      SectorOfInode(geo, disk, ino, n);
      ConsistentInode(geo, disk, free, ino, n);
      PatchSector(SlotOffset(geo, geo.inodeTable[group], index), Encode(n));
      return true;
    }

    /** Bytes inside one sector rewritten: the sector is read, patched and written back. */
    method PatchSector(off: nat, w: seq<Byte>)
      requires geo.blockSize >= SECTOR && SectorBlock(geo.blockSize, off / SECTOR) < |disk| && off % SECTOR + |w| <= SECTOR
      requires SectorStart(geo.blockSize, off / SECTOR) + SECTOR <= |disk[SectorBlock(geo.blockSize, off / SECTOR)]|
      modifies this`disk
      ensures var at, lo := SectorBlock(geo.blockSize, off / SECTOR), SectorStart(geo.blockSize, off / SECTOR);
              var b := old(disk)[at];
              disk == old(disk)[at := Patch(b, lo, Patch(b[lo..lo + SECTOR], off % SECTOR, w))]
    {
      hide Patch, SectorBlock, SectorStart;
      var buf := ReadSector(off / SECTOR);
      WriteSector(off / SECTOR, Patch(buf, off % SECTOR, w));
    }

    // -------------------------------------------------------------- block and inode allocation

    /** The scan both allocators make: groups in order, full ones skipped by their counter, bits in order. */
    method FindClear(where: seq<nat>, n: nat, counts: seq<nat>) returns (found: bool, g: nat, b: nat)
      requires BitsCounted(disk, where, n, counts) && |counts| == |where|
      requires forall h :: 0 <= h < |where| ==> where[h] < |disk| && n <= 8 * |disk[where[h]]|
      requires n % 32 == 0 || forall h :: 0 <= h < |where| ==> |disk[where[h]]| % 4 == 0
      ensures found ==> g < |where| && b < n && !GroupBit(disk, where, g, b) && counts[g] > 0
      ensures !found ==> g == |where| && b == 0
      ensures AllSetBefore(disk, where, n, g, b) && forall h :: 0 <= h < g ==> counts[h] == 0
    {
      hide BitsCounted, MapBits;
      g := 0;
      while g < |where|
        invariant g <= |where|
        invariant AllSetBefore(disk, where, n, g, 0) && forall h :: 0 <= h < g ==> counts[h] == 0
      {
        GroupFull(disk, where, n, counts, g);
        if counts[g] != 0 {
          var bitmap := disk[where[g]];
          b := 0;
          while b < n
            invariant b <= n
            invariant AllSetBefore(disk, where, n, g, b)
          {
            var word, bit := b / 32, b % 32;
            if !TestBit(bitmap[word * 4 + bit / 8], bit % 8) {
              return true, g, b;
            }
            b := b + 1;
          }
        }
        g := g + 1;
      }
      return false, g, 0;
    }

    /** The counters are written to the superblock and to all group descriptors; frees do not do this. */
    method Persist()
      requires Valid()
      modifies this`disk
      ensures Valid() && View() == old(View()) && Persisted(geo, disk, free)
    {
      CountersFit(geo, disk, free);
      HiddenBlocks(geo, geo.SuperBlock());
      HiddenBlocks(geo, geo.DescBlock());
      var sb, at := geo.SuperBlock(), geo.SuperOffset();
      var buf := SuperPatched(disk[sb], at, free.blocks, free.inodes);
      ConsistentHidden(geo, disk, free, sb, buf);
      disk := disk[sb := buf];
      var gd := DescsPatched(disk[geo.DescBlock()]);
      ConsistentHidden(geo, disk, free, geo.DescBlock(), gd);
      disk := disk[geo.DescBlock() := gd];
    }

    /** The descriptors with the cached counters copied in. */
    method DescsPatched(d: Block) returns (r: Block)
      requires Valid() && |d| == geo.blockSize && geo.Valid() && geo.SuperApart() && |free.groupBlocks| == geo.groups && |free.groupInodes| == geo.groups
      requires forall g :: 0 <= g < geo.groups ==> free.groupBlocks[g] < 0x1_0000 && free.groupInodes[g] < 0x1_0000
      ensures |r| == |d| && DescsHold(r, free, geo.groups)
    {
      r := d;
      hide Valid, View;
      var g := 0;
      while g < geo.groups
        invariant g <= geo.groups && |r| == |d| && DescsHold(r, free, g)
      {
        DescPatched(r, free, g);
        hide DescsHold, Patch;
        r := Patch(r, 32 * g + 12, Enc16(free.groupBlocks[g]) + Enc16(free.groupInodes[g]));
        g := g + 1;
      }
    }

    /** Fails exactly when no block is free; otherwise hands out the lowest free one. */
    method AllocBlock() returns (ok: bool, blk: nat)
      requires Valid()
      modifies this
      ensures Valid() && ok == (LowestFree(old(View())) != 0) && blk == LowestFree(old(View()))
      ensures View() == if ok then Take(old(View()), blk) else old(View())
      ensures ok == (old(free.blocks) > 0)
      ensures free.blocks == old(free.blocks) - if ok then 1 else 0
      ensures free.inodes == old(free.inodes)
      ensures ok ==> DiskSized(geo, disk) && Persisted(geo, disk, free)
    {
      hide DiskSized, Shape, ViewOf, Sum, MapSet, MapBit, AllSetBefore, Start, LowestFree, BitsCounted, Persisted,
           Geometry.Valid, Geometry.Sizes, Geometry.BlockNumber;
      BitmapsExist(geo, disk, 0);
      CountersSized(geo, disk, free);
      var found, g, b := FindClear(geo.blockBitmap, geo.blocksPerGroup, free.groupBlocks);
      BlockScanDone(geo, disk, free, g, b);
      if !found {
        return false, 0;
      }
      blk := geo.BlockNumber(g, b);
      ConsistentBlockBit(geo, disk, free, g, b, true);
      disk := disk[geo.blockBitmap[g] := MapSet(disk[geo.blockBitmap[g]], b, true)];
      free := free.(groupBlocks := free.groupBlocks[g := free.groupBlocks[g] - 1], blocks := free.blocks - 1);
      Persist();
      return true, blk;
    }

    /** Block 0 is ignored. A block that is free already is counted once more, and the counters are wrong from then on. */
    method FreeBlock(blk: nat)
      requires Valid() && (blk != 0 ==> geo.IsData(blk))
      modifies this
      ensures DiskSized(geo, disk) && (Valid() <==> blk == 0 || blk in old(View().used))
      ensures View() == if blk == 0 then old(View()) else Release(old(View()), {blk})
      ensures free.blocks == old(free.blocks) + if blk == 0 then 0 else 1
      ensures free.inodes == old(free.inodes)
    {
      hide DiskSized, Shape, Sum, MapSet, MapBit, Marked, Start, BitsCounted, InodesOf, DataOf, Geometry.Valid,
           Geometry.Sizes, Geometry.BlockGroup, Geometry.BlockIndex;
      if blk == 0 {
        return;
      }
      BlockFound(geo, disk, blk);
      CountersSized(geo, disk, free);
      var group, index := geo.BlockGroup(blk), geo.BlockIndex(blk);
      BitmapsExist(geo, disk, index);
      if blk in View().used {
        ConsistentBlockBit(geo, disk, free, group, index, false);
      } else {
        FreedTwice(disk, geo.blockBitmap, geo.blocksPerGroup, free.groupBlocks, group, index);
        assert View().used - {blk} == View().used;
      }
      disk := disk[geo.blockBitmap[group] := MapSet(disk[geo.blockBitmap[group]], index, false)];
      free := free.(groupBlocks := free.groupBlocks[group := free.groupBlocks[group] + 1], blocks := free.blocks + 1);
    }

    method AllocInode() returns (ok: bool, ino: nat)
      requires Valid()
      modifies this
      ensures Valid() && ok == (LowestFreeInode(old(View())) != 0) && ino == LowestFreeInode(old(View()))
      ensures View() == if ok then old(View()).(live := old(View()).live + {ino}) else old(View())
      ensures ok == (old(free.inodes) > 0)
      ensures free.inodes == old(free.inodes) - if ok then 1 else 0
      ensures free.blocks == old(free.blocks)
      ensures ok ==> DiskSized(geo, disk) && Persisted(geo, disk, free)
    {
      hide DiskSized, Shape, ViewOf, Sum, MapSet, MapBit, AllSetBefore, Start, LowestFreeInode, BitsCounted, Persisted,
           Geometry.Valid, Geometry.Sizes, Geometry.InodeNumberOf;
      BitmapsExist(geo, disk, 0);
      CountersSized(geo, disk, free);
      var found, g, i := FindClear(geo.inodeBitmap, geo.inodesPerGroup, free.groupInodes);
      InodeScanDone(geo, disk, free, g, i);
      if !found {
        return false, 0;
      }
      ino := geo.InodeNumberOf(g, i);
      ConsistentInodeBit(geo, disk, free, g, i, true);
      disk := disk[geo.inodeBitmap[g] := MapSet(disk[geo.inodeBitmap[g]], i, true)];
      free := free.(groupInodes := free.groupInodes[g := free.groupInodes[g] - 1], inodes := free.inodes - 1);
      Persist();
      return true, ino;
    }

    method FreeInode(ino: nat)
      requires Valid() && ino <= geo.inodesCount
      modifies this
      ensures DiskSized(geo, disk) && (Valid() <==> ino == 0 || ino in old(View().live))
      ensures View() == old(View()).(live := old(View()).live - {ino})
      ensures free.inodes == old(free.inodes) + if ino == 0 then 0 else 1
      ensures free.blocks == old(free.blocks)
    {
      hide DiskSized, Shape, Sum, MapSet, MapBit, Start, BitsCounted, InodesOf, DataOf, Geometry.Valid,
           Geometry.Sizes, Geometry.InodeGroup, Geometry.InodeIndex;
      if ino < 1 {
        assert 0 !in View().live;
        return;
      }
      InodeFound(geo, disk, ino);
      CountersSized(geo, disk, free);
      var group, index := geo.InodeGroup(ino - 1), geo.InodeIndex(ino - 1);
      BitmapsExist(geo, disk, index);
      if ino in View().live {
        ConsistentInodeBit(geo, disk, free, group, index, false);
      } else {
        FreedTwice(disk, geo.inodeBitmap, geo.inodesPerGroup, free.groupInodes, group, index);
        assert View().live - {ino} == View().live;
      }
      disk := disk[geo.inodeBitmap[group] := MapSet(disk[geo.inodeBitmap[group]], index, false)];
      free := free.(groupInodes := free.groupInodes[group := free.groupInodes[group] + 1], inodes := free.inodes + 1);
    }
  }
}
