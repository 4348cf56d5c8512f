/** What an ext2 volume means: allocation maps, inodes and data blocks, whatever sectors they are stored in. */
module VolumeState {
  import opened Bytes
  import opened InodeCodec
  import Bitmap

  type Block = seq<Byte>

  /** The superblock and group descriptor fields that never change after mounting. */
  datatype Geometry = Geometry(
    blockSize: nat, firstData: nat, blocksCount: nat,
    blocksPerGroup: nat, inodesPerGroup: nat, groups: nat, inodeSizeField: nat,
    blockBitmap: seq<nat>, inodeBitmap: seq<nat>, inodeTable: seq<nat>,
    meta: set<nat>,
    /** Inodes the file system keeps for itself, such as the resize inode of mkfs; no directory lists them. */
    reserved: set<nat>,
    mapLength: nat, inodesCount: nat, tableBlocks: nat)
  {
    /** An inode_size of 0 in the superblock stands for 128. */
    function InodeSize(): (r: nat)
      ensures r > 0
    {
      if inodeSizeField == 0 then 128 else inodeSizeField
    }

    /** Group and index of an inode, from its number minus one. */
    function InodeGroup(slot: nat): nat
      requires inodesPerGroup > 0
    {
      slot / inodesPerGroup
    }

    function InodeIndex(slot: nat): nat
      requires inodesPerGroup > 0
    {
      slot % inodesPerGroup
    }

    /** Group and index of a block. */
    function BlockGroup(b: nat): nat
      requires blocksPerGroup > 0 && firstData <= b
    {
      (b - firstData) / blocksPerGroup
    }

    function BlockIndex(b: nat): nat
      requires blocksPerGroup > 0 && firstData <= b
    {
      (b - firstData) % blocksPerGroup
    }

    function BlockNumber(g: nat, b: nat): nat {
      g * blocksPerGroup + b + firstData
    }

    function InodeNumberOf(g: nat, i: nat): nat {
      g * inodesPerGroup + i + 1
    }

    /** Block and offset of byte 1024, where the superblock lies; the group descriptors are in the block behind it. */
    function SuperBlock(): nat {
      if blockSize == 1024 then 1 else 0
    }

    function SuperOffset(): nat {
      if blockSize == 1024 then 0 else 1024
    }

    function DescBlock(): nat {
      SuperBlock() + 1
    }

    /** A block that may hold file data, directory records or pointers. */
    predicate IsData(b: nat) {
      firstData <= b < blocksCount && b !in meta
    }

    /** Limits of the supported volumes; byte offsets stay below 2^32. */
    ghost predicate Sizes() {
      && ((blockSize == 1024 && blocksCount <= 0x40_0000) || (blockSize == 2048 && blocksCount <= 0x20_0000))
      && groups > 0 && 0 < blocksPerGroup <= 8 * blockSize && 0 < inodesPerGroup <= 8 * blockSize
      && (inodeSizeField == 0 || inodeSizeField == 128 || inodeSizeField == 256 || inodeSizeField == 512)
      && |blockBitmap| == groups && |inodeBitmap| == groups && |inodeTable| == groups
      && firstData < blocksCount <= firstData + mapLength
      && inodesCount < 0x1_0000_0000
      && 0 in meta
    }

    ghost predicate InTable(g: nat, b: nat)
      requires Sizes() && g < groups
    {
      inodeTable[g] <= b < inodeTable[g] + tableBlocks
    }

    /** Every bitmap and inode table block exists and is kept out of the data blocks. */
    ghost predicate MetaReserved()
      requires Sizes()
    {
      && (forall g :: 0 <= g < groups ==> blockBitmap[g] in meta && blockBitmap[g] < blocksCount)
      && (forall g :: 0 <= g < groups ==> inodeBitmap[g] in meta && inodeBitmap[g] < blocksCount)
      && (forall g :: 0 <= g < groups ==> inodeTable[g] + tableBlocks <= blocksCount)
      && (forall g, b :: 0 <= g < groups && InTable(g, b) ==> b in meta)
    }

    /** The block is no bitmap and belongs to no inode table. */
    ghost predicate InNoGroup(b: nat)
      requires Sizes()
    {
      forall g :: 0 <= g < groups ==> blockBitmap[g] != b && inodeBitmap[g] != b && !InTable(g, b)
    }

    /** No block plays two metadata roles. */
    ghost predicate MetaApart()
      requires Sizes()
    {
      && (forall g, h :: 0 <= g < h < groups ==> blockBitmap[g] != blockBitmap[h])
      && (forall g, h :: 0 <= g < h < groups ==> inodeBitmap[g] != inodeBitmap[h])
      && (forall g, h :: 0 <= g < groups && 0 <= h < groups ==> blockBitmap[g] != inodeBitmap[h])
      && (forall g, h :: 0 <= g < groups && 0 <= h < groups ==>
            !InTable(h, blockBitmap[g]) && !InTable(h, inodeBitmap[g]))
      && (forall g, h, b :: 0 <= g < h < groups && InTable(g, b) ==> !InTable(h, b))
    }

    /** Superblock and descriptors are metadata of their own; the descriptors fit one block. */
    ghost predicate SuperApart()
      requires Sizes()
    {
      && SuperBlock() in meta && DescBlock() in meta && DescBlock() < blocksCount && 32 * groups <= blockSize
      && InNoGroup(SuperBlock()) && InNoGroup(DescBlock())
    }

    /** The maps hold one entry per block or inode of every group; an inode table holds one group's inodes. */
    ghost predicate Totals() {
      && mapLength == Bitmap.Start(groups, blocksPerGroup) && inodesCount == Bitmap.Start(groups, inodesPerGroup)
      && Bitmap.Start(inodesPerGroup, InodeSize()) <= Bitmap.Start(tableBlocks, blockSize)
    }

    ghost predicate Valid() {
      Sizes() && Totals() && MetaReserved() && MetaApart()
    }
  }

  /** used: block numbers whose bit is set; live: inode numbers whose bit is set. */
  datatype Vol = Vol(geo: Geometry, used: set<nat>, live: set<nat>, inodes: seq<Inode>, data: seq<Block>)

  ghost predicate BlocksSized(v: Vol) {
    |v.data| == v.geo.blocksCount && forall b: nat :: v.geo.IsData(b) ==> |v.data[b]| == v.geo.blockSize
  }

  /** Metadata and the padding past the last block are never offered for allocation. */
  ghost predicate MetaUsed(v: Vol) {
    forall b: nat :: v.geo.firstData <= b < v.geo.firstData + v.geo.mapLength && b !in v.used ==> v.geo.IsData(b)
  }

  ghost predicate Shape(v: Vol) {
    v.geo.Valid() && BlocksSized(v) && MetaUsed(v) && |v.inodes| == v.geo.inodesCount
  }

  predicate InodeNumber(v: Vol, ino: nat) {
    1 <= ino <= |v.inodes|
  }

  /** An inode is live when it exists and its inode bitmap bit is set. */
  predicate Live(v: Vol, ino: nat) {
    InodeNumber(v, ino) && ino in v.live
  }

  /** The blocks the allocator may hand out. */
  ghost function FreeSet(v: Vol): set<nat> {
    set b: nat | b < v.geo.firstData + v.geo.mapLength && b !in v.used && b >= v.geo.firstData
  }

  /** The lowest free block, or 0 when there is none. */
  function LowestFree(v: Vol): nat {
    var hi := v.geo.firstData + v.geo.mapLength;
    var b := Bitmap.LowestOut(v.used, v.geo.firstData, hi);
    if b == hi then 0 else b
  }

  /** The lowest free inode number, or 0 when there is none. */
  function LowestFreeInode(v: Vol): nat {
    var i := Bitmap.LowestOut(v.live, 1, v.geo.inodesCount + 1);
    if i == v.geo.inodesCount + 1 then 0 else i
  }

  // ---------------------------------------------------------------- elementary changes

  function Take(v: Vol, b: nat): Vol {
    v.(used := v.used + {b})
  }

  function Release(v: Vol, s: set<nat>): Vol {
    v.(used := v.used - s)
  }

  function PutBlock(v: Vol, b: nat, c: Block): Vol
    requires b < |v.data|
  {
    v.(data := v.data[b := c])
  }

  function PutInode(v: Vol, ino: nat, n: Inode): Vol
    requires InodeNumber(v, ino)
  {
    v.(inodes := v.inodes[ino - 1 := n])
  }

  function GetInode(v: Vol, ino: nat): Inode
    requires InodeNumber(v, ino)
  {
    v.inodes[ino - 1]
  }

  /** A free block is a data block: allocation never hands out metadata. */
  lemma LowestFreeIsData(v: Vol)
    requires Shape(v)
    ensures LowestFree(v) != 0 ==> v.geo.IsData(LowestFree(v)) && LowestFree(v) !in v.used
    ensures LowestFree(v) == 0 <==> forall b :: v.geo.firstData <= b < v.geo.firstData + v.geo.mapLength ==> b in v.used
    ensures LowestFree(v) < 0x1_0000_0000
  {
    var hi := v.geo.firstData + v.geo.mapLength;
    var b := Bitmap.LowestOut(v.used, v.geo.firstData, hi);
    if b < hi {
      assert v.geo.IsData(b);
    }
  }

  lemma DataInMap(geo: Geometry, b: nat)
    requires geo.Sizes() && geo.IsData(b)
    ensures b != 0 && geo.firstData <= b < geo.firstData + geo.mapLength && b < 0x1_0000_0000
  {}
}
