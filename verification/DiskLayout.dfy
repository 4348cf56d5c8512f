/** Where the maps and inodes of a volume sit on the disk, and that the places do not overlap. */
module DiskLayout {
  import opened Bytes
  import opened InodeCodec
  import opened VolumeState
  import opened Bitmap

  const SECTOR: nat := 512

  ghost predicate DiskSized(geo: Geometry, disk: seq<Block>) {
    geo.Valid() && geo.SuperApart() && |disk| == geo.blocksCount && forall b :: 0 <= b < |disk| ==> |disk[b]| == geo.blockSize
  }

  // ---------------------------------------------------------------- bitmaps

  /** Bit k of a bitmap block, addressed as the allocator does: 32-bit word, then byte, then bit. */
  predicate MapBit(map_: Block, k: nat) {
    k / 32 * 4 + k % 32 / 8 < |map_| && TestBit(map_[k / 32 * 4 + k % 32 / 8], k % 32 % 8)
  }

  lemma MapBitIndex(k: nat)
    ensures k / 32 * 4 + k % 32 / 8 == k / 8 && k % 32 % 8 == k % 8
  {}

  function MapSet(map_: Block, k: nat, flag: bool): (r: Block)
    requires k / 8 < |map_|
    ensures |r| == |map_|
    ensures forall j: nat :: MapBit(r, j) == if j == k then flag else MapBit(map_, j)
  {
    MapBitIndex(k);
    var at, bit := k / 32 * 4 + k % 32 / 8, k % 32 % 8;
    assert Pow2(8) == 256;
    BitOpsBounded(map_[at], bit, 8);
    var r := map_[at := if flag then SetBit(map_[at], bit) else ClearBit(map_[at], bit)];
    MapSetBits(map_, r, k, flag);
    r
  }

  lemma MapSetBits(map_: Block, r: Block, k: nat, flag: bool)
    requires k / 8 < |map_| && |r| == |map_|
    requires forall i :: 0 <= i < |r| && i != k / 8 ==> r[i] == map_[i]
    requires r[k / 8] == if flag then SetBit(map_[k / 8], k % 8) else ClearBit(map_[k / 8], k % 8)
    ensures forall j: nat :: MapBit(r, j) == if j == k then flag else MapBit(map_, j)
  {
    forall j: nat
      ensures MapBit(r, j) == if j == k then flag else MapBit(map_, j)
    {
      MapBitIndex(j);
      MapBitIndex(k);
      if j / 8 == k / 8 {
        SetBitTests(map_[k / 8], k % 8, j % 8);
        ClearBitTests(map_[k / 8], k % 8, j % 8);
      }
    }
  }

  /** Clearing a bit just set gives the bitmap block back, byte for byte. */
  lemma MapSetBack(map_: Block, k: nat)
    requires k / 8 < |map_| && !MapBit(map_, k)
    ensures MapSet(MapSet(map_, k, true), k, false) == map_
  {
    MapBitIndex(k);
    ClearUndoesSet(map_[k / 8], k % 8);
    var r := MapSet(MapSet(map_, k, true), k, false);
    assert r[k / 8] == map_[k / 8];
    assert r == map_;
  }

  lemma MapSetSame(map_: Block, k: nat)
    requires k / 8 < |map_| && !MapBit(map_, k)
    ensures MapSet(map_, k, false) == map_
  {
    MapBitIndex(k);
    ClearOfClear(map_[k / 8], k % 8);
    assert MapSet(map_, k, false)[k / 8] == map_[k / 8];
  }

  /** The first n bits of a bitmap block. */
  ghost function MapBits(map_: Block, n: nat): (r: seq<bool>)
    ensures |r| == n
    ensures forall k {:trigger r[k]} :: 0 <= k < n ==> r[k] == MapBit(map_, k)
  {
    seq(n, k requires 0 <= k < n => MapBit(map_, k))
  }

  lemma MapBitsUpdate(map_: Block, n: nat, k: nat, flag: bool)
    requires k < n && k / 8 < |map_|
    ensures MapBits(MapSet(map_, k, flag), n) == MapBits(map_, n)[k := flag]
  {}

  /** Bit b of the bitmap block of group g. */
  ghost predicate GroupBit(disk: seq<Block>, where: seq<nat>, g: nat, b: nat) {
    g < |where| && where[g] < |disk| && MapBit(disk[where[g]], b)
  }

  /** Entry i of a map numbered from base and spread over one bitmap block per group, n bits each. */
  ghost predicate SpreadBit(disk: seq<Block>, where: seq<nat>, n: nat, base: nat, i: nat) {
    base <= i && GroupBit(disk, where, Quot(i - base, n), Rem(i - base, n))
  }

  /** The numbers base, base + 1, ... base + total - 1 whose bit is set. */
  ghost function Marked(disk: seq<Block>, where: seq<nat>, n: nat, base: nat, total: nat): set<nat> {
    set b: nat | b < base + total && SpreadBit(disk, where, n, base, b)
  }

  ghost predicate Distinct(where: seq<nat>) {
    forall h, k :: 0 <= h < k < |where| ==> where[h] != where[k]
  }

  lemma GroupBitUpdate(disk: seq<Block>, where: seq<nat>, g: nat, b: nat, flag: bool, h: nat, c: nat)
    requires g < |where| && where[g] < |disk| && b / 8 < |disk[where[g]]| && Distinct(where)
    ensures GroupBit(disk[where[g] := MapSet(disk[where[g]], b, flag)], where, h, c)
         == if h == g && c == b then flag else GroupBit(disk, where, h, c)
  {
    if h < g { assert h < |where| ==> where[h] != where[g]; }
    if g < h { assert h < |where| ==> where[g] != where[h]; }
  }

  /** Rewriting one bit of one group's bitmap block changes exactly that entry of the map. */
  lemma MarkedUpdate(disk: seq<Block>, where: seq<nat>, n: nat, base: nat, total: nat, g: nat, b: nat, flag: bool)
    requires g < |where| && where[g] < |disk| && b / 8 < |disk[where[g]]| && Distinct(where)
    requires b < n && Start(g, n) + b < total
    ensures var old_ := Marked(disk, where, n, base, total);
            var e := {base + Start(g, n) + b};
            Marked(disk[where[g] := MapSet(disk[where[g]], b, flag)], where, n, base, total)
            == if flag then old_ + e else old_ - e
  {
    var disk' := disk[where[g] := MapSet(disk[where[g]], b, flag)];
    forall i: nat
      ensures SpreadBit(disk', where, n, base, i)
           == if i == base + Start(g, n) + b then flag else SpreadBit(disk, where, n, base, i)
    {
      SpreadBitUpdate(disk, where, n, base, g, b, flag, i);
    }
  }

  lemma SpreadBitUpdate(disk: seq<Block>, where: seq<nat>, n: nat, base: nat, g: nat, b: nat, flag: bool, i: nat)
    requires g < |where| && where[g] < |disk| && b / 8 < |disk[where[g]]| && Distinct(where) && b < n
    ensures SpreadBit(disk[where[g] := MapSet(disk[where[g]], b, flag)], where, n, base, i)
         == if i == base + Start(g, n) + b then flag else SpreadBit(disk, where, n, base, i)
  {
    if base <= i {
      GroupBitUpdate(disk, where, g, b, flag, Quot(i - base, n), Rem(i - base, n));
      QuotRem(i - base, n);
      QuotOfStart(g, b, n);
    }
  }

  ghost predicate SameAt(disk: seq<Block>, disk': seq<Block>, where: seq<nat>) {
    |disk'| == |disk| && forall h :: 0 <= h < |where| && where[h] < |disk| ==> disk'[where[h]] == disk[where[h]]
  }

  /** Blocks outside the bitmaps do not matter to them. */
  lemma MarkedFrame(disk: seq<Block>, disk': seq<Block>, where: seq<nat>, n: nat, base: nat, total: nat)
    requires SameAt(disk, disk', where)
    ensures Marked(disk', where, n, base, total) == Marked(disk, where, n, base, total)
  {
    forall i: nat ensures SpreadBit(disk', where, n, base, i) == SpreadBit(disk, where, n, base, i) {}
  }

  /** Cached per-group counts agree with the bits of each group's bitmap block. */
  ghost predicate BitsCounted(disk: seq<Block>, where: seq<nat>, n: nat, counts: seq<nat>) {
    |counts| == |where| &&
    forall g :: 0 <= g < |where| ==> where[g] < |disk| && counts[g] == CountFree(MapBits(disk[where[g]], n))
  }

  lemma CountedUpdate(disk: seq<Block>, where: seq<nat>, n: nat, counts: seq<nat>, g: nat, b: nat, flag: bool)
    requires BitsCounted(disk, where, n, counts) && Distinct(where)
    requires g < |where| && b < n && b / 8 < |disk[where[g]]| && MapBit(disk[where[g]], b) != flag
    ensures flag ==> counts[g] > 0
    ensures BitsCounted(disk[where[g] := MapSet(disk[where[g]], b, flag)], where, n,
                    counts[g := counts[g] + if flag then -1 else 1])
    ensures Sum(counts[g := counts[g] + if flag then -1 else 1]) == Sum(counts) + if flag then -1 else 1
  {
    MapBitsUpdate(disk[where[g]], n, b, flag);
    CountUpdate(MapBits(disk[where[g]], n), b, flag);
    SumUpdate(counts, g, counts[g] + if flag then -1 else 1);
    assert forall h :: 0 <= h < |where| && h != g ==> where[h] != where[g];
  }

  lemma CountedFrame(disk: seq<Block>, disk': seq<Block>, where: seq<nat>, n: nat, counts: seq<nat>)
    requires BitsCounted(disk, where, n, counts) && SameAt(disk, disk', where)
    ensures BitsCounted(disk', where, n, counts)
  {}

  // ---------------------------------------------------------------- inode slots

  /** Byte offset of inode slot idx of a table starting at block t. */
  function SlotOffset(geo: Geometry, t: nat, idx: nat): nat {
    t * geo.blockSize + idx * geo.InodeSize()
  }

  /** Slots start on a multiple of 128 inside their sector, so a whole inode fits there. */
  lemma SlotInSector(geo: Geometry, t: nat, idx: nat)
    requires geo.Sizes()
    ensures SlotOffset(geo, t, idx) % SECTOR + INODE_BYTES <= SECTOR
    ensures SlotOffset(geo, t, idx) % geo.blockSize + INODE_BYTES <= geo.blockSize
  {
    Multiple128(t, idx, geo.blockSize, geo.InodeSize());
  }

  lemma Multiple128(t: nat, idx: nat, bs: nat, isz: nat)
    requires bs == 1024 || bs == 2048
    requires isz == 128 || isz == 256 || isz == 512
    ensures (t * bs + idx * isz) % 128 == 0
    ensures (t * bs + idx * isz) % SECTOR <= SECTOR - 128 && (t * bs + idx * isz) % bs <= bs - 128
  {
    var x := t * (bs / 128) + idx * (isz / 128);
    assert t * bs + idx * isz == 128 * x by {
      assert bs == 128 * (bs / 128) && isz == 128 * (isz / 128);
      MulAssoc128(t, bs / 128);
      MulAssoc128(idx, isz / 128);
    }
    Mod128(x, 512);
    Mod128(x, 1024);
    Mod128(x, 2048);
  }

  lemma MulAssoc128(a: nat, b: nat)
    ensures a * (128 * b) == 128 * (a * b)
  {}

  lemma Mod128(x: nat, m: nat)
    requires m == 512 || m == 1024 || m == 2048
    ensures 128 * x % 128 == 0 && 128 * x % m <= m - 128
  {}

  lemma SlotBlock(geo: Geometry, t: nat, idx: nat)
    requires geo.Sizes() && geo.Totals() && idx < geo.inodesPerGroup
    ensures t <= SlotOffset(geo, t, idx) / geo.blockSize < t + geo.tableBlocks
    ensures SlotOffset(geo, t, idx) / geo.blockSize == t + idx * geo.InodeSize() / geo.blockSize
    ensures SlotOffset(geo, t, idx) % geo.blockSize == idx * geo.InodeSize() % geo.blockSize
  {
    StartMono(idx, geo.inodesPerGroup, geo.InodeSize());
    StartIsProduct(idx, geo.InodeSize());
    StartIsProduct(geo.tableBlocks, geo.blockSize);
    BlockOffset(geo.blockSize, t, idx * geo.InodeSize(), geo.tableBlocks);
  }

  lemma BlockOffset(bs: nat, t: nat, s: nat, blocks: nat)
    requires bs == 1024 || bs == 2048
    requires s < blocks * bs
    ensures (t * bs + s) / bs == t + s / bs && (t * bs + s) % bs == s % bs
    ensures t + s / bs < t + blocks
  {}

  /** Two slots of one table that share a block are at least one inode apart. */
  lemma SlotsApart(geo: Geometry, i: nat, j: nat)
    requires geo.Sizes() && i < j
    requires i * geo.InodeSize() / geo.blockSize == j * geo.InodeSize() / geo.blockSize
    ensures i * geo.InodeSize() % geo.blockSize + INODE_BYTES <= j * geo.InodeSize() % geo.blockSize
  {}

  /** The block a sector belongs to, and where in that block it starts. */
  function SectorBlock(bs: nat, sector: nat): nat
    requires bs >= SECTOR
  {
    sector / (bs / SECTOR)
  }

  function SectorStart(bs: nat, sector: nat): nat
    requires bs >= SECTOR
  {
    sector % (bs / SECTOR) * SECTOR
  }

  /** The block and the offset in it that the kernel computes sector-wise. */
  lemma SectorOfBlock(bs: nat, off: nat)
    requires bs == 1024 || bs == 2048
    ensures SectorBlock(bs, off / SECTOR) == off / bs
    ensures SectorStart(bs, off / SECTOR) + off % SECTOR == off % bs
  {}

  lemma GroupExists(geo: Geometry, ino: nat)
    requires geo.inodesPerGroup > 0 && geo.Totals() && 1 <= ino
    ensures Quot(ino - 1, geo.inodesPerGroup) < geo.groups <==> ino <= geo.inodesCount
    ensures Quot(ino - 1, geo.inodesPerGroup) == (ino - 1) / geo.inodesPerGroup
    ensures Rem(ino - 1, geo.inodesPerGroup) == (ino - 1) % geo.inodesPerGroup < geo.inodesPerGroup
  {
    QuotBound(ino - 1, geo.inodesPerGroup, geo.groups);
    QuotRem(ino - 1, geo.inodesPerGroup);
  }

  /** Byte offset of an inode on the disk. */
  ghost function SlotOf(geo: Geometry, ino: nat): (r: nat)
    requires geo.Valid() && 1 <= ino <= geo.inodesCount
    ensures r / geo.blockSize < geo.blocksCount
    ensures r % geo.blockSize + INODE_BYTES <= geo.blockSize
    ensures r % SECTOR + INODE_BYTES <= SECTOR
    ensures Quot(ino - 1, geo.inodesPerGroup) < geo.groups
    ensures geo.InTable(Quot(ino - 1, geo.inodesPerGroup), r / geo.blockSize)
  {
    GroupExists(geo, ino);
    var t, idx := geo.inodeTable[Quot(ino - 1, geo.inodesPerGroup)], Rem(ino - 1, geo.inodesPerGroup);
    SlotInSector(geo, t, idx);
    SlotBlock(geo, t, idx);
    SlotOffset(geo, t, idx)
  }

  /** An inode cut out of its sector is the inode cut out of its block. */
  lemma SectorSlice(b: Block, bs: nat, off: nat)
    requires (bs == 1024 || bs == 2048) && |b| == bs
    requires off % SECTOR + INODE_BYTES <= SECTOR
    ensures var lo := SectorStart(bs, off / SECTOR);
            off % bs + INODE_BYTES <= bs && lo + SECTOR <= bs &&
            b[lo..lo + SECTOR][off % SECTOR..off % SECTOR + INODE_BYTES] == b[off % bs..off % bs + INODE_BYTES]
  {
    SectorOfBlock(bs, off);
    SliceSlice(b, SectorStart(bs, off / SECTOR), SECTOR, off % SECTOR, INODE_BYTES);
  }

  lemma SliceSlice(b: seq<Byte>, lo: nat, n: nat, x: nat, m: nat)
    requires lo + n <= |b| && x + m <= n
    ensures b[lo..lo + n][x..x + m] == b[lo + x..lo + x + m]
  {
    var l, r := b[lo..lo + n][x..x + m], b[lo + x..lo + x + m];
    assert |l| == |r| && forall i :: 0 <= i < m ==> l[i] == r[i];
  }

  lemma PatchPatch(b: seq<Byte>, lo: nat, n: nat, x: nat, w: seq<Byte>)
    requires lo + n <= |b| && x + |w| <= n
    ensures Patch(b, lo, Patch(b[lo..lo + n], x, w)) == Patch(b, lo + x, w)
  {
    var l, r := Patch(b, lo, Patch(b[lo..lo + n], x, w)), Patch(b, lo + x, w);
    assert |l| == |r| && forall i :: 0 <= i < |b| ==> l[i] == r[i];
  }

  /** Patching a sector and writing it back patches the block. */
  lemma SectorWrite(b: Block, bs: nat, off: nat, w: seq<Byte>)
    requires (bs == 1024 || bs == 2048) && |b| == bs && |w| == INODE_BYTES
    requires off % SECTOR + INODE_BYTES <= SECTOR
    ensures var lo := SectorStart(bs, off / SECTOR);
            off % bs + INODE_BYTES <= bs && lo + SECTOR <= bs &&
            Patch(b, lo, Patch(b[lo..lo + SECTOR], off % SECTOR, w)) == Patch(b, off % bs, w)
  {
    SectorOfBlock(bs, off);
    PatchPatch(b, SectorStart(bs, off / SECTOR), SECTOR, off % SECTOR, w);
  }

  /** Distinct inodes occupy disjoint bytes, across groups and inside a shared block. */
  lemma InodesApart(geo: Geometry, i: nat, j: nat)
    requires geo.Valid() && 1 <= i < j <= geo.inodesCount
    requires SlotOf(geo, i) / geo.blockSize == SlotOf(geo, j) / geo.blockSize
    ensures SlotOf(geo, i) % geo.blockSize + INODE_BYTES <= SlotOf(geo, j) % geo.blockSize
  {
    var n := geo.inodesPerGroup;
    var g, h := Quot(i - 1, n), Quot(j - 1, n);
    assert geo.InTable(g, SlotOf(geo, i) / geo.blockSize);
    assert geo.InTable(h, SlotOf(geo, j) / geo.blockSize);
    assert g == h;
    QuotRem(i - 1, n);
    QuotRem(j - 1, n);
    SlotBlock(geo, geo.inodeTable[g], Rem(i - 1, n));
    SlotBlock(geo, geo.inodeTable[g], Rem(j - 1, n));
    SlotsApart(geo, Rem(i - 1, n), Rem(j - 1, n));
  }

  ghost function InodeOn(geo: Geometry, disk: seq<Block>, ino: nat): Inode
    requires DiskSized(geo, disk) && 1 <= ino <= geo.inodesCount
  {
    var o := SlotOf(geo, ino);
    Decode(disk[o / geo.blockSize][o % geo.blockSize..o % geo.blockSize + INODE_BYTES])
  }

  ghost function WithInode(geo: Geometry, disk: seq<Block>, ino: nat, n: Inode): (r: seq<Block>)
    requires DiskSized(geo, disk) && 1 <= ino <= geo.inodesCount
    ensures DiskSized(geo, r)
  {
    var o := SlotOf(geo, ino);
    disk[o / geo.blockSize := Patch(disk[o / geo.blockSize], o % geo.blockSize, Encode(n))]
  }

  /** An inode that is written reads back unchanged. */
  lemma WrittenInode(geo: Geometry, disk: seq<Block>, ino: nat, n: Inode)
    requires DiskSized(geo, disk) && 1 <= ino <= geo.inodesCount
    ensures InodeOn(geo, WithInode(geo, disk, ino, n), ino) == n
  {
    var o := SlotOf(geo, ino);
    var p := o % geo.blockSize;
    var b := Patch(disk[o / geo.blockSize], p, Encode(n));
    assert b[p..p + INODE_BYTES] == Encode(n);
    EncodeDecode(n);
  }

  /** Writing one inode leaves every other inode as it was, also in the same sector. */
  lemma OtherInode(geo: Geometry, disk: seq<Block>, ino: nat, n: Inode, other: nat)
    requires DiskSized(geo, disk) && 1 <= ino <= geo.inodesCount
    requires 1 <= other <= geo.inodesCount && other != ino
    ensures InodeOn(geo, WithInode(geo, disk, ino, n), other) == InodeOn(geo, disk, other)
  {
    var o, q := SlotOf(geo, ino), SlotOf(geo, other);
    if o / geo.blockSize == q / geo.blockSize {
      if ino < other { InodesApart(geo, ino, other); } else { InodesApart(geo, other, ino); }
      PatchApart(disk[o / geo.blockSize], o % geo.blockSize, Encode(n), q % geo.blockSize, INODE_BYTES);
    }
  }

  // ---------------------------------------------------------------- the state a disk stands for

  ghost function InodesOf(geo: Geometry, disk: seq<Block>): (r: seq<Inode>)
    requires DiskSized(geo, disk)
    ensures |r| == geo.inodesCount
    ensures forall k {:trigger r[k]} :: 0 <= k < |r| ==> r[k] == InodeOn(geo, disk, k + 1)
  {
    seq(geo.inodesCount, k requires 0 <= k < geo.inodesCount => InodeOn(geo, disk, k + 1))
  }

  /** Data blocks as they are; metadata blocks do not show. */
  ghost function DataOf(geo: Geometry, disk: seq<Block>): (r: seq<Block>)
    ensures |r| == |disk|
    ensures forall b {:trigger r[b]} :: 0 <= b < |disk| ==> r[b] == if b in geo.meta then [] else disk[b]
  {
    seq(|disk|, b requires 0 <= b < |disk| => if b in geo.meta then [] else disk[b])
  }

  ghost function ViewOf(geo: Geometry, disk: seq<Block>): Vol
    requires DiskSized(geo, disk)
  {
    Vol(geo,
        Marked(disk, geo.blockBitmap, geo.blocksPerGroup, geo.firstData, geo.mapLength),
        Marked(disk, geo.inodeBitmap, geo.inodesPerGroup, 1, geo.inodesCount),
        InodesOf(geo, disk), DataOf(geo, disk))
  }

  ghost predicate TablesSame(geo: Geometry, disk: seq<Block>, disk': seq<Block>)
    requires geo.Sizes() && |disk'| == |disk|
  {
    forall g, b: nat :: 0 <= g < geo.groups && b < |disk| && geo.InTable(g, b) ==> disk'[b] == disk[b]
  }

  lemma InodeFrame(geo: Geometry, disk: seq<Block>, disk': seq<Block>, ino: nat)
    requires DiskSized(geo, disk) && DiskSized(geo, disk') && 1 <= ino <= geo.inodesCount
    requires TablesSame(geo, disk, disk')
    ensures InodeOn(geo, disk', ino) == InodeOn(geo, disk, ino)
  {
    var b := SlotOf(geo, ino) / geo.blockSize;
    assert geo.InTable(Quot(ino - 1, geo.inodesPerGroup), b);
  }

  lemma InodesFrame(geo: Geometry, disk: seq<Block>, disk': seq<Block>)
    requires DiskSized(geo, disk) && DiskSized(geo, disk')
    requires TablesSame(geo, disk, disk')
    ensures InodesOf(geo, disk') == InodesOf(geo, disk)
  {
    forall k: nat | k < geo.inodesCount ensures InodesOf(geo, disk')[k] == InodesOf(geo, disk)[k] {
      InodeFrame(geo, disk, disk', k + 1);
    }
  }

  /** Rewriting a bitmap block shows neither in the inodes nor in the data. */
  lemma MetaWriteFrame(geo: Geometry, disk: seq<Block>, w: nat, c: Block)
    requires DiskSized(geo, disk) && w in geo.meta && w < |disk| && |c| == geo.blockSize
    requires forall g :: 0 <= g < geo.groups ==> !geo.InTable(g, w)
    ensures InodesOf(geo, disk[w := c]) == InodesOf(geo, disk)
    ensures DataOf(geo, disk[w := c]) == DataOf(geo, disk)
  {
    assert TablesSame(geo, disk, disk[w := c]);
    InodesFrame(geo, disk, disk[w := c]);
    assert DataOf(geo, disk[w := c]) == DataOf(geo, disk);
  }

  lemma BitmapsExist(geo: Geometry, disk: seq<Block>, b: nat)
    requires DiskSized(geo, disk)
    ensures |geo.blockBitmap| == geo.groups && |geo.inodeBitmap| == geo.groups && |disk| == geo.blocksCount
    ensures geo.mapLength == Start(geo.groups, geo.blocksPerGroup)
    ensures geo.inodesCount == Start(geo.groups, geo.inodesPerGroup)
    ensures forall g :: 0 <= g < geo.groups ==>
      var w := geo.blockBitmap[g];
      w < |disk| && |disk[w]| == geo.blockSize && w in geo.meta && forall h :: 0 <= h < geo.groups ==> !geo.InTable(h, w)
    ensures forall g :: 0 <= g < geo.groups ==>
      var w := geo.inodeBitmap[g];
      w < |disk| && |disk[w]| == geo.blockSize && w in geo.meta && forall h :: 0 <= h < geo.groups ==> !geo.InTable(h, w)
    ensures (b < geo.blocksPerGroup || b < geo.inodesPerGroup) ==> b / 8 < geo.blockSize
    ensures geo.Valid() && geo.Sizes() && geo.blocksPerGroup > 0 && geo.inodesPerGroup > 0
    ensures geo.blockSize == 1024 || geo.blockSize == 2048
  {}

  /** The bitmap blocks of a group are nowhere else in use. */
  lemma BitmapWriteApart(geo: Geometry, disk: seq<Block>, g: nat, c: Block)
    requires DiskSized(geo, disk) && g < geo.groups && |c| == geo.blockSize
    ensures SameAt(disk, disk[geo.blockBitmap[g] := c], geo.inodeBitmap)
    ensures SameAt(disk, disk[geo.inodeBitmap[g] := c], geo.blockBitmap)
    ensures Distinct(geo.blockBitmap) && Distinct(geo.inodeBitmap)
    ensures DiskSized(geo, disk[geo.blockBitmap[g] := c]) && DiskSized(geo, disk[geo.inodeBitmap[g] := c])
  {}

  lemma ViewBlockBit(geo: Geometry, disk: seq<Block>, g: nat, b: nat, flag: bool)
    requires DiskSized(geo, disk) && g < geo.groups && b < geo.blocksPerGroup
    ensures var w := geo.blockBitmap[g];
            var disk' := disk[w := MapSet(disk[w], b, flag)];
            var blk := geo.firstData + Start(g, geo.blocksPerGroup) + b;
            DiskSized(geo, disk') && SameAt(disk, disk', geo.inodeBitmap) &&
            ViewOf(geo, disk') == if flag then Take(ViewOf(geo, disk), blk) else Release(ViewOf(geo, disk), {blk})
  {
    hide DiskSized, Marked, InodesOf, DataOf, MapSet, Start, SameAt, Distinct, Geometry.Valid, Geometry.Sizes;
    BitmapsExist(geo, disk, b);
    var w := geo.blockBitmap[g];
    var disk' := disk[w := MapSet(disk[w], b, flag)];
    BitmapWriteApart(geo, disk, g, disk'[w]);
    StartMono(g, geo.groups, geo.blocksPerGroup);
    MarkedUpdate(disk, geo.blockBitmap, geo.blocksPerGroup, geo.firstData, geo.mapLength, g, b, flag);
    MarkedFrame(disk, disk', geo.inodeBitmap, geo.inodesPerGroup, 1, geo.inodesCount);
    MetaWriteFrame(geo, disk, w, disk'[w]);
  }

  lemma ViewInodeBit(geo: Geometry, disk: seq<Block>, g: nat, b: nat, flag: bool)
    requires DiskSized(geo, disk) && g < geo.groups && b < geo.inodesPerGroup
    ensures var w := geo.inodeBitmap[g];
            var disk' := disk[w := MapSet(disk[w], b, flag)];
            var v, ino := ViewOf(geo, disk), Start(g, geo.inodesPerGroup) + b + 1;
            DiskSized(geo, disk') && SameAt(disk, disk', geo.blockBitmap) &&
            ViewOf(geo, disk') == v.(live := if flag then v.live + {ino} else v.live - {ino})
  {
    hide DiskSized, Marked, InodesOf, DataOf, MapSet, Start, SameAt, Distinct, Geometry.Valid, Geometry.Sizes;
    BitmapsExist(geo, disk, b);
    var w := geo.inodeBitmap[g];
    var disk' := disk[w := MapSet(disk[w], b, flag)];
    BitmapWriteApart(geo, disk, g, disk'[w]);
    StartMono(g, geo.groups, geo.inodesPerGroup);
    MarkedUpdate(disk, geo.inodeBitmap, geo.inodesPerGroup, 1, geo.inodesCount, g, b, flag);
    MarkedFrame(disk, disk', geo.blockBitmap, geo.blocksPerGroup, geo.firstData, geo.mapLength);
    MetaWriteFrame(geo, disk, w, disk'[w]);
  }

  lemma WithInodeFrame(geo: Geometry, disk: seq<Block>, ino: nat, n: Inode)
    requires DiskSized(geo, disk) && 1 <= ino <= geo.inodesCount
    ensures var disk' := WithInode(geo, disk, ino, n);
            SameAt(disk, disk', geo.blockBitmap) && SameAt(disk, disk', geo.inodeBitmap)
            && DataOf(geo, disk') == DataOf(geo, disk)
  {
    var b := SlotOf(geo, ino) / geo.blockSize;
    assert geo.InTable(Quot(ino - 1, geo.inodesPerGroup), b);
    assert DataOf(geo, WithInode(geo, disk, ino, n)) == DataOf(geo, disk);
  }

  lemma InodesWith(geo: Geometry, disk: seq<Block>, ino: nat, n: Inode)
    requires DiskSized(geo, disk) && 1 <= ino <= geo.inodesCount
    ensures InodesOf(geo, WithInode(geo, disk, ino, n)) == InodesOf(geo, disk)[ino - 1 := n]
  {
    hide *;
    var l, r := InodesOf(geo, WithInode(geo, disk, ino, n)), InodesOf(geo, disk)[ino - 1 := n];
    forall k: nat | k < geo.inodesCount ensures l[k] == r[k] {
      if k + 1 == ino { WrittenInode(geo, disk, ino, n); } else { OtherInode(geo, disk, ino, n, k + 1); }
    }
  }

  lemma ViewWithInode(geo: Geometry, disk: seq<Block>, ino: nat, n: Inode)
    requires DiskSized(geo, disk) && 1 <= ino <= geo.inodesCount
    ensures ViewOf(geo, WithInode(geo, disk, ino, n)) == PutInode(ViewOf(geo, disk), ino, n)
  {
    var disk' := WithInode(geo, disk, ino, n);
    WithInodeFrame(geo, disk, ino, n);
    MarkedFrame(disk, disk', geo.blockBitmap, geo.blocksPerGroup, geo.firstData, geo.mapLength);
    MarkedFrame(disk, disk', geo.inodeBitmap, geo.inodesPerGroup, 1, geo.inodesCount);
    InodesWith(geo, disk, ino, n);
  }

  lemma ViewPutBlock(geo: Geometry, disk: seq<Block>, b: nat, c: Block)
    requires DiskSized(geo, disk) && geo.IsData(b) && |c| == geo.blockSize
    ensures var disk' := disk[b := c];
            DiskSized(geo, disk') && SameAt(disk, disk', geo.blockBitmap) && SameAt(disk, disk', geo.inodeBitmap)
            && ViewOf(geo, disk') == PutBlock(ViewOf(geo, disk), b, c)
  {
    var disk' := disk[b := c];
    MarkedFrame(disk, disk', geo.blockBitmap, geo.blocksPerGroup, geo.firstData, geo.mapLength);
    MarkedFrame(disk, disk', geo.inodeBitmap, geo.inodesPerGroup, 1, geo.inodesCount);
    assert TablesSame(geo, disk, disk');
    InodesFrame(geo, disk, disk');
    assert DataOf(geo, disk') == DataOf(geo, disk)[b := c];
  }

  /** Where the reader and the writer look for an inode: group and index found by division, then the sector. */
  lemma SlotComputed(geo: Geometry, ino: nat)
    requires geo.Valid() && 1 <= ino
    ensures geo.InodeGroup(ino - 1) < geo.groups <==> ino <= geo.inodesCount
    ensures ino <= geo.inodesCount ==>
      SlotOffset(geo, geo.inodeTable[geo.InodeGroup(ino - 1)], geo.InodeIndex(ino - 1)) == SlotOf(geo, ino)
  {
    GroupExists(geo, ino);
  }

  /** Reading or rewriting the sector of an inode reads or rewrites that inode on the disk. */
  lemma SectorOfInode(geo: Geometry, disk: seq<Block>, ino: nat, n: Inode)
    requires DiskSized(geo, disk) && 1 <= ino <= geo.inodesCount
    ensures var off := SlotOf(geo, ino);
            var at, lo := SectorBlock(geo.blockSize, off / SECTOR), SectorStart(geo.blockSize, off / SECTOR);
            at < |disk| && |disk[at]| == geo.blockSize && lo + SECTOR <= geo.blockSize &&
            off % SECTOR + INODE_BYTES <= SECTOR &&
            var buf := disk[at][lo..lo + SECTOR];
            Decode(buf[off % SECTOR..off % SECTOR + INODE_BYTES]) == InodeOn(geo, disk, ino) &&
            disk[at := Patch(disk[at], lo, Patch(buf, off % SECTOR, Encode(n)))] == WithInode(geo, disk, ino, n)
  {
    hide Geometry.MetaApart, Geometry.MetaReserved, SlotOf, Decode, Encode;
    var off := SlotOf(geo, ino);
    SectorOfBlock(geo.blockSize, off);
    SectorSlice(disk[off / geo.blockSize], geo.blockSize, off);
    SectorWrite(disk[off / geo.blockSize], geo.blockSize, off, Encode(n));
  }

  // ---------------------------------------------------------------- disk and cached counters together

  /** The in-memory free counters of the group descriptors and of the superblock. */
  datatype Counters = Counters(groupBlocks: seq<nat>, groupInodes: seq<nat>, blocks: nat, inodes: nat)

  /** Every cached counter equals the clear bits it stands for. */
  ghost predicate Accounted(geo: Geometry, disk: seq<Block>, c: Counters) {
    && BitsCounted(disk, geo.blockBitmap, geo.blocksPerGroup, c.groupBlocks) && c.blocks == Sum(c.groupBlocks)
    && BitsCounted(disk, geo.inodeBitmap, geo.inodesPerGroup, c.groupInodes) && c.inodes == Sum(c.groupInodes)
  }

  ghost predicate Consistent(geo: Geometry, disk: seq<Block>, c: Counters) {
    DiskSized(geo, disk) && Shape(ViewOf(geo, disk)) && Accounted(geo, disk, c)
  }

  lemma ConsistentBlock(geo: Geometry, disk: seq<Block>, c: Counters, b: nat, buf: Block)
    requires Consistent(geo, disk, c) && geo.IsData(b) && |buf| == geo.blockSize
    ensures Consistent(geo, disk[b := buf], c)
    ensures ViewOf(geo, disk[b := buf]) == PutBlock(ViewOf(geo, disk), b, buf)
  {
    ViewPutBlock(geo, disk, b, buf);
    CountedFrame(disk, disk[b := buf], geo.blockBitmap, geo.blocksPerGroup, c.groupBlocks);
    CountedFrame(disk, disk[b := buf], geo.inodeBitmap, geo.inodesPerGroup, c.groupInodes);
  }

  lemma ConsistentInode(geo: Geometry, disk: seq<Block>, c: Counters, ino: nat, n: Inode)
    requires Consistent(geo, disk, c) && 1 <= ino <= geo.inodesCount
    ensures Consistent(geo, WithInode(geo, disk, ino, n), c)
    ensures ViewOf(geo, WithInode(geo, disk, ino, n)) == PutInode(ViewOf(geo, disk), ino, n)
  {
    hide WithInode, Geometry.MetaApart, Geometry.MetaReserved, Marked;
    var disk' := WithInode(geo, disk, ino, n);
    ViewWithInode(geo, disk, ino, n);
    WithInodeFrame(geo, disk, ino, n);
    CountedFrame(disk, disk', geo.blockBitmap, geo.blocksPerGroup, c.groupBlocks);
    CountedFrame(disk, disk', geo.inodeBitmap, geo.inodesPerGroup, c.groupInodes);
  }

  /** The superblock and the group descriptors may be rewritten: nothing of the volume's meaning is kept there. */
  lemma ConsistentHidden(geo: Geometry, disk: seq<Block>, c: Counters, b: nat, buf: Block)
    requires Consistent(geo, disk, c) && (b == geo.SuperBlock() || b == geo.DescBlock()) && |buf| == geo.blockSize
    ensures b < |disk| && Consistent(geo, disk[b := buf], c) && ViewOf(geo, disk[b := buf]) == ViewOf(geo, disk)
  {
    hide Marked, Shape, InodesOf, DataOf;
    HiddenBlocks(geo, b);
    var disk' := disk[b := buf];
    assert SameAt(disk, disk', geo.blockBitmap) && SameAt(disk, disk', geo.inodeBitmap);
    MarkedFrame(disk, disk', geo.blockBitmap, geo.blocksPerGroup, geo.firstData, geo.mapLength);
    MarkedFrame(disk, disk', geo.inodeBitmap, geo.inodesPerGroup, 1, geo.inodesCount);
    MetaWriteFrame(geo, disk, b, buf);
    CountedFrame(disk, disk', geo.blockBitmap, geo.blocksPerGroup, c.groupBlocks);
    CountedFrame(disk, disk', geo.inodeBitmap, geo.inodesPerGroup, c.groupInodes);
  }

  lemma HiddenBlocks(geo: Geometry, b: nat)
    requires geo.Valid() && geo.SuperApart() && (b == geo.SuperBlock() || b == geo.DescBlock())
    ensures b < geo.blocksCount && b in geo.meta && geo.InNoGroup(b) && 32 * geo.groups <= geo.blockSize
  {}

  /** The counters as the superblock (offsets 12 and 16 from byte 1024) and the group descriptors hold them on the disk. */
  ghost predicate Persisted(geo: Geometry, disk: seq<Block>, c: Counters)
    requires DiskSized(geo, disk)
  {
    && Le32(disk[geo.SuperBlock()], geo.SuperOffset() + 12) == c.blocks
    && Le32(disk[geo.SuperBlock()], geo.SuperOffset() + 16) == c.inodes
    && |c.groupBlocks| == geo.groups && |c.groupInodes| == geo.groups && DescsHold(disk[geo.DescBlock()], c, geo.groups)
  }

  /** The first n descriptors of 32 bytes hold their counters at offsets 12 and 14. */
  ghost predicate DescsHold(d: Block, c: Counters, n: nat)
    requires 32 * n <= |d| && n <= |c.groupBlocks| && n <= |c.groupInodes|
  {
    forall g :: 0 <= g < n ==> Le16(d, 32 * g + 12) == c.groupBlocks[g] && Le16(d, 32 * g + 14) == c.groupInodes[g]
  }

  /** Counters of bitmaps fit their fields. */
  lemma CountersFit(geo: Geometry, disk: seq<Block>, c: Counters)
    requires Consistent(geo, disk, c)
    ensures c.blocks < 0x1_0000_0000 && c.inodes < 0x1_0000_0000
    ensures |c.groupBlocks| == geo.groups && |c.groupInodes| == geo.groups
    ensures forall g :: 0 <= g < geo.groups ==> c.groupBlocks[g] < 0x1_0000 && c.groupInodes[g] < 0x1_0000
  {
    forall g | 0 <= g < geo.groups ensures c.groupBlocks[g] <= 16384 && c.groupInodes[g] <= 16384 {
      CountBound(MapBits(disk[geo.blockBitmap[g]], geo.blocksPerGroup));
      CountBound(MapBits(disk[geo.inodeBitmap[g]], geo.inodesPerGroup));
    }
    SumBound(c.groupBlocks, 16384);
    StartIsProduct(geo.groups, 16384);
    SumBound(c.groupInodes, 16384);
  }

  /** Setting or clearing a block's bit, with its two counters. */
  lemma ConsistentBlockBit(geo: Geometry, disk: seq<Block>, c: Counters, g: nat, b: nat, flag: bool)
    requires Consistent(geo, disk, c) && g < geo.groups && b < geo.blocksPerGroup
    requires MapBit(disk[geo.blockBitmap[g]], b) != flag
    requires !flag ==> geo.IsData(geo.firstData + Start(g, geo.blocksPerGroup) + b)
    ensures flag ==> c.groupBlocks[g] > 0 && c.blocks > 0
    ensures var w := geo.blockBitmap[g];
            var d: int := if flag then -1 else 1;
            var blk := geo.firstData + Start(g, geo.blocksPerGroup) + b;
            var disk' := disk[w := MapSet(disk[w], b, flag)];
            g < |c.groupBlocks| && c.blocks + d >= 0 && c.groupBlocks[g] + d >= 0 &&
            Consistent(geo, disk', c.(groupBlocks := c.groupBlocks[g := c.groupBlocks[g] + d], blocks := c.blocks + d)) &&
            ViewOf(geo, disk') == if flag then Take(ViewOf(geo, disk), blk) else Release(ViewOf(geo, disk), {blk})
  {
    hide Geometry.MetaApart, Geometry.MetaReserved, Marked, Sum;
    var w := geo.blockBitmap[g];
    var disk' := disk[w := MapSet(disk[w], b, flag)];
    BitmapsApart(geo);
    MapBitIndex(b);
    ViewBlockBit(geo, disk, g, b, flag);
    CountedUpdate(disk, geo.blockBitmap, geo.blocksPerGroup, c.groupBlocks, g, b, flag);
    CountedFrame(disk, disk', geo.inodeBitmap, geo.inodesPerGroup, c.groupInodes);
  }

  /** Freeing what is free leaves the maps alone and counts it once more than it is there. */
  lemma FreedTwice(disk: seq<Block>, where: seq<nat>, n: nat, counts: seq<nat>, g: nat, b: nat)
    requires BitsCounted(disk, where, n, counts) && g < |where| && b / 8 < |disk[where[g]]| && !MapBit(disk[where[g]], b)
    ensures disk[where[g] := MapSet(disk[where[g]], b, false)] == disk
    ensures g < |counts| && !BitsCounted(disk, where, n, counts[g := counts[g] + 1])
  {
    MapSetSame(disk[where[g]], b);
    var more := counts[g := counts[g] + 1];
    assert more[g] != CountFree(MapBits(disk[where[g]], n));
  }

  lemma ConsistentInodeBit(geo: Geometry, disk: seq<Block>, c: Counters, g: nat, b: nat, flag: bool)
    requires Consistent(geo, disk, c) && g < geo.groups && b < geo.inodesPerGroup
    requires MapBit(disk[geo.inodeBitmap[g]], b) != flag
    ensures var w := geo.inodeBitmap[g];
            var d: int := if flag then -1 else 1;
            var v, ino := ViewOf(geo, disk), Start(g, geo.inodesPerGroup) + b + 1;
            var disk' := disk[w := MapSet(disk[w], b, flag)];
            g < |c.groupInodes| && c.inodes + d >= 0 && c.groupInodes[g] + d >= 0 &&
            Consistent(geo, disk', c.(groupInodes := c.groupInodes[g := c.groupInodes[g] + d], inodes := c.inodes + d)) &&
            ViewOf(geo, disk') == v.(live := if flag then v.live + {ino} else v.live - {ino})
  {
    hide Geometry.MetaApart, Geometry.MetaReserved, Marked, Sum;
    var w := geo.inodeBitmap[g];
    var disk' := disk[w := MapSet(disk[w], b, flag)];
    BitmapsApart(geo);
    MapBitIndex(b);
    ViewInodeBit(geo, disk, g, b, flag);
    CountedUpdate(disk, geo.inodeBitmap, geo.inodesPerGroup, c.groupInodes, g, b, flag);
    CountedFrame(disk, disk', geo.blockBitmap, geo.blocksPerGroup, c.groupBlocks);
  }

  lemma BitmapsApart(geo: Geometry)
    requires geo.Valid()
    ensures Distinct(geo.blockBitmap) && Distinct(geo.inodeBitmap)
    ensures forall g :: 0 <= g < geo.groups ==> geo.blockBitmap[g] < geo.blocksCount && geo.inodeBitmap[g] < geo.blocksCount
  {}

  /** Every bit of the groups before g, and the first b bits of group g, are set. */
  ghost predicate AllSetBefore(disk: seq<Block>, where: seq<nat>, n: nat, g: nat, b: nat) {
    forall h, k :: 0 <= h <= g && 0 <= k < n && (h < g || k < b) ==> GroupBit(disk, where, h, k)
  }

  /** A group may be skipped when its cached count is zero, and only then is it full. */
  lemma GroupFull(disk: seq<Block>, where: seq<nat>, n: nat, counts: seq<nat>, g: nat)
    requires BitsCounted(disk, where, n, counts) && g < |where|
    ensures counts[g] == 0 <==> forall b :: 0 <= b < n ==> GroupBit(disk, where, g, b)
  {
    var bits := MapBits(disk[where[g]], n);
    CountZero(bits);
    assert forall b: nat :: b < n ==> bits[b] == GroupBit(disk, where, g, b);
    if forall b :: 0 <= b < n ==> GroupBit(disk, where, g, b) {
      assert Full(bits);
    }
  }

  lemma AllGroupsFull(counts: seq<nat>, g: nat)
    requires g < |counts| ==> counts[g] > 0
    requires forall h :: 0 <= h < g < |counts| || 0 <= h < |counts| <= g ==> counts[h] == 0
    ensures Sum(counts) == 0 <==> g >= |counts|
  {
    SumZero(counts);
  }

  /** The scan order of the allocator is the numeric order of the entries. */
  lemma ScanIsLowest(disk: seq<Block>, where: seq<nat>, n: nat, base: nat, total: nat, g: nat, b: nat)
    requires n > 0 && AllSetBefore(disk, where, n, g, b) && b <= n
    requires total == Start(|where|, n) && g <= |where|
    requires (g == |where| && b == 0) || (g < |where| && b < n && !GroupBit(disk, where, g, b))
    ensures LowestOut(Marked(disk, where, n, base, total), base, base + total) == base + Start(g, n) + b
  {
    var m, hi := Marked(disk, where, n, base, total), base + Start(g, n) + b;
    if g < |where| {
      StartMono(g, |where|, n);
      MarkedBit(disk, where, n, base, total, hi);
      QuotOfStart(g, b, n);
    }
    forall i | base <= i < hi ensures i in m {
      MarkedBit(disk, where, n, base, total, i);
      BeforeInScan(i - base, n, g, b);
    }
  }

  lemma BeforeInScan(i: nat, n: nat, g: nat, b: nat)
    requires n > 0 && i < Start(g, n) + b && b <= n
    ensures Quot(i, n) < g || (Quot(i, n) == g && Rem(i, n) < b)
  {
    QuotRem(i, n);
    if Quot(i, n) > g {
      StartMono(g, Quot(i, n), n);
    }
  }

  /** A number is marked exactly when its bit is set. */
  lemma MarkedBit(disk: seq<Block>, where: seq<nat>, n: nat, base: nat, total: nat, i: nat)
    requires n > 0 && total == Start(|where|, n) && base <= i
    ensures Quot(i - base, n) == (i - base) / n && Rem(i - base, n) == (i - base) % n < n
    ensures i < base + total <==> Quot(i - base, n) < |where|
    ensures i in Marked(disk, where, n, base, total)
        <==> i < base + total && GroupBit(disk, where, Quot(i - base, n), Rem(i - base, n))
    ensures base + Start(Quot(i - base, n), n) + Rem(i - base, n) == i
  {
    QuotRem(i - base, n);
    QuotBound(i - base, n, |where|);
  }

  /** Entry b of group g is the entry the arithmetic of the allocators and of the free routines means. */
  lemma BlockNumbering(geo: Geometry, g: nat, b: nat)
    ensures geo.BlockNumber(g, b) == geo.firstData + Start(g, geo.blocksPerGroup) + b
    ensures geo.InodeNumberOf(g, b) == Start(g, geo.inodesPerGroup) + b + 1
  {
    StartIsProduct(g, geo.blocksPerGroup);
    StartIsProduct(g, geo.inodesPerGroup);
  }

  /** What a finished scan of the block bitmaps has found. */
  lemma BlockScanDone(geo: Geometry, disk: seq<Block>, c: Counters, g: nat, b: nat)
    requires Consistent(geo, disk, c) && AllSetBefore(disk, geo.blockBitmap, geo.blocksPerGroup, g, b)
    requires forall h :: 0 <= h < g && h < |c.groupBlocks| ==> c.groupBlocks[h] == 0
    requires (g == geo.groups && b == 0)
          || (g < geo.groups && b < geo.blocksPerGroup && g < |c.groupBlocks| && c.groupBlocks[g] > 0
              && !GroupBit(disk, geo.blockBitmap, g, b))
    ensures LowestFree(ViewOf(geo, disk)) == if g == geo.groups then 0 else geo.BlockNumber(g, b)
    ensures g < geo.groups ==> geo.BlockNumber(g, b) != 0
    ensures geo.BlockNumber(g, b) == geo.firstData + Start(g, geo.blocksPerGroup) + b
    ensures c.blocks == 0 <==> g == geo.groups
  {
    hide DiskSized, Shape, Sum, MapSet, MapBit, MapBits, CountFree, Marked, AllSetBefore, Start, InodesOf, DataOf,
         Geometry.Valid, Geometry.Sizes, Geometry.BlockNumber;
    BitmapsExist(geo, disk, b);
    ScanIsLowest(disk, geo.blockBitmap, geo.blocksPerGroup, geo.firstData, geo.mapLength, g, b);
    LowestFreeIsData(ViewOf(geo, disk));
    AllGroupsFull(c.groupBlocks, g);
    BlockNumbering(geo, g, b);
    if g < geo.groups {
      StartBelow(g, b, geo.blocksPerGroup, geo.groups);
      var v, blk := ViewOf(geo, disk), geo.BlockNumber(g, b);
      assert v.geo.firstData <= blk < v.geo.firstData + v.geo.mapLength && blk !in v.used;
      assert LowestFree(v) != 0;
    }
  }

  lemma StartBelow(g: nat, b: nat, n: nat, groups: nat)
    requires g < groups && b < n
    ensures Start(g, n) + b < Start(groups, n)
  {
    StartMono(g, groups, n);
  }

  lemma InodeScanDone(geo: Geometry, disk: seq<Block>, c: Counters, g: nat, b: nat)
    requires Consistent(geo, disk, c) && AllSetBefore(disk, geo.inodeBitmap, geo.inodesPerGroup, g, b)
    requires forall h :: 0 <= h < g && h < |c.groupInodes| ==> c.groupInodes[h] == 0
    requires (g == geo.groups && b == 0)
          || (g < geo.groups && b < geo.inodesPerGroup && g < |c.groupInodes| && c.groupInodes[g] > 0
              && !GroupBit(disk, geo.inodeBitmap, g, b))
    ensures LowestFreeInode(ViewOf(geo, disk)) == if g == geo.groups then 0 else geo.InodeNumberOf(g, b)
    ensures geo.InodeNumberOf(g, b) == Start(g, geo.inodesPerGroup) + b + 1
    ensures c.inodes == 0 <==> g == geo.groups
  {
    hide DiskSized, Shape, Sum, MapSet, MapBit, MapBits, CountFree, Marked, AllSetBefore, Start, InodesOf, DataOf,
         Geometry.Valid, Geometry.Sizes, Geometry.InodeNumberOf;
    BitmapsExist(geo, disk, b);
    ScanIsLowest(disk, geo.inodeBitmap, geo.inodesPerGroup, 1, geo.inodesCount, g, b);
    AllGroupsFull(c.groupInodes, g);
    BlockNumbering(geo, g, b);
    if g < geo.groups { StartBelow(g, b, geo.inodesPerGroup, geo.groups); }
  }

  /** The same numbers marked means the same bits in every group, so the same counts. */
  lemma SameMarksSameCounts(d: seq<Block>, e: seq<Block>, where: seq<nat>, n: nat, base: nat, total: nat,
                            c: seq<nat>, k: seq<nat>)
    requires total == Start(|where|, n) && BitsCounted(d, where, n, c) && BitsCounted(e, where, n, k)
    requires Marked(d, where, n, base, total) == Marked(e, where, n, base, total)
    ensures c == k
  {
    forall g: nat | g < |where| ensures c[g] == k[g] {
      forall b: nat | b < n ensures MapBit(d[where[g]], b) == MapBit(e[where[g]], b) {
        var i := base + Start(g, n) + b;
        StartMono(g, |where|, n);
        QuotOfStart(g, b, n);
        assert i in Marked(d, where, n, base, total) <==> SpreadBit(d, where, n, base, i);
        assert i in Marked(e, where, n, base, total) <==> SpreadBit(e, where, n, base, i);
      }
      assert MapBits(d[where[g]], n) == MapBits(e[where[g]], n);
    }
  }

  /** The counters follow from the maps: a run of allocations and frees that restores the maps restores every counter. */
  lemma CountersDetermined(geo: Geometry, d: seq<Block>, c: Counters, e: seq<Block>, k: Counters)
    requires Consistent(geo, d, c) && Consistent(geo, e, k)
    requires ViewOf(geo, d).used == ViewOf(geo, e).used && ViewOf(geo, d).live == ViewOf(geo, e).live
    ensures c == k
  {
    SameMarksSameCounts(d, e, geo.blockBitmap, geo.blocksPerGroup, geo.firstData, geo.mapLength, c.groupBlocks, k.groupBlocks);
    SameMarksSameCounts(d, e, geo.inodeBitmap, geo.inodesPerGroup, 1, geo.inodesCount, c.groupInodes, k.groupInodes);
  }

  /** The clear entries of the groups before g, by their numbers. */
  ghost function ClearBefore(disk: seq<Block>, where: seq<nat>, n: nat, base: nat, g: nat): set<nat> {
    set i: nat | i < base + Start(g, n) && base <= i && !SpreadBit(disk, where, n, base, i)
  }

  ghost function ClearFrom(s: seq<bool>, base: nat): set<nat> {
    set i: nat | i < base + |s| && IsClear(s, base, i)
  }

  predicate IsClear(s: seq<bool>, base: nat, i: nat) {
    base <= i < base + |s| && !s[i - base]
  }

  lemma {:induction false} ClearCounted(s: seq<bool>, base: nat)
    ensures |ClearFrom(s, base)| == CountFree(s)
  {
    if s == [] {
      assert ClearFrom(s, base) == {};
    } else {
      ClearCounted(s[1..], base + 1);
      forall i: nat ensures IsClear(s, base, i) <==> IsClear(s[1..], base + 1, i) || (i == base && !s[0]) {
        if i > base && i < base + |s| { assert s[1..][i - base - 1] == s[i - base]; }
      }
      assert ClearFrom(s, base) == ClearFrom(s[1..], base + 1) + if s[0] then {} else {base};
    }
  }

  lemma {:induction false} GroupsCounted(disk: seq<Block>, where: seq<nat>, n: nat, counts: seq<nat>, base: nat, g: nat)
    requires BitsCounted(disk, where, n, counts) && n > 0 && g <= |where|
    ensures |ClearBefore(disk, where, n, base, g)| == Sum(counts[..g])
  {
    hide *;
    if g == 0 {
      NoneBefore(disk, where, n, base, counts);
    } else {
      GroupsCounted(disk, where, n, counts, base, g - 1);
      GroupCount(disk, where, n, counts, g - 1);
      ClearCounted(MapBits(disk[where[g - 1]], n), base + Start(g - 1, n));
      OneGroupMore(disk, where, n, base, g - 1);
      SumLast(counts[..g]);
      assert counts[..g][..g - 1] == counts[..g - 1];
    }
  }

  lemma NoneBefore(disk: seq<Block>, where: seq<nat>, n: nat, base: nat, counts: seq<nat>)
    ensures ClearBefore(disk, where, n, base, 0) == {} && Sum(counts[..0]) == 0
  {}

  lemma GroupCount(disk: seq<Block>, where: seq<nat>, n: nat, counts: seq<nat>, g: nat)
    requires BitsCounted(disk, where, n, counts) && g < |where|
    ensures |counts| == |where| && where[g] < |disk| && counts[g] == CountFree(MapBits(disk[where[g]], n))
  {}

  lemma OneGroupMore(disk: seq<Block>, where: seq<nat>, n: nat, base: nat, g: nat)
    requires n > 0 && g < |where| && where[g] < |disk|
    ensures var more := ClearFrom(MapBits(disk[where[g]], n), base + Start(g, n));
            ClearBefore(disk, where, n, base, g + 1) == ClearBefore(disk, where, n, base, g) + more &&
            ClearBefore(disk, where, n, base, g) !! more
  {
    var bits, at := MapBits(disk[where[g]], n), base + Start(g, n);
    assert Start(g + 1, n) == Start(g, n) + n;
    forall i: nat | i >= at ensures i < base + Start(g + 1, n) && !SpreadBit(disk, where, n, base, i) <==> IsClear(bits, at, i) {
      if i < at + n { QuotOfStart(g, i - at, n); }
    }
    hide SpreadBit, MapBits, Start;
    forall i: nat ensures i in ClearBefore(disk, where, n, base, g + 1) <==>
        i in ClearBefore(disk, where, n, base, g) || i in ClearFrom(bits, at) {
      if i < at { assert !IsClear(bits, at, i); }
    }
  }

  /** The superblock's counter is the number of blocks the allocator may hand out. */
  lemma FreeCounted(geo: Geometry, disk: seq<Block>, c: Counters)
    requires Consistent(geo, disk, c)
    ensures c.blocks == |FreeSet(ViewOf(geo, disk))|
  {
    GroupsCounted(disk, geo.blockBitmap, geo.blocksPerGroup, c.groupBlocks, geo.firstData, geo.groups);
    assert c.groupBlocks[..geo.groups] == c.groupBlocks;
    assert FreeSet(ViewOf(geo, disk)) == ClearBefore(disk, geo.blockBitmap, geo.blocksPerGroup, geo.firstData, geo.groups);
  }

  /** Freeing the block just allocated leaves the volume as it was, and likewise for inodes. */
  lemma FreeUndoesAlloc(v: Vol)
    requires Shape(v)
    ensures LowestFree(v) != 0 ==> Release(Take(v, LowestFree(v)), {LowestFree(v)}) == v
    ensures var i := LowestFreeInode(v); i != 0 ==> i !in v.live && v.(live := v.live + {i} - {i}) == v
  {
    LowestFreeIsData(v);
    var b, i := LowestFree(v), LowestFreeInode(v);
    assert b !in v.used ==> v.used + {b} - {b} == v.used;
    assert i != 0 ==> v.live + {i} - {i} == v.live;
  }

  lemma CountersSized(geo: Geometry, disk: seq<Block>, c: Counters)
    requires Consistent(geo, disk, c)
    ensures DiskSized(geo, disk)
    ensures BitsCounted(disk, geo.blockBitmap, geo.blocksPerGroup, c.groupBlocks) && |c.groupBlocks| == |geo.blockBitmap|
    ensures BitsCounted(disk, geo.inodeBitmap, geo.inodesPerGroup, c.groupInodes) && |c.groupInodes| == |geo.inodeBitmap|
    ensures geo.blocksPerGroup <= 8 * geo.blockSize && geo.inodesPerGroup <= 8 * geo.blockSize
  {}

  /** Division and remainder lead a used data block to its own set bit. */
  lemma BlockFound(geo: Geometry, disk: seq<Block>, blk: nat)
    requires DiskSized(geo, disk) && geo.IsData(blk)
    ensures var g, b := geo.BlockGroup(blk), geo.BlockIndex(blk);
            g < geo.groups && b < geo.blocksPerGroup && g < |geo.blockBitmap| &&
            geo.firstData + Start(g, geo.blocksPerGroup) + b == blk &&
            (blk in ViewOf(geo, disk).used <==> GroupBit(disk, geo.blockBitmap, g, b))
  {
    DataInMap(geo, blk);
    MarkedBit(disk, geo.blockBitmap, geo.blocksPerGroup, geo.firstData, geo.mapLength, blk);
  }

  lemma InodeFound(geo: Geometry, disk: seq<Block>, ino: nat)
    requires DiskSized(geo, disk) && 1 <= ino <= geo.inodesCount
    ensures var g, i := geo.InodeGroup(ino - 1), geo.InodeIndex(ino - 1);
            g < geo.groups && i < geo.inodesPerGroup && g < |geo.inodeBitmap| &&
            Start(g, geo.inodesPerGroup) + i + 1 == ino &&
            (ino in ViewOf(geo, disk).live <==> GroupBit(disk, geo.inodeBitmap, g, i))
  {
    MarkedBit(disk, geo.inodeBitmap, geo.inodesPerGroup, 1, geo.inodesCount, ino);
  }
}
