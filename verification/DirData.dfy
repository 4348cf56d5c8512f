/** Directories as byte sequences over the block map: searching them, and editing one of their blocks. */
module DirData {
  import opened Bytes
  import opened InodeCodec
  import opened VolumeState
  import opened BlockMap
  import opened FileMap
  import opened FileData
  import opened DirRecords

  // ---------------------------------------------------------------- searches on the bytes

  lemma RecordBasics(d: seq<Byte>, p: nat, bs: nat)
    requires BlockSize(bs) && p < |d| && Tiled(d, p, bs)
    ensures p + HEADER <= |d| && RecLen(d, p) >= HEADER && p + RecLen(d, p) <= |d|
  {
    TiledWithin(d, p + RecLen(d, p), bs);
  }

  datatype Fit = Slot(p: nat) | AtEnd(p: nat) | Hole

  /** The first record, among those that start below size, with room for need more bytes. */
  function FirstFit(d: seq<Byte>, size: nat, need: nat, p: nat): Fit
    decreases size - p
  {
    if p >= size then AtEnd(p)
    else if p + HEADER > |d| then Hole
    else if RecLen(d, p) == 0 then AtEnd(p)
    else if Slack(d, p) >= need then Slot(p)
    else FirstFit(d, size, need, p + RecLen(d, p))
  }

  lemma {:induction false} FirstFitFinds(d: seq<Byte>, size: nat, need: nat, p: nat, bs: nat)
    requires BlockSize(bs) && Tiled(d, p, bs)
    ensures match FirstFit(d, size, need, p)
            case Slot(q) => Visits(d, p, q) && q < size && q + HEADER <= |d| && Slack(d, q) >= need
            case AtEnd(q) => Visits(d, p, q) && q >= size && (p <= size ==> q <= |d|)
            case Hole => |d| < size
    decreases size - p
  {
    hide Slack, LiveAt, Name, NameLen, Ino, InBlock, RecLen, RecordAt;
    TiledWithin(d, p, bs);
    if p < |d| {
      RecordBasics(d, p, bs);
      TiledStep(d, p, bs);
    }
    if p < size && p < |d| && Slack(d, p) < need {
      TiledWithin(d, p + RecLen(d, p), bs);
      FirstFitFinds(d, size, need, p + RecLen(d, p), bs);
    }
  }

  datatype Found = At(p: nat, prev: int) | Missing

  /** The first record called name, tombstones included, and the record before it (-1 for none). */
  function FindPos(d: seq<Byte>, size: nat, name: seq<Byte>, p: nat, prev: int): Found
    decreases size - p
  {
    if p >= size || p + HEADER > |d| || RecLen(d, p) == 0 then Missing
    else if Name(d, p) == name then At(p, prev)
    else FindPos(d, size, name, p + RecLen(d, p), p)
  }

  ghost predicate Unnamed(l: seq<Rec>, name: seq<Byte>) {
    forall i :: 0 <= i < |l| ==> l[i].name != name
  }

  /** Record q is directly followed by record p. */
  predicate Precedes(d: seq<Byte>, q: int, p: nat) {
    0 <= q < p && q + HEADER <= |d| && q + RecLen(d, q) == p
  }

  lemma {:induction false} FindPosFinds(d: seq<Byte>, size: nat, name: seq<Byte>, p: nat, prev: int, bs: nat)
    requires BlockSize(bs) && Tiled(d, p, bs)
    ensures match FindPos(d, size, name, p, prev)
            case At(q, r) =>
              Visits(d, p, q) && q < size && q + HEADER <= |d| && Name(d, q) == name && Unnamed(Before(d, p, q), name)
              && (if q == p then r == prev else Precedes(d, r, q) && r >= p && Visits(d, p, r))
            case Missing => size == |d| ==> Unnamed(Listing(d, p), name)
    decreases size - p
  {
    hide LiveAt, NameLen, Ino, InBlock, Slack, Name, RecLen, RecordAt;
    TiledWithin(d, p, bs);
    if p < |d| {
      RecordBasics(d, p, bs);
      TiledStep(d, p, bs);
    }
    if p < size && p < |d| && Name(d, p) != name {
      var n := p + RecLen(d, p);
      TiledWithin(d, n, bs);
      FindPosFinds(d, size, name, n, p, bs);
      match FindPos(d, size, name, n, p)
      case At(q, r) =>
        OneUnnamed(d, p, name);
        assert Before(d, p, q) == LiveAt(d, p) + Before(d, n, q);
      case Missing =>
        OneUnnamed(d, p, name);
    }
  }

  lemma OneUnnamed(d: seq<Byte>, p: nat, name: seq<Byte>)
    requires p + HEADER <= |d| && Name(d, p) != name
    ensures Unnamed(LiveAt(d, p), name)
  {}

  /** First live record called name. */
  function FindName(l: seq<Rec>, name: seq<Byte>): (k: nat)
    ensures k <= |l| && Unnamed(l[..k], name) && (k < |l| ==> l[k].name == name)
  {
    if l == [] || l[0].name == name then 0
    else
      var k := 1 + FindName(l[1..], name);
      assert l[..k] == [l[0]] + l[1..][..k - 1];
      k
  }

  lemma FirstNameIsUnique(l: seq<Rec>, name: seq<Byte>, k: nat)
    requires k <= |l| && Unnamed(l[..k], name) && (k < |l| ==> l[k].name == name)
    ensures FindName(l, name) == k
  {
  }

  // ---------------------------------------------------------------- blocks of a tiled byte sequence

  /** A record in block base of d, seen from the start of the block. */
  lemma ShiftRecord(d: seq<Byte>, base: nat, p: nat, bs: nat)
    requires BlockSize(bs) && base + bs <= |d| && p + HEADER <= bs
    ensures var c := d[base..base + bs];
            RecLen(c, p) == RecLen(d, base + p) && NameLen(c, p) == NameLen(d, base + p) && Ino(c, p) == Ino(d, base + p)
  {
    var c := d[base..base + bs];
    assert forall i {:trigger c[i]} :: 0 <= i < bs ==> c[i] == d[base + i];
  }

  lemma InBlockShift(base: nat, p: nat, bs: nat)
    requires BlockSize(bs) && base % bs == 0
    ensures InBlock(base + p, bs) == InBlock(p, bs)
    ensures p < bs ==> InBlock(p, bs) == p
  {
    if bs == 1024 {
      assert base % 1024 == 0 && (base + p) % 1024 == p % 1024;
    } else {
      assert base % 2048 == 0 && (base + p) % 2048 == p % 2048;
    }
  }

  /** A tiled sequence is tiled block by block. */
  lemma {:induction false} TiledExtract(d: seq<Byte>, base: nat, p: nat, bs: nat)
    requires BlockSize(bs) && base % bs == 0 && base + bs <= |d| && p <= bs && Tiled(d, base + p, bs)
    ensures Tiled(d[base..base + bs], p, bs)
    decreases bs - p
  {
    if p < bs {
      hide InBlock, RecLen, NameLen, Ino, Name, LiveAt;
      InBlockShift(base, p, bs);
      ShiftRecord(d, base, p, bs);
      TiledExtract(d, base, p + RecLen(d, base + p), bs);
    }
  }

  lemma {:induction false} TiledEmbed(d: seq<Byte>, base: nat, p: nat, bs: nat)
    requires BlockSize(bs) && base % bs == 0 && base + bs <= |d| && p <= bs
    requires Tiled(d[base..base + bs], p, bs) && Tiled(d, base + bs, bs)
    ensures Tiled(d, base + p, bs)
    decreases bs - p
  {
    if p < bs {
      hide InBlock, RecLen, NameLen, Ino, Name, LiveAt;
      InBlockShift(base, p, bs);
      ShiftRecord(d, base, p, bs);
      TiledEmbed(d, base, p + RecLen(d, base + p), bs);
    }
  }

  ghost predicate Aligned(b: nat, bs: nat)
    requires bs > 0
  {
    b % bs == 0
  }

  lemma AlignedNext(b: nat, n: nat, bs: nat)
    requires BlockSize(bs) && Aligned(b, bs) && Aligned(n, bs) && b < n
    ensures b + bs <= n && Aligned(b + bs, bs)
  {}

  /** Blocks that are tiled one by one make a tiled directory. */
  lemma {:induction false} TiledJoin(d: seq<Byte>, base: nat, bs: nat)
    requires BlockSize(bs) && Aligned(base, bs) && Aligned(|d|, bs) && base <= |d|
    requires forall b: nat :: Aligned(b, bs) && b + bs <= |d| ==> Tiled(d[b..b + bs], 0, bs)
    ensures Tiled(d, base, bs)
    decreases |d| - base
  {
    hide Aligned, RecordAt, RecLen;
    if base < |d| {
      AlignedNext(base, |d|, bs);
      TiledJoin(d, base + bs, bs);
      TiledEmbedAligned(d, base, bs);
    }
  }

  lemma TiledEmbedAligned(d: seq<Byte>, base: nat, bs: nat)
    requires BlockSize(bs) && Aligned(base, bs) && base + bs <= |d|
    requires Tiled(d[base..base + bs], 0, bs) && Tiled(d, base + bs, bs)
    ensures Tiled(d, base, bs)
  {
    TiledEmbed(d, base, 0, bs);
  }

  /** Every block boundary is the start of a record. */
  lemma {:induction false} BoundaryVisited(d: seq<Byte>, p: nat, base: nat, bs: nat)
    requires BlockSize(bs) && Tiled(d, p, bs) && p <= base <= |d| && base % bs == 0
    ensures Visits(d, p, base)
    decreases |d| - p
  {
    if p < base {
      NoCrossing(p, RecLen(d, p), base, bs);
      BoundaryVisited(d, p + RecLen(d, p), base, bs);
    }
  }

  lemma NoCrossing(p: nat, len: nat, base: nat, bs: nat)
    requires BlockSize(bs) && InBlock(p, bs) + len <= bs && p < base && base % bs == 0
    ensures p + len <= base
  {}

  // ---------------------------------------------------------------- the directory an inode stands for

  /** x rounded up to whole blocks. */
  function RoundUp(x: nat, bs: nat): nat
    requires BlockSize(bs)
  {
    if bs == 1024 then (x + 1023) / 1024 * 1024 else (x + 2047) / 2048 * 2048
  }

  lemma RoundUpAligned(x: nat, bs: nat)
    requires BlockSize(bs)
    ensures Aligned(RoundUp(x, bs), bs) && x <= RoundUp(x, bs) < x + bs
    ensures Aligned(x, bs) ==> RoundUp(x, bs) == x
  {}

  /** Where the mapped blocks of a directory end, looking no further than its size. */
  function DirEnd(v: Vol, n: Inode): nat
    requires v.geo.Sizes()
  {
    ReadEnd(v, n, 0, RoundUp(n.size, v.geo.blockSize))
  }

  /** All bytes of the blocks below the size, up to the first hole. */
  function DirBytes(v: Vol, n: Inode): (r: seq<Byte>)
    requires v.geo.Sizes()
    ensures |r| == DirEnd(v, n)
  {
    BytesOf(v, n, 0, DirEnd(v, n))
  }

  /** What the readers of a directory get: its bytes up to its size. */
  function Visible(v: Vol, n: Inode): seq<Byte>
    requires v.geo.Sizes()
  {
    var d := DirBytes(v, n);
    if n.size < |d| then d[..n.size] else d
  }

  /** The live records a reader sees, in order. */
  function Entries(v: Vol, n: Inode): seq<Rec>
    requires v.geo.Sizes()
  {
    Listing(Visible(v, n), 0)
  }

  /** Every mapped block of the inode is tiled by records. */
  ghost predicate BlocksTiled(v: Vol, n: Inode)
    requires v.geo.Sizes()
  {
    forall l: nat :: Lookup(v, n, l) != 0 ==> Tiled(Content(v, Lookup(v, n, l)), 0, v.geo.blockSize)
  }

  lemma {:induction false} ReadEndAligned(v: Vol, n: Inode, lo: nat, hi: nat)
    requires v.geo.Sizes() && lo <= hi && Aligned(lo, v.geo.blockSize) && Aligned(hi, v.geo.blockSize)
    ensures Aligned(ReadEnd(v, n, lo, hi), v.geo.blockSize)
    decreases hi - lo
  {
    hide NextStart, MappedAt, Aligned;
    SameUntilNext(lo, lo, v.geo.blockSize);
    NextAligned(lo, v.geo.blockSize);
    if lo < hi && MappedAt(v, n, lo) && NextStart(lo, v.geo.blockSize) < hi {
      ReadEndAligned(v, n, NextStart(lo, v.geo.blockSize), hi);
    }
  }

  lemma NextAligned(x: nat, bs: nat)
    requires BlockSize(bs)
    ensures Aligned(NextStart(x, bs), bs)
  {}

  // ---------------------------------------------------------------- bytes and blocks

  lemma LookupData(v: Vol, ino: nat, n: Inode, l: nat)
    requires Editing(v, ino, n) && Lookup(v, n, l) != 0
    ensures v.geo.IsData(Lookup(v, n, l)) && |Content(v, Lookup(v, n, l))| == v.geo.blockSize
    ensures Lookup(v, n, l) < |v.data| && Lookup(v, n, l) in v.used
  {
    var u, at := PutInode(v, ino, n), PlaceOf(PerTable(v), l);
    PtrOfData(v, u, n, at);
    assert P(u, ino, at) == Lookup(v, n, l);
  }

  /** Start of the block byte p lies in. */
  function Base(p: nat, bs: nat): nat
    requires bs > 0
  {
    p / bs * bs
  }

  lemma BaseFacts(p: nat, bs: nat)
    requires BlockSize(bs)
    ensures Aligned(Base(p, bs), bs) && Base(p, bs) <= p < Base(p, bs) + bs && Base(p, bs) / bs == p / bs
    ensures p - Base(p, bs) == p % bs
  {}

  lemma SameBaseBlock(x: nat, base: nat, bs: nat)
    requires BlockSize(bs) && Aligned(base, bs) && base <= x < base + bs
    ensures x / bs == base / bs && x % bs == x - base
  {}

  /** Every byte of the directory is mapped. */
  lemma DirMapped(v: Vol, n: Inode, x: nat)
    requires v.geo.Sizes() && x < |DirBytes(v, n)|
    ensures Lookup(v, n, x / v.geo.blockSize) != 0 && DirBytes(v, n)[x] == ByteAt(v, n, x)
  {
    hide Lookup, ReadEnd, ByteAt;
    RoundUpAligned(n.size, v.geo.blockSize);
    ReadEndIsFirstHole(v, n, 0, RoundUp(n.size, v.geo.blockSize));
    assert MappedAt(v, n, x);
  }

  /** An aligned stretch of a directory is one of its blocks. */
  lemma DirBlock(v: Vol, ino: nat, n: Inode, base: nat)
    requires Editing(v, ino, n) && Aligned(base, v.geo.blockSize) && base < |DirBytes(v, n)|
    ensures var d, bs := DirBytes(v, n), v.geo.blockSize;
            base + bs <= |d| && Lookup(v, n, base / bs) != 0 && d[base..base + bs] == Content(v, Lookup(v, n, base / bs))
  {
    var d, bs := DirBytes(v, n), v.geo.blockSize;
    RoundUpAligned(n.size, bs);
    assert Aligned(0, bs);
    ReadEndAligned(v, n, 0, RoundUp(n.size, bs));
    AlignedNext(base, |d|, bs);
    DirMapped(v, n, base);
    LookupData(v, ino, n, base / bs);
    hide Lookup, DirBytes, Editing, Aligned;
    var c := Content(v, Lookup(v, n, base / bs));
    forall i | 0 <= i < bs ensures d[base..base + bs][i] == c[i] {
      DirMapped(v, n, base + i);
      SameBaseBlock(base + i, base, bs);
    }
  }

  lemma DirTiled(v: Vol, ino: nat, n: Inode)
    requires Editing(v, ino, n) && BlocksTiled(v, n)
    ensures Tiled(DirBytes(v, n), 0, v.geo.blockSize) && Aligned(|DirBytes(v, n)|, v.geo.blockSize)
  {
    var d, bs := DirBytes(v, n), v.geo.blockSize;
    RoundUpAligned(n.size, bs);
    assert Aligned(0, bs);
    ReadEndAligned(v, n, 0, RoundUp(n.size, bs));
    forall b: nat | Aligned(b, bs) && b + bs <= |d| ensures Tiled(d[b..b + bs], 0, bs) {
      DirBlock(v, ino, n, b);
    }
    hide Aligned;
    TiledJoin(d, 0, bs);
  }

  /** The block of e that byte p lies in, written to where the directory keeps that block. */
  function WriteDirBlock(v: Vol, n: Inode, e: seq<Byte>, p: nat): Vol
    requires v.geo.Sizes() && Base(p, v.geo.blockSize) + v.geo.blockSize <= |e|
    requires Lookup(v, n, p / v.geo.blockSize) < |v.data|
  {
    var base := Base(p, v.geo.blockSize);
    PutBlock(v, Lookup(v, n, p / v.geo.blockSize), e[base..base + v.geo.blockSize])
  }

  /** e is the directory with only the block around p changed. */
  ghost predicate OneBlockEdit(d: seq<Byte>, e: seq<Byte>, p: nat, bs: nat)
    requires bs > 0
  {
    |e| == |d| && p < |d| && forall i :: 0 <= i < |d| && !(Base(p, bs) <= i < Base(p, bs) + bs) ==> e[i] == d[i]
  }

  /** New contents for one mapped block: the mapping and everybody else's data stay. */
  lemma DirStored(v: Vol, ino: nat, n: Inode, l: nat, c: Block)
    requires Editing(v, ino, n) && Lookup(v, n, l) != 0 && |c| == v.geo.blockSize
    ensures Lookup(v, n, l) < |v.data|
    ensures var w := PutBlock(v, Lookup(v, n, l), c);
            Editing(w, ino, n) && Untouched(PutInode(v, ino, n), PutInode(w, ino, n), ino)
            && (forall k: nat :: Lookup(w, n, k) == Lookup(v, n, k))
            && (forall x: nat :: MappedAt(w, n, x) == MappedAt(v, n, x))
            && (forall k: nat :: Lookup(v, n, k) != 0 ==>
                 Content(w, Lookup(v, n, k)) == if k == l then c else Content(v, Lookup(v, n, k)))
  {
    LookupData(v, ino, n, l);
    DataPlace(PerTable(v), l);
    var w := PutBlock(v, Lookup(v, n, l), c);
    StoreOwned(v, ino, n, PlaceOf(PerTable(v), l), Lookup(v, n, l), c);
    forall k: nat ensures Lookup(w, n, k) == Lookup(v, n, k) {}
    forall k: nat | Lookup(v, n, k) != 0
      ensures Content(w, Lookup(v, n, k)) == if k == l then c else Content(v, Lookup(v, n, k))
    {
      if k != l {
        PlacesDistinct(PerTable(v), k, l);
        DataPlace(PerTable(v), k);
      }
    }
  }

  lemma {:induction false} SameEnd(v: Vol, w: Vol, n: Inode, lo: nat, hi: nat)
    requires v.geo.Sizes() && w.geo == v.geo && lo <= hi && forall x: nat :: MappedAt(w, n, x) == MappedAt(v, n, x)
    ensures ReadEnd(w, n, lo, hi) == ReadEnd(v, n, lo, hi)
    decreases hi - lo
  {
    hide NextStart, MappedAt;
    SameUntilNext(lo, lo, v.geo.blockSize);
    if lo < hi && MappedAt(v, n, lo) && NextStart(lo, v.geo.blockSize) < hi {
      SameEnd(v, w, n, NextStart(lo, v.geo.blockSize), hi);
    }
  }

  lemma ByteInBlock(x: nat, p: nat, bs: nat)
    requires BlockSize(bs)
    ensures x / bs == p / bs <==> Base(p, bs) <= x < Base(p, bs) + bs
    ensures x / bs == p / bs ==> x % bs == x - Base(p, bs)
  {}

  lemma DirByteAfter(v: Vol, ino: nat, n: Inode, e: seq<Byte>, p: nat, x: nat)
    requires Editing(v, ino, n) && OneBlockEdit(DirBytes(v, n), e, p, v.geo.blockSize) && x < |e|
    requires Base(p, v.geo.blockSize) + v.geo.blockSize <= |e| && Lookup(v, n, p / v.geo.blockSize) != 0
    ensures Lookup(v, n, p / v.geo.blockSize) < |v.data|
    ensures ByteAt(WriteDirBlock(v, n, e, p), n, x) == e[x]
  {
    hide Owned, Ptr, PlaceOf, Untouched, Lookup, Base, DirBytes, Editing, MappedAt;
    SizesBlock(v, ino, n);
    var bs, l := v.geo.blockSize, p / v.geo.blockSize;
    var base, k, q := Base(p, bs), x / bs, x % bs;
    var c := e[base..base + bs];
    DirStored(v, ino, n, l, c);
    DirMapped(v, n, x);
    ByteInBlock(x, p, bs);
    var w := WriteDirBlock(v, n, e, p);
    assert Content(w, Lookup(w, n, k)) == if k == l then c else Content(v, Lookup(v, n, k));
    assert k == l ==> c[q] == e[x];
    assert k != l ==> e[x] == DirBytes(v, n)[x];
  }

  /** Writing one block of a directory makes it read as the edited bytes and disturbs nothing else. */
  lemma DirWritten(v: Vol, ino: nat, n: Inode, e: seq<Byte>, p: nat)
    requires Editing(v, ino, n) && BlocksTiled(v, n)
    requires OneBlockEdit(DirBytes(v, n), e, p, v.geo.blockSize) && Tiled(e, 0, v.geo.blockSize)
    ensures var bs := v.geo.blockSize;
            Base(p, bs) + bs <= |e| && Lookup(v, n, p / bs) < |v.data| &&
            var w := WriteDirBlock(v, n, e, p);
            Editing(w, ino, n) && Untouched(PutInode(v, ino, n), PutInode(w, ino, n), ino)
            && DirBytes(w, n) == e && BlocksTiled(w, n)
            && (forall l: nat :: Lookup(w, n, l) == Lookup(v, n, l))
  {
    hide Owned, Ptr, PlaceOf, Untouched, Lookup, ReadEnd, Tiled, ByteAt, Aligned, Base, MappedAt, Editing;
    SizesBlock(v, ino, n);
    var bs := v.geo.blockSize;
    var base, l := Base(p, bs), p / bs;
    BaseFacts(p, bs);
    DirBlock(v, ino, n, base);
    var c, w := e[base..base + bs], WriteDirBlock(v, n, e, p);
    DirStored(v, ino, n, l, c);
    SameEnd(v, w, n, 0, RoundUp(n.size, bs));
    forall x: nat | x < |e| ensures DirBytes(w, n)[x] == e[x] {
      DirByteAfter(v, ino, n, e, p, x);
    }
    assert DirBytes(w, n) == e;
    BlockOfTiled(e, p, bs);
  }

  /** The block a byte of a tiled sequence lies in is tiled by itself. */
  lemma BlockOfTiled(e: seq<Byte>, p: nat, bs: nat)
    requires BlockSize(bs) && Tiled(e, 0, bs) && Base(p, bs) + bs <= |e|
    ensures Tiled(e[Base(p, bs)..Base(p, bs) + bs], 0, bs)
  {
    hide Tiled, Base;
    BaseMod(p, bs);
    BoundaryVisited(e, 0, Base(p, bs), bs);
    TiledFrom(e, 0, Base(p, bs), bs);
    TiledExtract(e, Base(p, bs), 0, bs);
  }

  lemma SizesBlock(v: Vol, ino: nat, n: Inode)
    requires Editing(v, ino, n)
    ensures BlockSize(v.geo.blockSize) && v.geo.Sizes()
  {}

  lemma BaseMod(p: nat, bs: nat)
    requires BlockSize(bs)
    ensures Base(p, bs) % bs == 0
  {}
}
