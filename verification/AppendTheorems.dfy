/** What a directory lists after an entry was appended in a block of its own, whatever its size and block count say. */
module AppendTheorems {
  import opened Bytes
  import opened InodeCodec
  import opened VolumeState
  import opened BlockMap
  import opened FileData
  import opened FileTheorems
  import opened DirRecords
  import opened DirData
  import opened DirOps
  import opened DirRemoval
  import opened DirTheorems

  // ---------------------------------------------------------------- bytes laid end to end

  /** Records read the same wherever the bytes they are in begin. */
  lemma ShiftedRecord(x: seq<Byte>, y: seq<Byte>, q: nat)
    requires q + HEADER <= |y|
    ensures RecLen(x + y, |x| + q) == RecLen(y, q) && NameLen(x + y, |x| + q) == NameLen(y, q)
    ensures LiveAt(x + y, |x| + q) == LiveAt(y, q)
  {
    hide Ino, RecLen, NameLen, Name;
    ShiftedHead(x, y, q);
    ShiftedName(x, y, q);
  }

  lemma ShiftedName(x: seq<Byte>, y: seq<Byte>, q: nat)
    requires q + HEADER <= |y|
    ensures Name(x + y, |x| + q) == Name(y, q)
  {
    hide NameLen;
    ShiftedHead(x, y, q);
    var e, p, k := x + y, |x| + q + HEADER, q + HEADER + NameLen(y, q);
    if k <= |y| {
      ShiftedSlice(x, y, q + HEADER, k);
      assert Name(y, q) == y[q + HEADER..k] && Name(e, |x| + q) == e[p..|x| + k];
    } else {
      ShiftedSlice(x, y, q + HEADER, |y|);
      assert e[p..] == e[p..|x| + |y|] && y[q + HEADER..] == y[q + HEADER..|y|];
    }
  }

  lemma ShiftedHead(x: seq<Byte>, y: seq<Byte>, q: nat)
    requires q + HEADER <= |y|
    ensures Ino(x + y, |x| + q) == Ino(y, q) && RecLen(x + y, |x| + q) == RecLen(y, q)
    ensures NameLen(x + y, |x| + q) == NameLen(y, q) && (x + y)[|x| + q + 7] == y[q + 7]
  {
    assert forall i {:trigger y[i]} :: 0 <= i < |y| ==> (x + y)[|x| + i] == y[i];
  }

  lemma ShiftedSlice(x: seq<Byte>, y: seq<Byte>, q: nat, r: nat)
    requires q <= r <= |y|
    ensures (x + y)[|x| + q..|x| + r] == y[q..r]
  {}

  lemma {:induction false} ListingShifted(x: seq<Byte>, y: seq<Byte>, q: nat)
    ensures Listing(x + y, |x| + q) == Listing(y, q)
    decreases |y| - q
  {
    hide LiveAt, RecLen;
    if q + HEADER <= |y| {
      ShiftedRecord(x, y, q);
      if RecLen(y, q) != 0 {
        ListingShifted(x, y, q + RecLen(y, q));
      }
    }
  }

  /** Tiled bytes followed by others list their own records first. */
  lemma {:induction false} ListingJoined(x: seq<Byte>, y: seq<Byte>, p: nat, bs: nat)
    requires BlockSize(bs) && Tiled(x, p, bs)
    ensures Listing(x + y, p) == Listing(x, p) + Listing(y, 0)
    decreases |x| - p
  {
    hide LiveAt, RecLen, RecordAt;
    if p == |x| {
      ListingShifted(x, y, 0);
      NothingAfter(x);
    } else {
      RecordBasics(x, p, bs);
      TiledStep(x, p, bs);
      JoinedRecord(x, y, p, bs);
      ListingJoined(x, y, p + RecLen(x, p), bs);
      Regroup(LiveAt(x, p), Listing(x, p + RecLen(x, p)), Listing(y, 0));
    }
  }

  lemma JoinedRecord(x: seq<Byte>, y: seq<Byte>, p: nat, bs: nat)
    requires BlockSize(bs) && p + HEADER <= |x| && RecordAt(x, p, bs) && p + RecLen(x, p) <= |x|
    ensures RecLen(x + y, p) == RecLen(x, p) > 0 && LiveAt(x + y, p) == LiveAt(x, p)
  {
    assert (x + y)[..|x|] == x;
    WidenRecord(x, x + y, p);
    hide LiveAt, RecLen, NameLen;
    PrefixRecord(x + y, p, |x|);
  }

  // ---------------------------------------------------------------- the bytes after an append

  /** The directory's inode with the size raised by a block: what its map shows one block further. */
  function Taller(v: Vol, n: Inode): Inode
    requires v.geo.Sizes()
  {
    n.(size := (|DirBytes(v, n)| + v.geo.blockSize) % 0x1_0000_0000)
  }

  /** Where the block count of the inode puts the next block. */
  function HangOffset(v: Vol, n: Inode): nat
    requires v.geo.Sizes()
  {
    BlockCount(v, n) * v.geo.blockSize
  }

  /** The next block goes where readers can reach it: its index is stored, and it leaves no hole before it. */
  predicate Hangs(v: Vol, n: Inode)
    requires v.geo.Sizes()
  {
    BlockCount(v, n) < DIRECT + PerTable(v) && HangOffset(v, n) <= |DirBytes(v, n)|
  }

  /** Bytes t with the block at offset at replaced by c, or c put behind them. */
  function Replaced(t: seq<Byte>, at: nat, c: seq<Byte>): seq<Byte>
    requires at <= |t|
  {
    t[..at] + c + Beyond(t, at + |c|)
  }

  function Beyond(t: seq<Byte>, p: nat): seq<Byte> {
    if p <= |t| then t[p..] else []
  }

  /** Blocks end where the first 12 + k + k*k of them end, far below 2^32. */
  lemma MappedIsNear(v: Vol, ino: nat, n: Inode, l: nat)
    requires Editing(v, ino, n) && Lookup(v, n, l) != 0
    ensures l < DIRECT + PerTable(v) + PerTable(v) * PerTable(v)
  {
    var u, ppb := PutInode(v, ino, n), PerTable(v);
    var at := PlaceOf(ppb, l);
    PtrOfData(v, u, n, Double);
    assert P(u, ino, Double) == n.block[13];
    assert at.Leaf? ==> at.i < ppb;
    if ppb == 256 { assert at.Leaf? ==> l - DIRECT - 256 < 256 * 256; } else { assert at.Leaf? ==> l - DIRECT - 512 < 512 * 512; }
  }

  lemma DirIsShort(v: Vol, ino: nat, n: Inode)
    requires Editing(v, ino, n) && v.geo.Sizes()
    ensures |DirBytes(v, n)| + v.geo.blockSize < 0x1_0000_0000
  {
    hide Editing, DirBytes, Lookup, MappedAt, Owned, ReadEnd;
    var x := |DirBytes(v, n)| - 1;
    if x >= 0 {
      DirMapped(v, n, x);
      MappedIsNear(v, ino, n, x / v.geo.blockSize);
    }
    NearIsShort(v.geo, x);
  }

  lemma NearIsShort(geo: Geometry, x: int)
    requires geo.Sizes()
    requires x >= 0 ==> x / geo.blockSize < DIRECT + geo.blockSize / 4 + geo.blockSize / 4 * (geo.blockSize / 4)
    ensures x + 1 + geo.blockSize < 0x1_0000_0000
  {
    if geo.blockSize == 1024 { assert x >= 0 ==> x / 1024 < 65804; } else { assert x >= 0 ==> x / 2048 < 262668; }
  }

  /** A stretch of mapped blocks ends at L, or one block later if the block at L is mapped as well. */
  lemma EndOneMore(v: Vol, n: Inode, end: nat)
    requires v.geo.Sizes() && Aligned(end, v.geo.blockSize) && forall x: nat :: x < end ==> MappedAt(v, n, x)
    ensures ReadEnd(v, n, 0, end + v.geo.blockSize) == if MappedAt(v, n, end) then end + v.geo.blockSize else end
  {
    hide MappedAt, ReadEnd, Aligned;
    var bs := v.geo.blockSize;
    AlignedEnd(end, bs);
    assert Aligned(0, bs) by { ZeroAligned(bs); }
    ReadEndIsFirstHole(v, n, 0, end + bs);
    ReadEndAligned(v, n, 0, end + bs);
    var r := ReadEnd(v, n, 0, end + bs);
    if end < r { AlignedNext(end, r, bs); }
  }

  lemma ZeroAligned(bs: nat)
    requires BlockSize(bs)
    ensures Aligned(0, bs)
  {}

  /** The block of byte x is block k exactly when x lies in its bytes. */
  lemma InBlockK(x: nat, k: nat, bs: nat)
    requires BlockSize(bs)
    ensures x / bs == k <==> k * bs <= x < k * bs + bs
    ensures x / bs == k ==> x % bs == x - k * bs
    ensures Aligned(k * bs, bs)
  {
    if bs == 1024 { assert k * bs == 1024 * k; } else { assert k * bs == 2048 * k; }
  }

  /** A size one block past the mapped ones shows them, and the block behind them if there is one. */
  lemma ShowsAll(v: Vol, n: Inode, end: nat)
    requires v.geo.Sizes() && Aligned(end, v.geo.blockSize) && n.size == end + v.geo.blockSize
    requires forall x: nat :: x < end ==> MappedAt(v, n, x)
    ensures |DirBytes(v, n)| == if MappedAt(v, n, end) then n.size else end
    ensures Visible(v, n) == DirBytes(v, n)
  {
    hide MappedAt, ReadEnd, Aligned, RoundUp;
    AlignedEnd(end, v.geo.blockSize);
    RoundUpAligned(n.size, v.geo.blockSize);
    EndOneMore(v, n, end);
  }

  /** The bytes of a directory are whole mapped blocks. */
  lemma DirWhole(v: Vol, ino: nat, n: Inode)
    requires Editing(v, ino, n) && v.geo.Sizes()
    ensures Aligned(|DirBytes(v, n)|, v.geo.blockSize) && |DirBytes(v, n)| + v.geo.blockSize < 0x1_0000_0000
    ensures forall x: nat :: x < |DirBytes(v, n)| ==> MappedAt(v, n, x)
  {
    hide MappedAt, ReadEnd, Aligned, RoundUp, Editing;
    var bs := v.geo.blockSize;
    DirIsShort(v, ino, n);
    RoundUpAligned(n.size, bs);
    ZeroAligned(bs);
    ReadEndAligned(v, n, 0, RoundUp(n.size, bs));
    ReadEndIsFirstHole(v, n, 0, RoundUp(n.size, bs));
  }

  /** One block further, the old map shows what it showed, and the block behind that if there is one. */
  lemma TallerShows(v: Vol, ino: nat, n: Inode)
    requires Editing(v, ino, n) && v.geo.Sizes()
    ensures var d, t, bs := DirBytes(v, n), DirBytes(v, Taller(v, n)), v.geo.blockSize;
            |t| == (if MappedAt(v, n, |d|) then |d| + bs else |d|) && t[..|d|] == d &&
            forall x: nat :: x < |t| ==> MappedAt(v, n, x) && t[x] == ByteAt(v, n, x)
  {
    hide ReadEnd, Aligned, RoundUp, Editing, DirBytes;
    DirWhole(v, ino, n);
    var d, m := DirBytes(v, n), Taller(v, n);
    forall x: nat ensures MappedAt(v, m, x) == MappedAt(v, n, x) && ByteAt(v, m, x) == ByteAt(v, n, x) {}
    hide MappedAt, ByteAt, Lookup, PlaceOf;
    ShowsAll(v, m, |d|);
    forall x: nat | x < |DirBytes(v, m)| ensures MappedAt(v, n, x) && DirBytes(v, m)[x] == ByteAt(v, n, x) {
      DirShows(v, m, x);
    }
    forall x: nat | x < |d| ensures d[x] == DirBytes(v, m)[x] { DirShows(v, n, x); }
  }

  lemma DirShows(v: Vol, n: Inode, x: nat)
    requires v.geo.Sizes() && x < |DirBytes(v, n)|
    ensures MappedAt(v, n, x) && DirBytes(v, n)[x] == ByteAt(v, n, x)
  {
    hide DirBytes, ByteAt, Lookup;
    DirMapped(v, n, x);
  }

  /** What the map of w shows at x, for block b hung into the map of n at index k. */
  lemma HungByte(v: Vol, n: Inode, w: Vol, m: Inode, k: nat, b: nat, c: Block, x: nat)
    requires v.geo.Sizes() && w.geo == v.geo && Extended(v, n, w, m, k, b, c) && b != 0 && |c| == v.geo.blockSize
    ensures var here := k < DIRECT + PerTable(v) && k * v.geo.blockSize <= x < k * v.geo.blockSize + v.geo.blockSize;
            (MappedAt(w, m, x) <==> here || MappedAt(v, n, x)) &&
            (here ==> ByteAt(w, m, x) == c[x - k * v.geo.blockSize]) &&
            (!here && MappedAt(v, n, x) ==> ByteAt(w, m, x) == ByteAt(v, n, x))
  {
    hide Lookup;
    InBlockK(x, k, v.geo.blockSize);
  }

  /** The bytes of the directory after an append, for every block count and every block that is mapped past its end. */
  lemma AppendReads(v: Vol, ino: nat, n: Inode, w: Vol, m: Inode, b: nat, c: Block)
    requires Editing(v, ino, n) && v.geo.Sizes() && w.geo == v.geo && b != 0 && |c| == v.geo.blockSize
    requires Extended(v, n, w, m, BlockCount(v, n), b, c) && m.size == |DirBytes(v, n)| + v.geo.blockSize
    ensures Visible(w, m) == DirBytes(w, m)
    ensures var t := DirBytes(v, Taller(v, n));
            |DirBytes(v, n)| <= |t| &&
            DirBytes(w, m) == if Hangs(v, n) then Replaced(t, HangOffset(v, n), c) else t
  {
    hide ReadEnd, Aligned, RoundUp, Editing, DirBytes, Visible, MappedAt, ByteAt, Extended, BlockCount, Taller;
    TallerShows(v, ino, n);
    DirWhole(v, ino, n);
    var d, t, k, bs := DirBytes(v, n), DirBytes(v, Taller(v, n)), BlockCount(v, n), v.geo.blockSize;
    InBlockK(0, k, bs);
    forall x: nat | x < |d| ensures MappedAt(w, m, x) { HungByte(v, n, w, m, k, b, c, x); }
    ShowsAll(w, m, |d|);
    HungByte(v, n, w, m, k, b, c, |d|);
    AlignedApart(k * bs, |d|, bs);
    var e := if Hangs(v, n) then Replaced(t, HangOffset(v, n), c) else t;
    assert |DirBytes(w, m)| == |e|;
    forall x: nat | x < |e| ensures DirBytes(w, m)[x] == e[x] {
      HungByte(v, n, w, m, k, b, c, x);
      DirShows(w, m, x);
    }
    SameIndexed(DirBytes(w, m), e);
  }

  lemma AlignedApart(x: nat, y: nat, bs: nat)
    requires BlockSize(bs) && Aligned(x, bs) && Aligned(y, bs)
    ensures x < y ==> x + bs <= y
    ensures y < x ==> y + bs <= x
  {}

  lemma SameIndexed(x: seq<Byte>, y: seq<Byte>)
    requires |x| == |y| && forall i: nat :: i < |y| ==> x[i] == y[i]
    ensures x == y
  {}

  // ---------------------------------------------------------------- what it lists

  /** The directory's records with the one of the new block among them: in the place of the block it replaces, if any. */
  lemma ReplacedLists(t: seq<Byte>, at: nat, bs: nat, child: Word32, name: seq<Byte>, kind: Byte)
    requires BlockSize(bs) && Tiled(t, 0, bs) && at <= |t| && at % bs == 0 && Nameable(name) && child != 0
    ensures Listing(Replaced(t, at, FreshBlock(bs, child, name, kind)), 0) ==
              Listing(t[..at], 0) + ([Rec(child, name, kind)] + Listing(Beyond(t, at + bs), 0))
  {
    hide FreshBlock, Tiled, Visits, Listing, Replaced, Before, Beyond;
    var c := FreshBlock(bs, child, name, kind);
    BoundaryVisited(t, 0, at, bs);
    CutAtBoundary(t, 0, at, bs);
    FreshLists(bs, child, name, kind);
    FreshTiled(bs, child, name, kind);
    ListingJoined(c, Beyond(t, at + bs), 0, bs);
    ListingJoined(t[..at], c + Beyond(t, at + bs), 0, bs);
    ReplacedParts(t, at, c);
  }

  lemma ReplacedParts(t: seq<Byte>, at: nat, c: seq<Byte>)
    requires at <= |t|
    ensures Replaced(t, at, c) == t[..at] + (c + Beyond(t, at + |c|))
  {}

  lemma FreshLists(bs: nat, child: Word32, name: seq<Byte>, kind: Byte)
    requires BlockSize(bs) && Nameable(name) && child != 0
    ensures Listing(FreshBlock(bs, child, name, kind), 0) == [Rec(child, name, kind)]
  {
    hide FreshBlock;
    AppendInserts([], 0, bs, child, name, kind);
    assert [] + FreshBlock(bs, child, name, kind) == FreshBlock(bs, child, name, kind);
    assert Listing([], 0) == [];
  }

  /** Where an append puts its block's end, and that what the old map shows one block further is tiled. */
  lemma AppendFacts(v: Vol, ino: nat, name: seq<Byte>, p: nat)
    requires DirReady(v, ino) && v.geo.Sizes() && InodeNumber(v, ino) && IsDir(GetInode(v, ino)) && Nameable(name)
    requires FitOf(v, ino, name) == AtEnd(p)
    ensures Editing(v, ino, GetInode(v, ino)) && BlockSize(v.geo.blockSize)
    ensures RoundUp(p, v.geo.blockSize) == |DirBytes(v, GetInode(v, ino))|
    ensures Tiled(DirBytes(v, Taller(v, GetInode(v, ino))), 0, v.geo.blockSize)
  {
    hide Owned, Lookup, Tiled, ReadEnd, FirstFit, RecLen, Slack, Visits, Aligned, RoundUp, BlocksTiled, DirBytes;
    var n, bs := GetInode(v, ino), v.geo.blockSize;
    SelfPut(v, ino);
    SizesBlock(v, ino, n);
    DirTiled(v, ino, n);
    FirstFitFinds(DirBytes(v, n), n.size, Padded(|name|), 0, bs);
    DirIsShort(v, ino, n);
    EndOfDir(v, n, p);
    SameMapOwned(v, ino, n, Taller(v, n));
    TiledAnySize(v, v, n, Taller(v, n));
    DirTiled(v, ino, Taller(v, n));
  }

  lemma EndOfDir(v: Vol, n: Inode, p: nat)
    requires v.geo.Sizes() && n.size <= p <= |DirBytes(v, n)| && Aligned(|DirBytes(v, n)|, v.geo.blockSize)
    ensures RoundUp(p, v.geo.blockSize) == |DirBytes(v, n)|
  {
    hide Lookup, ReadEnd;
    RoundUpAligned(p, v.geo.blockSize);
    RoundUpAligned(n.size, v.geo.blockSize);
    AlignedApart(RoundUp(p, v.geo.blockSize), |DirBytes(v, n)|, v.geo.blockSize);
    AlignedApart(RoundUp(n.size, v.geo.blockSize), RoundUp(p, v.geo.blockSize), v.geo.blockSize);
  }

  /**
   * The listing after an append, for every directory. If the index given by the block count is stored and leaves no
   * hole, the new record stands where that block is, and the records of a block it replaces are gone. Otherwise the
   * directory lists what its old map shows one block further, and the new record is in none of it.
   */
  lemma AppendLists(v: Vol, ino: nat, name: seq<Byte>, child: Word32, kind: Byte, p: nat)
    requires DirReady(v, ino) && v.geo.Sizes() && InodeNumber(v, ino) && IsDir(GetInode(v, ino)) && Nameable(name) && child != 0
    requires BlockCount(v, GetInode(v, ino)) < DIRECT + TABLE_BUFFER && FitOf(v, ino, name) == AtEnd(p)
    requires AddEntry(v, ino, name, child, kind).ok
    ensures var r, n, bs := AddEntry(v, ino, name, child, kind), GetInode(v, ino), v.geo.blockSize;
            var t, at := DirBytes(v, Taller(v, n)), HangOffset(v, n);
            r.v.geo == v.geo && InodeNumber(r.v, ino) && IsDir(GetInode(r.v, ino)) &&
            (Hangs(v, n) ==> at <= |t|) &&
            Entries(r.v, GetInode(r.v, ino)) ==
              if Hangs(v, n) then Listing(t[..at], 0) + ([Rec(child, name, kind)] + Listing(Beyond(t, at + bs), 0)) else Listing(t, 0)
  {
    hide Owned, Lookup, Tiled, ReadEnd, FirstFit, Listing, FreshBlock, Untouched, AddEntry, BlockCount, BlocksTiled, DirBytes,
         Visible, RoundUp, Extended, Editing, Replaced, Taller, Append, DirReady, Geometry.Sizes, FitOf, Beyond;
    var r, n, bs := AddEntry(v, ino, name, child, kind), GetInode(v, ino), v.geo.blockSize;
    AppendFacts(v, ino, name, p);
    DirIsShort(v, ino, n);
    AddEndKeeps(v, ino, name, child, kind, p);
    AppendReads(v, ino, n, r.v, GetInode(r.v, ino), LowestFree(v), FreshBlock(bs, child, name, kind));
    if Hangs(v, n) {
      OffsetAligned(v, n);
      ReplacedLists(DirBytes(v, Taller(v, n)), HangOffset(v, n), bs, child, name, kind);
    }
  }

  /** A name found in the first part of a listing is what the whole listing finds. */
  lemma {:induction false} LookBefore(a: seq<Rec>, b: seq<Rec>, name: seq<Byte>)
    ensures LookIn(a + b, name) == if LookIn(a, name) == Absent then LookIn(b, name) else LookIn(a, name)
  {
    if a == [] {
      assert a + b == b;
    } else {
      assert (a + b)[0] == a[0] && (a + b)[1..] == a[1..] + b;
      LookBefore(a[1..], b, name);
    }
  }

  /** Readers come by the new entry before any other of its name, as far as can be told before the call. */
  predicate Shows(v: Vol, ino: nat, name: seq<Byte>)
    requires v.geo.Sizes() && InodeNumber(v, ino) && Nameable(name)
  {
    var n := GetInode(v, ino);
    var d, t, at := DirBytes(v, n), DirBytes(v, Taller(v, n)), HangOffset(v, n);
    match FitOf(v, ino, name)
    case Hole => false
    case Slot(p) => p + HEADER <= |d| && p + Padded(NameLen(d, p)) + HEADER + |name| <= n.size
    case AtEnd(p) => Hangs(v, n) && at <= |t| && LookIn(Listing(t[..at], 0), name) == Absent
  }

  /** What an append brings to light under the name: records that the size had hidden. */
  function Unveiled(v: Vol, ino: nat, name: seq<Byte>): Looked
    requires v.geo.Sizes() && InodeNumber(v, ino) && Nameable(name)
  {
    if FitOf(v, ino, name).AtEnd? then LookIn(Listing(DirBytes(v, Taller(v, GetInode(v, ino))), 0), name) else Absent
  }

  /**
   * Creation, for every directory and every way an entry can be placed: success is reported, and the name stands for
   * the new entry exactly when the entry ends below the size, or its block hangs where readers come by before any
   * older record of the name. Otherwise it stands for what the append brings to light under it, if for anything.
   */
  lemma CreatedIsFound(v: Vol, ino: nat, name: seq<Byte>, child: Word32, kind: Byte)
    requires DirReady(v, ino) && v.geo.Sizes() && InodeNumber(v, ino) && IsDir(GetInode(v, ino)) && Nameable(name) && child != 0
    requires BlockCount(v, GetInode(v, ino)) < DIRECT + TABLE_BUFFER && AddEntry(v, ino, name, child, kind).ok
    requires DirLookup(v, ino, name) == Absent
    ensures AddEntry(v, ino, name, child, kind).v.geo == v.geo
    ensures var found, rec := DirLookup(AddEntry(v, ino, name, child, kind).v, ino, name), Rec(child, name, kind);
            found == (if Shows(v, ino, name) then Present(rec) else Unveiled(v, ino, name)) &&
            (found == Present(rec) <==> Shows(v, ino, name) || Unveiled(v, ino, name) == Present(rec))
  {
    hide Owned, Lookup, Tiled, FirstFit, Listing, FreshBlock, Untouched, BlockCount, BlocksTiled, DirBytes, WriteDirBlock,
         Visible, RoundUp, Extended, Editing, Taller, Append, DirReady, Geometry.Sizes, Beyond, LookIn, Split, Padded, NameLen,
         DirLookup, Entries, HangOffset, Hangs;
    match FitOf(v, ino, name)
    case Hole =>
    case Slot(p) => CreatedButHidden(v, ino, name, child, kind, p);
    case AtEnd(p) => AppendedIsFound(v, ino, name, child, kind, p);
  }

  lemma OffsetAligned(v: Vol, n: Inode)
    requires v.geo.Sizes()
    ensures HangOffset(v, n) % v.geo.blockSize == 0
  {
    InBlockK(0, BlockCount(v, n), v.geo.blockSize);
  }

  /** The first blocks of a tiled directory, then the others. */
  lemma ListingOfParts(t: seq<Byte>, at: nat, bs: nat)
    requires BlockSize(bs) && Tiled(t, 0, bs) && at <= |t| && at % bs == 0
    ensures Listing(t, 0) == Listing(t[..at], 0) + Listing(t[at..], 0)
  {
    hide Tiled, Visits, Listing, Before;
    BoundaryVisited(t, 0, at, bs);
    CutAtBoundary(t, 0, at, bs);
    ListingJoined(t[..at], t[at..], 0, bs);
    assert t[..at] + t[at..] == t;
  }

  lemma AppendedIsFound(v: Vol, ino: nat, name: seq<Byte>, child: Word32, kind: Byte, p: nat)
    requires DirReady(v, ino) && v.geo.Sizes() && InodeNumber(v, ino) && IsDir(GetInode(v, ino)) && Nameable(name) && child != 0
    requires BlockCount(v, GetInode(v, ino)) < DIRECT + TABLE_BUFFER && AddEntry(v, ino, name, child, kind).ok
    requires FitOf(v, ino, name) == AtEnd(p)
    ensures AddEntry(v, ino, name, child, kind).v.geo == v.geo
    ensures DirLookup(AddEntry(v, ino, name, child, kind).v, ino, name) ==
              if Shows(v, ino, name) then Present(Rec(child, name, kind)) else Unveiled(v, ino, name)
  {
    hide Owned, Lookup, Tiled, FirstFit, Listing, FreshBlock, Untouched, BlockCount, BlocksTiled, DirBytes, AddEntry,
         Visible, RoundUp, Extended, Editing, Taller, Append, DirReady, Geometry.Sizes, Beyond, LookIn, Entries, FitOf, HangOffset,
         Hangs;
    AppendLists(v, ino, name, child, kind, p);
    var n, rec := GetInode(v, ino), Rec(child, name, kind);
    var t, at := DirBytes(v, Taller(v, n)), HangOffset(v, n);
    if Hangs(v, n) {
      AppendFacts(v, ino, name, p);
      OffsetAligned(v, n);
      ListingOfParts(t, at, v.geo.blockSize);
      LookBefore(Listing(t[..at], 0), Listing(t[at..], 0), name);
      LookFirst(rec, Listing(Beyond(t, at + v.geo.blockSize), 0));
      LookBefore(Listing(t[..at], 0), [rec] + Listing(Beyond(t, at + v.geo.blockSize), 0), name);
    }
  }

  // ---------------------------------------------------------------- after a removal emptied the last block

  /** Removing the only record of the last block lowers the size to where the block began; the block stays mapped. */
  lemma LastBlockEmptied(v: Vol, ino: nat, gone: seq<Byte>, p: nat, prev: int)
    requires WellFormedDir(v, ino) && RemoveEntry(v, ino, gone).ok && v.geo.Sizes() && InodeNumber(v, ino)
    requires FindPos(DirBytes(v, GetInode(v, ino)), GetInode(v, ino).size, gone, 0, -1) == At(p, prev)
    requires p % v.geo.blockSize == 0 && p + v.geo.blockSize == GetInode(v, ino).size
    requires p + HEADER <= |DirBytes(v, GetInode(v, ino))| && RecLen(DirBytes(v, GetInode(v, ino)), p) == v.geo.blockSize
    ensures var u, n := RemoveEntry(v, ino, gone).v, GetInode(v, ino);
            u.geo == v.geo && InodeNumber(u, ino) &&
            var m := GetInode(u, ino);
            m == n.(size := p) && |DirBytes(u, m)| == p && Entries(u, m) == Listing(DirBytes(u, n), 0)
  {
    hide Allocated, Exclusive, Chained, Geometry.MetaReserved, Geometry.MetaApart, Geometry.Totals, Lookup, Tiled,
         Untouched, BlocksTiled, MetaUsed, BlocksSized, DirBytes, Visits, Listing, Erase, FindPos, RecLen, LiveAt, Before,
         RemovedAt, FindName, Base, Ino, ReadEnd;
    OwnedSizes(v, ino);
    var n, bs := GetInode(v, ino), v.geo.blockSize;
    var d, e, u := DirBytes(v, n), EraseAt(v, ino, gone, p, prev), RemoveEntry(v, ino, gone).v;
    var m := GetInode(u, ino);
    WholeDir(v, n);
    PickedRecord(v, ino, gone, p, prev);
    EraseWritten(v, ino, gone, p, prev);
    RemoveKeeps(v, ino, gone);
    ShrunkTo(n.size, RecLen(d, p), p);
    EraseLast(d, p, prev, bs);
    SameDataDir(e, u, n);
    SameMapped(v, e, n);
    WholeDir(e, n);
    CutDir(u, n, m);
  }

  lemma SameDataDir(v: Vol, w: Vol, n: Inode)
    requires v.geo.Sizes() && w.geo == v.geo && w.data == v.data
    ensures DirBytes(w, n) == DirBytes(v, n) && HoleFree(w, n) == HoleFree(v, n)
  {
    hide Lookup, ReadEnd;
    SameDataBytes(v, w, n);
    SameEnd(v, w, n, 0, RoundUp(n.size, v.geo.blockSize));
  }

  /** A whole directory with its size lowered by whole blocks shows the first of its bytes. */
  lemma CutDir(v: Vol, n: Inode, m: Inode)
    requires v.geo.Sizes() && HoleFree(v, n) && Aligned(n.size, v.geo.blockSize) && Aligned(m.size, v.geo.blockSize)
    requires m.size <= n.size && m.block == n.block
    ensures |DirBytes(v, n)| == n.size && DirBytes(v, m) == DirBytes(v, n)[..m.size] && Visible(v, m) == DirBytes(v, m)
  {
    hide ReadEnd, Aligned, DirBytes, Visible;
    assert forall x: nat :: MappedAt(v, m, x) == MappedAt(v, n, x) && ByteAt(v, m, x) == ByteAt(v, n, x);
    hide Lookup;
    WholeDir(v, n);
    WholeDir(v, m);
    forall x: nat | x < m.size ensures DirBytes(v, m)[x] == DirBytes(v, n)[x] {
      DirShows(v, m, x);
      DirShows(v, n, x);
    }
    SameIndexed(DirBytes(v, m), DirBytes(v, n)[..m.size]);
  }

  /**
   * After the only record of the last block was removed, an entry that does not fit the others is lost: the append
   * reports success, takes a block and raises the size, but the block hangs one index too far, and the directory lists
   * what it listed before the append.
   */
  lemma LostAfterRemoval(v: Vol, ino: nat, gone: seq<Byte>, p: nat, prev: int, name: seq<Byte>, child: Word32, kind: Byte, q: nat)
    requires WellFormedDir(v, ino) && RemoveEntry(v, ino, gone).ok && v.geo.Sizes() && InodeNumber(v, ino)
    requires FindPos(DirBytes(v, GetInode(v, ino)), GetInode(v, ino).size, gone, 0, -1) == At(p, prev)
    requires p % v.geo.blockSize == 0 && p + v.geo.blockSize == GetInode(v, ino).size
    requires p + HEADER <= |DirBytes(v, GetInode(v, ino))| && RecLen(DirBytes(v, GetInode(v, ino)), p) == v.geo.blockSize
    requires Nameable(name) && child != 0
    requires var u := RemoveEntry(v, ino, gone).v;
             u.geo == v.geo && DirReady(u, ino) && InodeNumber(u, ino) && FitOf(u, ino, name) == AtEnd(q) &&
             BlockCount(u, GetInode(u, ino)) < DIRECT + TABLE_BUFFER && AddEntry(u, ino, name, child, kind).ok
    ensures var u := RemoveEntry(v, ino, gone).v;
            var w := AddEntry(u, ino, name, child, kind).v;
            w.geo == v.geo && InodeNumber(w, ino) &&
            Entries(w, GetInode(w, ino)) == Entries(u, GetInode(u, ino)) &&
            (DirLookup(u, ino, name) == Absent ==> DirLookup(w, ino, name) == Absent)
  {
    hide *;
    WellFormedBasics(v, ino);
    LastBlockEmptied(v, ino, gone, p, prev);
    var u, n := RemoveEntry(v, ino, gone).v, GetInode(v, ino);
    CountOfWhole(v, ino);
    NotReached(v, u, n, GetInode(u, ino), p);
    AppendLists(u, ino, name, child, kind, q);
    SameEntriesLooked(u, AddEntry(u, ino, name, child, kind).v, ino, name);
  }

  /** The old count puts the next block one place too far for a size lowered by a block. */
  lemma NotReached(v: Vol, u: Vol, n: Inode, m: Inode, p: nat)
    requires v.geo.Sizes() && u.geo == v.geo && p + v.geo.blockSize == n.size && m == n.(size := p)
    requires HangOffset(v, n) == n.size && |DirBytes(u, m)| == p && IsDir(n)
    ensures !Hangs(u, m) && Taller(u, m) == n && IsDir(m)
  {
    hide DirBytes;
  }

  lemma SameEntriesLooked(u: Vol, w: Vol, ino: nat, name: seq<Byte>)
    requires u.geo.Sizes() && w.geo == u.geo && InodeNumber(u, ino) && InodeNumber(w, ino) && IsDir(GetInode(u, ino))
    requires Entries(w, GetInode(w, ino)) == Entries(u, GetInode(u, ino))
    ensures DirLookup(u, ino, name) == Absent ==> DirLookup(w, ino, name) == Absent
  {
    hide Entries, LookIn;
  }

  lemma CountOfWhole(v: Vol, ino: nat)
    requires WellFormedDir(v, ino) && v.geo.Sizes() && InodeNumber(v, ino)
    ensures IsDir(GetInode(v, ino)) && HangOffset(v, GetInode(v, ino)) == GetInode(v, ino).size
  {
    InBlockK(0, BlockCount(v, GetInode(v, ino)), v.geo.blockSize);
  }
}
