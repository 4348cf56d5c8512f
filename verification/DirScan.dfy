/** Searching a directory as its readers do, in chunks of 4096 bytes: ext2_dir_lookup, ext2_node_readdir, ext2_node_finddir. */
module DirScan {
  import opened Bytes
  import opened InodeCodec
  import opened VolumeState
  import opened BlockMap
  import opened FileData
  import opened FileTheorems
  import opened DirRecords
  import opened DirData
  import opened DirOps
  import opened DirRemoval
  import opened Ext2Volume
  import opened FileMethods

  /** Size of the stack buffer the searches read into. */
  const CHUNK: nat := 4096

  /** From p on, the names of live records end inside the bytes. */
  predicate Legible(d: seq<Byte>, p: nat)
    decreases |d| - p
  {
    p + HEADER > |d| || RecLen(d, p) == 0
    || ((Ino(d, p) != 0 ==> p + HEADER + NameLen(d, p) <= |d|) && Legible(d, p + RecLen(d, p)))
  }

  /** The directory can be read by the searches: its records tile its blocks and no live name is cut off by its size. */
  ghost predicate Readable(v: Vol, ino: nat) {
    && Owned(v) && Live(v, ino)
    && (IsDir(GetInode(v, ino)) ==> BlocksTiled(v, GetInode(v, ino)) && Legible(Visible(v, GetInode(v, ino)), 0))
  }

  lemma {:induction false} TiledIsLegible(d: seq<Byte>, p: nat, bs: nat)
    requires BlockSize(bs) && Tiled(d, p, bs)
    ensures Legible(d, p)
    decreases |d| - p
  {
    hide InBlock, Le16, Le32, Name;
    if p < |d| {
      TiledWithin(d, p + RecLen(d, p), bs);
      TiledIsLegible(d, p + RecLen(d, p), bs);
    }
  }

  /** Whole directories are legible. */
  lemma WellFormedIsReadable(v: Vol, ino: nat)
    requires WellFormedDir(v, ino)
    ensures Readable(v, ino)
  {
    hide Owned, BlocksTiled, Tiled, HoleFree, Aligned, Visible, Legible;
    OwnedSizes(v, ino);
    SelfPut(v, ino);
    WholeDir(v, GetInode(v, ino));
    DirTiled(v, ino, GetInode(v, ino));
    TiledIsLegible(DirBytes(v, GetInode(v, ino)), 0, v.geo.blockSize);
  }

  // ---------------------------------------------------------------- one chunk

  /** A record seen through a chunk buffer. */
  lemma ChunkHead(d: seq<Byte>, lo: nat, hi: nat, pos: nat)
    requires lo <= hi <= |d| && lo + pos + HEADER <= hi
    ensures var b := d[lo..hi];
            Ino(b, pos) == Ino(d, lo + pos) && RecLen(b, pos) == RecLen(d, lo + pos) && NameLen(b, pos) == NameLen(d, lo + pos)
            && b[pos + 7] == d[lo + pos + 7]
            && (lo + pos + HEADER + NameLen(d, lo + pos) <= hi ==> Name(b, pos) == Name(d, lo + pos))
  {
    var b := d[lo..hi];
    assert forall i {:trigger b[i]} :: 0 <= i < hi - lo ==> b[i] == d[lo + i];
    if lo + pos + HEADER + NameLen(d, lo + pos) <= hi {
      assert b[pos + HEADER..pos + HEADER + NameLen(b, pos)] == d[lo + pos + HEADER..lo + pos + HEADER + NameLen(d, lo + pos)];
    }
  }

  /** Where the chunk that starts at lo ends. */
  function ChunkEnd(lo: nat, all: nat): (r: nat)
    requires lo <= all
    ensures lo <= r <= all && (lo < all ==> lo < r)
  {
    if lo + CHUNK < all then lo + CHUNK else all
  }

  /** The visible bytes end at the size, or before it at the first hole, which is a block boundary. */
  lemma VisibleEnd(v: Vol, ino: nat, n: Inode)
    requires Editing(v, ino, n)
    ensures var all, d := |Visible(v, n)|, DirBytes(v, n);
            all <= |d| && all <= n.size && Visible(v, n) == d[..all] && Visible(v, n) == BytesOf(v, n, 0, all)
            && (forall x: nat :: x < all ==> MappedAt(v, n, x))
            && (all < n.size ==> !MappedAt(v, n, all))
  {
    hide Owned, MappedAt, ByteAt, ReadEnd, RoundUp;
    SizesBlock(v, ino, n);
    RoundUpAligned(n.size, v.geo.blockSize);
    ReadEndIsFirstHole(v, n, 0, RoundUp(n.size, v.geo.blockSize));
  }

  /** What reading one chunk delivers. */
  lemma ChunkRead(v: Vol, ino: nat, n: Inode, lo: nat)
    requires Editing(v, ino, n) && lo <= |Visible(v, n)| && lo <= n.size
    ensures var d, want := Visible(v, n), if n.size - lo > CHUNK then CHUNK else n.size - lo;
            ReadData(v, n, lo, want) == d[lo..ChunkEnd(lo, |d|)]
  {
    hide Owned, MappedAt, ByteAt, ReadEnd, Visible;
    SizesBlock(v, ino, n);
    VisibleEnd(v, ino, n);
    var d, want := Visible(v, n), if n.size - lo > CHUNK then CHUNK else n.size - lo;
    if lo < n.size {
      var e := ReadEnd(v, n, lo, lo + want);
      ReadEndIsFirstHole(v, n, lo, lo + want);
      assert e < |d| ==> MappedAt(v, n, e);
      assert e == ChunkEnd(lo, |d|);
    }
  }

  /** A record that starts in a chunk, before the last one, ends in it. */
  lemma InsideChunk(d: seq<Byte>, lo: nat, p: nat, bs: nat)
    requires BlockSize(bs) && lo % CHUNK == 0 && lo <= p < lo + CHUNK <= |d| && Tiled(d, p, bs)
    ensures p + HEADER <= |d| && p + RecLen(d, p) <= lo + CHUNK && p + HEADER + NameLen(d, p) <= lo + CHUNK
  {
    hide Ino, RecLen, NameLen, InBlock;
    ChunkAligned(lo, bs);
    TiledStep(d, p, bs);
    NoCrossing(p, RecLen(d, p), lo + CHUNK, bs) by { assert InBlock(p, bs) + RecLen(d, p) <= bs; }
  }

  lemma ChunkAligned(lo: nat, bs: nat)
    requires BlockSize(bs) && lo % CHUNK == 0
    ensures (lo + CHUNK) % bs == 0
  {
    if bs == 1024 {} else {}
  }

  /** The bytes of the chunk that starts at lo, when the first all bytes of d are visible. */
  function ChunkOf(d: seq<Byte>, all: nat, lo: nat): (r: seq<Byte>)
    requires lo <= all <= |d|
    ensures |r| == ChunkEnd(lo, all) - lo
  {
    d[lo..ChunkEnd(lo, all)]
  }

  function Shown(d: seq<Byte>, all: nat): (r: seq<Byte>)
    requires all <= |d|
    ensures |r| == all
  {
    d[..all]
  }

  /** The state of a search inside a chunk: a tiled directory d, of which the first all bytes are visible. */
  ghost predicate Scanning(d: seq<Byte>, all: nat, lo: nat, p: nat, bs: nat)
    requires BlockSize(bs)
  {
    && all <= |d| && lo % CHUNK == 0 && lo <= p && lo <= all && Legible(d[..all], p)
    && (p <= |d| ==> Tiled(d, p, bs)) && (p <= ChunkEnd(lo, all) || ChunkEnd(lo, all) == all)
  }

  /** One step of the walk: the record in the buffer is the record of the directory, and the walk stays in the chunk. */
  lemma ScanStep(d: seq<Byte>, all: nat, lo: nat, p: nat, bs: nat)
    requires BlockSize(bs) && Scanning(d, all, lo, p, bs) && p + HEADER <= ChunkEnd(lo, all)
    ensures var b, vis, pos := ChunkOf(d, all, lo), Shown(d, all), p - lo;
            RecLen(b, pos) > 0 && RecLen(b, pos) == RecLen(vis, p) && Ino(b, pos) == Ino(vis, p)
            && Listing(vis, p) == LiveAt(vis, p) + Listing(vis, p + RecLen(vis, p))
            && (Ino(b, pos) != 0 ==> |Name(b, pos)| == NameLen(b, pos) && LiveAt(vis, p) == [Rec(Ino(b, pos), Name(b, pos), b[pos + 7])])
            && Scanning(d, all, lo, p + RecLen(b, pos), bs)
  {
    hide Ino, RecLen, NameLen, Tiled, InBlock, Listing, Name;
    var end, vis := ChunkEnd(lo, all), d[..all];
    assert d[lo..end] == vis[lo..end];
    ChunkHead(vis, lo, end, p - lo);
    ChunkHead(d, 0, all, p);
    assert d[0..all] == vis;
    TiledStep(d, p, bs);
    TiledWithin(d, p + RecLen(d, p), bs);
    if end < all { InsideChunk(d, lo, p, bs); }
    ListingStep(vis, p);
    if Ino(vis, p) != 0 { FullName(d[lo..end], p - lo); }
  }

  lemma FullName(b: seq<Byte>, p: nat)
    requires p + HEADER <= |b| && p + HEADER + NameLen(b, p) <= |b|
    ensures |Name(b, p)| == NameLen(b, p)
  {}

  lemma ScanStart(v: Vol, ino: nat, n: Inode)
    requires Editing(v, ino, n) && BlocksTiled(v, n) && Legible(Visible(v, n), 0)
    ensures BlockSize(v.geo.blockSize)
    ensures var d, all := DirBytes(v, n), |Visible(v, n)|;
            all <= |d| && Visible(v, n) == d[..all] && Scanning(d, all, 0, 0, v.geo.blockSize)
  {
    hide Owned, Tiled, Aligned, BlocksTiled, DirBytes, Visible;
    VisibleEnd(v, ino, n);
    DirTiled(v, ino, n);
    SizesBlock(v, ino, n);
  }

  /** When a chunk is done the walk is at its end, or past the visible bytes. */
  lemma ScanNext(d: seq<Byte>, all: nat, lo: nat, p: nat, bs: nat)
    requires BlockSize(bs) && Scanning(d, all, lo, p, bs) && p + HEADER > ChunkEnd(lo, all) && lo < all
    ensures ChunkEnd(lo, all) < all ==> p == lo + CHUNK && Scanning(d, all, lo + CHUNK, p, bs)
    ensures ChunkEnd(lo, all) == all ==> Listing(d[..all], p) == []
  {
    hide Le16, Le32, InBlock, Tiled, Legible;
    var end := ChunkEnd(lo, all);
    if end < all {
      assert (lo + CHUNK) % CHUNK == 0;
      if p < end {
        TiledStep(d, p, bs);
        InsideChunk(d, lo, p, bs);
      }
    }
  }

  // ---------------------------------------------------------------- ext2_dir_lookup

  /** Records of another name in front change nothing about a lookup. */
  lemma LookSkip(r: seq<Rec>, l: seq<Rec>, name: seq<Byte>)
    requires |r| == 0 || (|r| == 1 && r[0].name != name)
    ensures LookIn(r + l, name) == LookIn(l, name)
  {
    if r == [] {
      assert r + l == l;
    } else {
      assert (r + l)[1..] == l && (r + l)[0] == r[0];
    }
  }

  /** One round of the search: the record is the one wanted, or the search goes on behind it. */
  lemma SearchStep(d: seq<Byte>, all: nat, lo: nat, p: nat, bs: nat, name: seq<Byte>)
    requires BlockSize(bs) && lo <= all <= |d| && lo <= p && Scanning(d, all, lo, p, bs) && p + HEADER <= ChunkEnd(lo, all)
    ensures var b, vis, pos := ChunkOf(d, all, lo), Shown(d, all), p - lo;
            RecLen(b, pos) > 0 && Scanning(d, all, lo, p + RecLen(b, pos), bs) &&
            LookIn(Listing(vis, p), name) ==
              if Ino(b, pos) != 0 && NameLen(b, pos) == |name| && Name(b, pos) == name
              then Present(Rec(Ino(b, pos), name, b[pos + 7]))
              else LookIn(Listing(vis, p + RecLen(b, pos)), name)
  {
    hide Scanning, LookIn, Listing, Name, Ino, RecLen, NameLen, LiveAt;
    ScanStep(d, all, lo, p, bs);
    var b, vis, pos := ChunkOf(d, all, lo), Shown(d, all), p - lo;
    DeadIsSilent(vis, p);
    if Ino(b, pos) != 0 && Name(b, pos) == name {
      LookFirst(LiveAt(vis, p)[0], Listing(vis, p + RecLen(b, pos)));
    } else {
      LookSkip(LiveAt(vis, p), Listing(vis, p + RecLen(b, pos)), name);
    }
  }

  /** The chunk is searched up to pos: what is left to search decides the search from lo on. */
  ghost predicate Searched(d: seq<Byte>, all: nat, lo: nat, pos: nat, bs: nat, name: seq<Byte>)
    requires BlockSize(bs)
  {
    && lo <= all <= |d| && Scanning(d, all, lo, lo + pos, bs)
    && LookIn(Listing(Shown(d, all), lo), name) == LookIn(Listing(Shown(d, all), lo + pos), name)
  }

  lemma SearchedStep(buf: seq<Byte>, d: seq<Byte>, all: nat, lo: nat, pos: nat, bs: nat, name: seq<Byte>)
    requires BlockSize(bs) && Searched(d, all, lo, pos, bs, name) && buf == ChunkOf(d, all, lo) && pos + HEADER <= |buf|
    ensures RecLen(buf, pos) > 0
    ensures if Ino(buf, pos) != 0 && NameLen(buf, pos) == |name| && Name(buf, pos) == name then
              LookIn(Listing(Shown(d, all), lo), name) == Present(Rec(Ino(buf, pos), name, buf[pos + 7]))
            else Searched(d, all, lo, pos + RecLen(buf, pos), bs, name)
  {
    hide Scanning, LookIn, Listing, Name, Ino, RecLen, NameLen, Shown;
    SearchStep(d, all, lo, lo + pos, bs, name);
  }

  /** The search of one chunk that starts at lo; p is where it ended without success. */
  method SearchChunk(buf: seq<Byte>, name: seq<Byte>, ghost d: seq<Byte>, ghost all: nat, ghost lo: nat, ghost bs: nat)
    returns (found: bool, ino: Word32, kind: Byte, ghost p: nat)
    requires lo <= all <= |d| && BlockSize(bs) && Scanning(d, all, lo, lo, bs) && buf == ChunkOf(d, all, lo)
    ensures found ==> LookIn(Listing(Shown(d, all), lo), name) == Present(Rec(ino, name, kind))
    ensures !found ==> p + HEADER > ChunkEnd(lo, all) && Scanning(d, all, lo, p, bs)
                       && LookIn(Listing(Shown(d, all), lo), name) == LookIn(Listing(Shown(d, all), p), name)
  {
    assert Searched(d, all, lo, 0, bs, name);
    assert HEADER == 8;
    hide Scanning, LookIn, Listing, Shown, RecLen, NameLen, Ino, Name, ChunkOf, ChunkEnd;
    found, ino, kind, p := false, 0, 0, lo;
    var pos := 0;
    while pos + HEADER <= |buf|
      invariant Searched(d, all, lo, pos, bs, name)
    {
      hide *;
      SearchedStep(buf, d, all, lo, pos, bs, name);
      var len, i := RecLen(buf, pos), Ino(buf, pos);
      if len == 0 {
        return;
      }
      if i != 0 && NameLen(buf, pos) == |name| && Name(buf, pos) == name {
        found, ino, kind := true, i, buf[pos + 7];
        return;
      }
      pos := pos + len;
    }
    p := lo + pos;
  }

  /** Only meaningful for directories the searches can read; an inode number out of range is refused. */
  method LookupEntry(fs: Volume, dirIno: nat, name: seq<Byte>) returns (ok: bool, ino: Word32, kind: Byte)
    requires fs.Valid() && (InodeNumber(fs.View(), dirIno) ==> Readable(fs.View(), dirIno))
    ensures DirLookup(fs.View(), dirIno, name) == if ok then Present(Rec(ino, name, kind)) else Absent
  {
    hide Volume.View, Volume.Valid, Owned, Scanning, Visible, LookIn, Listing, Legible, BlocksTiled, DirBytes, ReadData,
         Pointing, Shape;
    ok, ino, kind := false, 0, 0;
    SizesOf(fs.View());
    var got, n := fs.ReadInode(dirIno);
    if !got || !IsDir(n) {
      return;
    }
    SelfPut(fs.View(), dirIno);
    EditingPoints(fs.View(), dirIno, n);
    ghost var v := fs.View();
    ScanStart(v, dirIno, n);
    VisibleEnd(v, dirIno, n);
    ghost var d, vis, bs := DirBytes(v, n), Visible(v, n), v.geo.blockSize;
    ghost var all, found := |vis|, LookIn(Listing(vis, 0), name);
    NothingListed(vis, name);
    NoneLeft(name);
    var lo := 0;
    while lo < n.size
      invariant lo <= all && (lo < all ==> Scanning(d, all, lo, lo, bs) && found == LookIn(Listing(vis, lo), name))
      invariant lo == all ==> found == Absent
    {
      var want := if n.size - lo > CHUNK then CHUNK else n.size - lo;
      ChunkRead(v, dirIno, n, lo);
      ChunkOfVisible(d, all, lo);
      var buf := ReadBytes(fs, n, lo, want);
      if |buf| == 0 {
        return;
      }
      ghost var p;
      ok, ino, kind, p := SearchChunk(buf, name, d, all, lo, bs);
      if ok {
        return;
      }
      ScanNext(d, all, lo, p, bs);
      lo := lo + |buf|;
    }
  }

  lemma NothingListed(d: seq<Byte>, name: seq<Byte>)
    ensures |d| == 0 ==> LookIn(Listing(d, 0), name) == Absent
  {}

  lemma NoneLeft(name: seq<Byte>)
    ensures LookIn([], name) == Absent
  {}

  lemma DeadIsSilent(d: seq<Byte>, p: nat)
    requires p + HEADER <= |d|
    ensures Ino(d, p) == 0 ==> LiveAt(d, p) == []
  {}

  lemma ChunkOfVisible(d: seq<Byte>, all: nat, lo: nat)
    requires lo <= all <= |d|
    ensures d[..all][lo..ChunkEnd(lo, all)] == ChunkOf(d, all, lo) && Shown(d, all) == d[..all]
  {}

  // ---------------------------------------------------------------- ext2_node_readdir and ext2_node_finddir

  /** Longest name that fits a node. */
  const NODE_NAME: nat := 63

  /** The name as a node holds it. */
  function Clipped(name: seq<Byte>): seq<Byte> {
    if |name| > NODE_NAME then name[..NODE_NAME] else name
  }

  /** The entry of that index. */
  function Nth(l: seq<Rec>, i: nat): Looked {
    if i < |l| then Present(l[i]) else Absent
  }

  lemma NthHit(r: Rec, l: seq<Rec>)
    ensures Nth([r] + l, 0) == Present(r)
  {}

  lemma NthSkip(r: seq<Rec>, l: seq<Rec>, i: nat)
    requires |r| <= 1 && |r| <= i
    ensures Nth(r + l, i) == Nth(l, i - |r|)
  {}

  /** One round of the enumeration. */
  lemma ReaddirStep(d: seq<Byte>, all: nat, lo: nat, p: nat, bs: nat, left: nat)
    requires BlockSize(bs) && lo <= all <= |d| && lo <= p && Scanning(d, all, lo, p, bs) && p + HEADER <= ChunkEnd(lo, all)
    ensures var b, vis, pos := ChunkOf(d, all, lo), Shown(d, all), p - lo;
            RecLen(b, pos) > 0 && Scanning(d, all, lo, p + RecLen(b, pos), bs) &&
            Nth(Listing(vis, p), left) ==
              if Ino(b, pos) != 0 && left == 0 then Present(Rec(Ino(b, pos), Name(b, pos), b[pos + 7]))
              else Nth(Listing(vis, p + RecLen(b, pos)), if Ino(b, pos) != 0 then left - 1 else left)
  {
    hide Scanning, Nth, Listing, Name, Ino, RecLen, NameLen, LiveAt;
    ScanStep(d, all, lo, p, bs);
    var b, vis, pos := ChunkOf(d, all, lo), Shown(d, all), p - lo;
    DeadIsSilent(vis, p);
    if Ino(b, pos) != 0 && left == 0 {
      NthHit(LiveAt(vis, p)[0], Listing(vis, p + RecLen(b, pos)));
    } else {
      NthSkip(LiveAt(vis, p), Listing(vis, p + RecLen(b, pos)), left);
    }
  }

  /** The chunk is enumerated up to pos: passing over rest more records from there is passing over left from lo. */
  ghost predicate Enumerated(d: seq<Byte>, all: nat, lo: nat, pos: nat, bs: nat, left: nat, rest: nat)
    requires BlockSize(bs)
  {
    && lo <= all <= |d| && Scanning(d, all, lo, lo + pos, bs)
    && Nth(Listing(Shown(d, all), lo), left) == Nth(Listing(Shown(d, all), lo + pos), rest)
  }

  lemma EnumeratedStep(buf: seq<Byte>, d: seq<Byte>, all: nat, lo: nat, pos: nat, bs: nat, left: nat, rest: nat)
    requires BlockSize(bs) && Enumerated(d, all, lo, pos, bs, left, rest) && buf == ChunkOf(d, all, lo) && pos + HEADER <= |buf|
    ensures RecLen(buf, pos) > 0
    ensures if Ino(buf, pos) != 0 && rest == 0 then
              Nth(Listing(Shown(d, all), lo), left) == Present(Rec(Ino(buf, pos), Name(buf, pos), buf[pos + 7]))
            else Enumerated(d, all, lo, pos + RecLen(buf, pos), bs, left, if Ino(buf, pos) != 0 then rest - 1 else rest)
  {
    hide Scanning, Nth, Listing, Name, Ino, RecLen, NameLen, Shown;
    ReaddirStep(d, all, lo, lo + pos, bs, rest);
  }

  /** The part of the enumeration that falls into one chunk; left live records are still to be passed over. */
  method ReaddirChunk(buf: seq<Byte>, left: nat, ghost d: seq<Byte>, ghost all: nat, ghost lo: nat, ghost bs: nat)
    returns (found: bool, ino: Word32, name: seq<Byte>, kind: Byte, rest: nat, ghost p: nat)
    requires lo <= all <= |d| && BlockSize(bs) && Scanning(d, all, lo, lo, bs) && buf == ChunkOf(d, all, lo)
    ensures found ==> Nth(Listing(Shown(d, all), lo), left) == Present(Rec(ino, name, kind))
    ensures !found ==> p + HEADER > ChunkEnd(lo, all) && Scanning(d, all, lo, p, bs)
                       && Nth(Listing(Shown(d, all), lo), left) == Nth(Listing(Shown(d, all), p), rest)
  {
    assert Enumerated(d, all, lo, 0, bs, left, left);
    assert HEADER == 8;
    hide Scanning, Nth, Listing, Shown, RecLen, Ino, Name, ChunkOf, ChunkEnd;
    found, ino, name, kind, rest, p := false, 0, [], 0, left, lo;
    var pos := 0;
    while pos + HEADER <= |buf|
      invariant Enumerated(d, all, lo, pos, bs, left, rest)
    {
      hide *;
      EnumeratedStep(buf, d, all, lo, pos, bs, left, rest);
      var len, i := RecLen(buf, pos), Ino(buf, pos);
      if len == 0 {
        return;
      }
      if i != 0 && rest == 0 {
        found, ino, name, kind := true, i, Name(buf, pos), buf[pos + 7];
        return;
      }
      rest := if i != 0 then rest - 1 else rest;
      pos := pos + len;
    }
    p := lo + pos;
  }

  /** The live record of that index in reading order; past the last one the enumeration stops. */
  method NodeReaddir(fs: Volume, dirIno: nat, index: nat) returns (ok: bool, ino: Word32, name: seq<Byte>, isDir: bool)
    requires fs.Valid() && (InodeNumber(fs.View(), dirIno) ==> Readable(fs.View(), dirIno))
    ensures var v := fs.View();
            if InodeNumber(v, dirIno) && IsDir(GetInode(v, dirIno)) && index < |Entries(v, GetInode(v, dirIno))| then
              var r := Entries(v, GetInode(v, dirIno))[index];
              ok && ino == r.ino && name == Clipped(r.name) && isDir == (r.kind == 2)
            else !ok
  {
    hide Volume.View, Volume.Valid, Owned, Scanning, Visible, Listing, Legible, BlocksTiled, DirBytes, ReadData, Pointing,
         Shape, ChunkOf;
    ok, ino, name, isDir := false, 0, [], false;
    SizesOf(fs.View());
    var got, n := fs.ReadInode(dirIno);
    if !got || !IsDir(n) {
      return;
    }
    SelfPut(fs.View(), dirIno);
    EditingPoints(fs.View(), dirIno, n);
    ghost var v := fs.View();
    ScanStart(v, dirIno, n);
    VisibleEnd(v, dirIno, n);
    ghost var d, vis, bs := DirBytes(v, n), Visible(v, n), v.geo.blockSize;
    ghost var all, wanted := |vis|, Nth(Listing(vis, 0), index);
    EmptyListing(vis);
    var lo, left := 0, index;
    while lo < n.size
      invariant lo <= all
      invariant lo < all ==> Scanning(d, all, lo, lo, bs) && wanted == Nth(Listing(vis, lo), left)
      invariant lo == all ==> wanted == Absent
    {
      var want := if n.size - lo > CHUNK then CHUNK else n.size - lo;
      ChunkRead(v, dirIno, n, lo);
      ChunkOfVisible(d, all, lo);
      var buf := ReadBytes(fs, n, lo, want);
      if |buf| == 0 {
        return;
      }
      ghost var p;
      var kind;
      ok, ino, name, kind, left, p := ReaddirChunk(buf, left, d, all, lo, bs);
      if ok {
        name, isDir := if |name| > NODE_NAME then name[..NODE_NAME] else name, kind == 2;
        return;
      }
      ScanNext(d, all, lo, p, bs);
      lo := lo + |buf|;
    }
  }

  lemma EmptyListing(d: seq<Byte>)
    ensures |d| == 0 ==> Listing(d, 0) == []
  {}

  /** A C string: the bytes before the first NUL. */
  function CString(s: seq<Byte>): seq<Byte> {
    if s == [] || s[0] == 0 then [] else [s[0]] + CString(s[1..])
  }

  /** First record whose node name reads as name. */
  function FindShort(l: seq<Rec>, name: seq<Byte>): Looked {
    if l == [] then Absent
    else if NodeReads(l[0]) == name then Present(l[0])
    else FindShort(l[1..], name)
  }

  method NodeFinddir(fs: Volume, dirIno: nat, name: seq<Byte>) returns (ok: bool, ino: Word32)
    requires fs.Valid() && (InodeNumber(fs.View(), dirIno) ==> Readable(fs.View(), dirIno))
    ensures var v := fs.View();
            v.geo.Sizes() &&
            match Finddir(v, dirIno, name)
            case Present(r) => ok && ino == r.ino
            case Absent => !ok
  {
    hide Volume.View, Volume.Valid, Readable, Entries;
    ghost var v := fs.View();
    ghost var here := InodeNumber(v, dirIno) && IsDir(GetInode(v, dirIno));
    ghost var entries := if here then Entries(v, GetInode(v, dirIno)) else [];
    var index := 0;
    var childName, isDir;
    ok, ino, childName, isDir := NodeReaddir(fs, dirIno, index);
    while ok
      invariant ok == (index < |entries|) && (ok ==> ino == entries[index].ino && childName == Clipped(entries[index].name))
      invariant index <= |entries| && FindShort(entries, name) == FindShort(entries[index..], name)
      decreases |entries| - index
    {
      if CString(childName) == name {
        assert entries[index..][0] == entries[index];
        return true, ino;
      }
      assert entries[index..][1..] == entries[index + 1..] && entries[index..][0] == entries[index];
      index := index + 1;
      ok, ino, childName, isDir := NodeReaddir(fs, dirIno, index);
    }
  }

  lemma {:induction false} CStringWhole(s: seq<Byte>)
    requires NulFree(s)
    ensures CString(s) == s
  {
    if s != [] {
      CStringWhole(s[1..]);
    }
  }

  /** What finddir compares: a node's name, read up to its first NUL. */
  function NodeReads(r: Rec): seq<Byte> {
    CString(Clipped(r.name))
  }

  /** The first k records do not read as name. */
  predicate NotRead(l: seq<Rec>, k: nat, name: seq<Byte>)
    requires k <= |l|
  {
    forall i :: 0 <= i < k ==> NodeReads(l[i]) != name
  }

  /** finddir by its position: the first record that reads as name. */
  lemma {:induction false} FindShortAt(l: seq<Rec>, k: nat, name: seq<Byte>)
    requires k <= |l| && NotRead(l, k, name) && (k < |l| ==> NodeReads(l[k]) == name)
    ensures FindShort(l, name) == if k < |l| then Present(l[k]) else Absent
  {
    if k > 0 {
      FindShortAt(l[1..], k - 1, name);
    }
  }

  lemma {:induction false} FindShortReads(l: seq<Rec>, name: seq<Byte>)
    ensures FindShort(l, name).Present? ==> NodeReads(FindShort(l, name).rec) == name
    ensures FindShort(l, name).Absent? ==> NotRead(l, |l|, name)
  {
    if l != [] && NodeReads(l[0]) != name {
      FindShortReads(l[1..], name);
    }
  }

  /**
   * The two searches agree on a listing exactly when the record the lookup finds reads as its own name in a node, and no
   * record before it reads as that name.
   */
  lemma SearchesAgreeWhen(l: seq<Rec>, name: seq<Byte>)
    ensures FindShort(l, name) == LookIn(l, name) <==>
              var k := FindName(l, name);
              NotRead(l, k, name) && (k < |l| ==> NodeReads(l[k]) == name)
  {
    var k := FindName(l, name);
    FindShortReads(l, name);
    if NotRead(l, k, name) {
      if k == |l| || NodeReads(l[k]) == name { FindShortAt(l, k, name); }
    } else {
      var i := FirstRead(l, k, name);
      FindShortAt(l, i, name);
      assert l[..k][i] == l[i];
    }
  }

  lemma FirstRead(l: seq<Rec>, k: nat, name: seq<Byte>) returns (i: nat)
    requires k <= |l| && !NotRead(l, k, name)
    ensures i < k && NotRead(l, i, name) && NodeReads(l[i]) == name
  {
    i := 0;
    while NodeReads(l[i]) != name
      invariant i < k && NotRead(l, i, name)
      decreases k - i
    {
      i := i + 1;
    }
  }

  /** A record whose name is too long for a node and starts with the given 63 bytes. */
  predicate Shadows(r: Rec, name: seq<Byte>) {
    |r.name| > NODE_NAME && r.name[..NODE_NAME] == name
  }

  predicate Shadowed(l: seq<Rec>, k: nat, name: seq<Byte>)
    requires k <= |l|
  {
    exists i :: 0 <= i < k && Shadows(l[i], name)
  }

  /**
   * With names free of NULs the searches agree exactly when the name found has at most 63 bytes and no longer name in
   * front of it starts with it: finddir misses long names, and finds them under their first 63 bytes.
   */
  lemma SearchesAgree(l: seq<Rec>, name: seq<Byte>)
    requires forall i :: 0 <= i < |l| ==> NulFree(l[i].name)
    ensures FindShort(l, name) == LookIn(l, name) <==>
              var k := FindName(l, name);
              (k < |l| ==> |name| <= NODE_NAME) && !Shadowed(l, k, name)
  {
    SearchesAgreeWhen(l, name);
    hide FindShort, LookIn, CString;
    forall i | 0 <= i < |l| ensures NodeReads(l[i]) == Clipped(l[i].name) {
      CStringWhole(Clipped(l[i].name));
    }
    var k := FindName(l, name);
    forall i | 0 <= i < k ensures NodeReads(l[i]) == name <==> Shadows(l[i], name) {
      assert l[..k][i] == l[i];
    }
  }

  /** Names of fewer than 63 bytes are looked up alike, whatever else the directory lists. */
  lemma ShortNamesAgree(l: seq<Rec>, name: seq<Byte>)
    requires (forall i :: 0 <= i < |l| ==> NulFree(l[i].name)) && |name| < NODE_NAME
    ensures FindShort(l, name) == LookIn(l, name)
  {
    SearchesAgree(l, name);
  }

  /** A listed long name is missed by finddir; under its first 63 bytes it is found although no entry has that name. */
  lemma LongNameIsMissed(l: seq<Rec>, k: nat)
    requires (forall i :: 0 <= i < |l| ==> NulFree(l[i].name)) && k < |l| && |l[k].name| > NODE_NAME
    ensures LookIn(l, l[k].name).Present? && FindShort(l, l[k].name) == Absent
    ensures FindShort(l, l[k].name[..NODE_NAME]).Present?
  {
    var name := l[k].name;
    FindShortReads(l, name);
    if FindShort(l, name).Present? { ShortCString(Clipped(FindShort(l, name).rec.name)); }
    var m := FindName(l, name);
    assert l[..|l|] == l;
    FindShortReads(l, name[..NODE_NAME]);
    CStringWhole(Clipped(name));
    assert NodeReads(l[k]) == name[..NODE_NAME];
  }

  lemma {:induction false} ShortCString(s: seq<Byte>)
    ensures |CString(s)| <= |s|
  {
    if s != [] { ShortCString(s[1..]); }
  }

  /** finddir in a directory of a volume. */
  function Finddir(v: Vol, dirIno: nat, name: seq<Byte>): Looked
    requires v.geo.Sizes()
  {
    if InodeNumber(v, dirIno) && IsDir(GetInode(v, dirIno)) then FindShort(Entries(v, GetInode(v, dirIno)), name) else Absent
  }

  /** The inode number a search answers with; nothing when it fails. */
  function Answer(found: Looked): int {
    match found case Present(r) => r.ino case Absent => -1
  }

  /** A name too long for a node and a later one that just fits stand for different inodes. */
  predicate LongNamesApart(l: seq<Rec>) {
    forall i, j :: 0 <= i < j < |l| && |l[i].name| > NODE_NAME && |l[j].name| == NODE_NAME ==> l[i].ino != l[j].ino
  }

  /** Where the searches find different records, the one found by finddir is too long for a node, and earlier. */
  lemma FoundApart(l: seq<Rec>, name: seq<Byte>)
    requires (forall i :: 0 <= i < |l| ==> NulFree(l[i].name)) && LongNamesApart(l)
    ensures Answer(FindShort(l, name)) == Answer(LookIn(l, name)) ==> FindShort(l, name) == LookIn(l, name)
  {
    var k := FindName(l, name);
    match FindShort(l, name)
    case Absent =>
    case Present(r) =>
      var i := FindShortPlace(l, name);
      CStringWhole(Clipped(l[i].name));
      if k < |l| {
        CStringWhole(Clipped(l[k].name));
        assert i < k ==> l[..k][i] == l[i];
      }
  }

  /** Where finddir finds what it finds. */
  lemma {:induction false} FindShortPlace(l: seq<Rec>, name: seq<Byte>) returns (i: nat)
    requires FindShort(l, name).Present?
    ensures i < |l| && FindShort(l, name) == Present(l[i]) && NodeReads(l[i]) == name && NotRead(l, i, name)
  {
    if NodeReads(l[0]) == name {
      return 0;
    }
    i := FindShortPlace(l[1..], name);
    i := i + 1;
  }

  /**
   * ext2_node_finddir against ext2_dir_lookup on a directory: the same inode or both none, exactly when the name found
   * fits a node and is not shadowed by a longer one in front.
   */
  lemma DirectorySearchesAgree(v: Vol, dirIno: nat, name: seq<Byte>)
    requires v.geo.Sizes() && InodeNumber(v, dirIno) && IsDir(GetInode(v, dirIno))
    requires var l := Entries(v, GetInode(v, dirIno));
             LongNamesApart(l) && forall i :: 0 <= i < |l| ==> NulFree(l[i].name)
    ensures Answer(Finddir(v, dirIno, name)) == Answer(DirLookup(v, dirIno, name)) <==>
              var l := Entries(v, GetInode(v, dirIno));
              var k := FindName(l, name);
              (k < |l| ==> |name| <= NODE_NAME) && !Shadowed(l, k, name)
  {
    hide Entries;
    var l := Entries(v, GetInode(v, dirIno));
    SearchesAgree(l, name);
    FoundApart(l, name);
  }
}
