/** Link counts and parent entries: what ext2_create_dir, ext2_remove_dir and ext2_rename keep for every directory. */
module Links {
  import opened Bytes
  import opened InodeCodec
  import opened VolumeState
  import opened BlockMap
  import opened FileMap
  import opened FileData
  import opened FileTheorems
  import opened DirRecords
  import opened DirData
  import opened DirOps
  import opened DirRemoval
  import opened FsOps
  import opened FsSteps
  import opened DirTheorems
  import opened AppendTheorems
  import opened EntryListings

  // ---------------------------------------------------------------- subdirectories of a listing

  /** A record that makes a directory a parent: a directory other than the dot entries. */
  predicate IsChild(r: Rec) {
    r.kind == KIND_DIR && r.name != DOT && r.name != DOTDOT
  }

  /** A record that gives a file its name. */
  predicate IsFile(r: Rec) {
    r.kind != KIND_DIR && r.name != DOT && r.name != DOTDOT
  }

  /** One of the two dot names: "." or, further up, "..". */
  predicate IsDot(r: Rec, up: bool) {
    r.name == if up then DOTDOT else DOT
  }

  /** A name that a C string can be, and not the empty one. */
  predicate Spelled(r: Rec) {
    r.name != [] && NulFree(r.name)
  }

  /**
   * What can be counted in a listing: all children, how often inode d is one, how often inode d is a file, the records of a
   * dot name, how often such a record is a directory's with inode d, and the records without a proper name.
   */
  datatype Sort = AnyChild | Child(d: nat) | File(d: nat) | Dot(up: bool) | DotTo(up: bool, d: nat) | Garbled

  function Weight(r: Rec, s: Sort): nat {
    match s
    case AnyChild => if IsChild(r) then 1 else 0
    case Child(d) => if IsChild(r) && r.ino == d then 1 else 0
    case File(d) => if IsFile(r) && r.ino == d then 1 else 0
    case Dot(up) => if IsDot(r, up) then 1 else 0
    case DotTo(up, d) => if IsDot(r, up) && r.ino == d && r.kind == KIND_DIR then 1 else 0
    case Garbled => if Spelled(r) then 0 else 1
  }

  function Tally(l: seq<Rec>, s: Sort): nat {
    if l == [] then 0 else Weight(l[0], s) + Tally(l[1..], s)
  }

  lemma {:induction false} TallyJoin(a: seq<Rec>, b: seq<Rec>, d: Sort)
    ensures Tally(a + b, d) == Tally(a, d) + Tally(b, d)
  {
    if a == [] {
      assert a + b == b;
    } else {
      assert (a + b)[1..] == a[1..] + b;
      TallyJoin(a[1..], b, d);
    }
  }

  lemma TallyInserted(l: seq<Rec>, m: seq<Rec>, k: nat, r: Rec, d: Sort)
    requires InsertedAt(l, m, k, r)
    ensures Tally(m, d) == Tally(l, d) + Weight(r, d)
  {
    assert l == l[..k] + l[k..];
    TallyJoin(l[..k], l[k..], d);
    TallyJoin(l[..k] + [r], l[k..], d);
    TallyJoin(l[..k], [r], d);
  }

  lemma TallyRemoved(l: seq<Rec>, m: seq<Rec>, k: nat, d: Sort)
    requires RemovedAt(l, m, k)
    ensures Tally(l, d) == Tally(m, d) + Weight(l[k], d)
  {
    assert l == m[..k] + [l[k]] + m[k..];
    TallyInserted(m, l, k, l[k], d);
  }

  lemma {:induction false} TallyAtLeast(l: seq<Rec>, k: nat, d: Sort)
    requires k < |l|
    ensures Tally(l, d) >= Weight(l[k], d)
  {
    if k > 0 { TallyAtLeast(l[1..], k - 1, d); }
  }

  // ---------------------------------------------------------------- directories that look alike

  /** Two inodes on two volumes that map the same blocks with the same contents. */
  ghost predicate Alike(v: Vol, n: Inode, w: Vol, m: Inode)
    requires v.geo.Sizes() && w.geo == v.geo
  {
    && m.size == n.size && m.blocks == n.blocks && m.mode == n.mode
    && (forall l: nat :: Lookup(w, m, l) == Lookup(v, n, l))
    && (forall l: nat :: Lookup(v, n, l) != 0 ==> Content(w, Lookup(v, n, l)) == Content(v, Lookup(v, n, l)))
  }

  lemma {:induction false} AlikeEnd(v: Vol, n: Inode, w: Vol, m: Inode, lo: nat, hi: nat)
    requires v.geo.Sizes() && w.geo == v.geo && lo <= hi && forall x: nat :: MappedAt(w, m, x) == MappedAt(v, n, x)
    ensures ReadEnd(w, m, lo, hi) == ReadEnd(v, n, lo, hi)
    decreases hi - lo
  {
    hide NextStart, MappedAt;
    SameUntilNext(lo, lo, v.geo.blockSize);
    if lo < hi && MappedAt(v, n, lo) && NextStart(lo, v.geo.blockSize) < hi {
      AlikeEnd(v, n, w, m, NextStart(lo, v.geo.blockSize), hi);
    }
  }

  /** Directories that look alike list the same, are equally whole, and name the same parent. */
  lemma AlikeDirs(v: Vol, n: Inode, w: Vol, m: Inode)
    requires v.geo.Sizes() && w.geo == v.geo && Alike(v, n, w, m)
    ensures Entries(w, m) == Entries(v, n) && HoleFree(w, m) == HoleFree(v, n) && DotDot(w, m) == DotDot(v, n)
    ensures DirBytes(w, m) == DirBytes(v, n) && (BlocksTiled(v, n) ==> BlocksTiled(w, m))
  {
    hide Lookup, ReadEnd, Tiled;
    var bs := v.geo.blockSize;
    forall x: nat
      ensures MappedAt(w, m, x) == MappedAt(v, n, x) && (MappedAt(v, n, x) ==> ByteAt(w, m, x) == ByteAt(v, n, x))
    {}
    AlikeEnd(v, n, w, m, 0, RoundUp(n.size, bs));
    ReadEndIsFirstHole(v, n, 0, RoundUp(n.size, bs));
    forall i | 0 <= i < DirEnd(v, n) ensures DirBytes(w, m)[i] == DirBytes(v, n)[i] {
      assert MappedAt(v, n, i);
    }
    assert DirBytes(w, m) == DirBytes(v, n);
  }

  /** The inode number in the record at offset 12 of a directory's first block. */
  function DotDot(v: Vol, n: Inode): nat
    requires v.geo.Sizes()
  {
    var c := Content(v, Lookup(v, n, 0));
    if Lookup(v, n, 0) != 0 && 12 + HEADER <= |c| then Ino(c, 12) else 0
  }

  lemma UntouchedAlike(v: Vol, w: Vol, ino: nat, j: nat)
    requires v.geo.Sizes() && Untouched(v, w, ino) && Live(v, j) && j != ino
    requires GetInode(w, j).block == GetInode(v, j).block && GetInode(w, j).size == GetInode(v, j).size
    requires GetInode(w, j).blocks == GetInode(v, j).blocks && GetInode(w, j).mode == GetInode(v, j).mode
    ensures w.geo == v.geo && Alike(v, GetInode(v, j), w, GetInode(w, j))
  {
    var n, m := GetInode(v, j), GetInode(w, j);
    forall l: nat
      ensures Lookup(w, m, l) == Lookup(v, n, l)
      ensures Lookup(v, n, l) != 0 ==> Content(w, Lookup(v, n, l)) == Content(v, Lookup(v, n, l))
    {
      DataPlace(PerTable(v), l);
      assert P(w, j, PlaceOf(PerTable(v), l)) == P(v, j, PlaceOf(PerTable(v), l)) == Lookup(v, n, l);
    }
  }

  lemma SameDataAlike(v: Vol, w: Vol, n: Inode, m: Inode)
    requires v.geo.Sizes() && w.geo == v.geo && w.data == v.data && m.block == n.block && m.size == n.size
    requires m.blocks == n.blocks && m.mode == n.mode
    ensures Alike(v, n, w, m)
  {
    forall l: nat ensures Lookup(w, m, l) == Lookup(v, n, l) {}
  }

  lemma AlikeTwice(u: Vol, a: Inode, v: Vol, n: Inode, w: Vol, m: Inode)
    requires u.geo.Sizes() && v.geo == u.geo && w.geo == u.geo && Alike(u, a, v, n) && Alike(v, n, w, m)
    ensures Alike(u, a, w, m)
  {
    hide Lookup;
  }

  // ---------------------------------------------------------------- the invariant

  /** A live directory. */
  predicate LiveDir(v: Vol, j: nat) {
    Live(v, j) && IsDir(GetInode(v, j))
  }

  /** links_count is two more than the number of children listed. */
  predicate LinksRight(v: Vol, j: nat)
    requires v.geo.Sizes() && InodeNumber(v, j)
  {
    GetInode(v, j).links == 2 + Tally(Entries(v, GetInode(v, j)), AnyChild)
  }

  /** Inode d is listed by j at most once, and only if it is a live directory whose ".." names j. */
  predicate ListsRight(v: Vol, j: nat, d: nat)
    requires v.geo.Sizes() && InodeNumber(v, j)
  {
    var c := Tally(Entries(v, GetInode(v, j)), Child(d));
    c <= 1 && (c == 1 ==> LiveDir(v, d) && DotDot(v, GetInode(v, d)) == j)
  }

  /** Each dot name is listed once, for the directory itself and the parent of offset 12, and every name is a C string. */
  predicate DotsRight(v: Vol, j: nat)
    requires v.geo.Sizes() && InodeNumber(v, j)
  {
    var l := Entries(v, GetInode(v, j));
    && GetInode(v, j).size % 4 == 0 && Tally(l, Garbled) == 0
    && Tally(l, Dot(false)) == 1 && Tally(l, DotTo(false, j)) == 1
    && Tally(l, Dot(true)) == 1 && Tally(l, DotTo(true, DotDot(v, GetInode(v, j)))) == 1
  }

  /** The parent is a live directory, which lists j unless j is its own parent. */
  predicate Housed(v: Vol, j: nat)
    requires v.geo.Sizes() && InodeNumber(v, j)
  {
    var up := DotDot(v, GetInode(v, j));
    LiveDir(v, up) && (up == j || Tally(Entries(v, GetInode(v, up)), Child(j)) == 1)
  }

  /** What holds of every live directory: link count, children, dot names and parent. */
  ghost predicate DirInOrder(v: Vol, j: nat)
    requires v.geo.Sizes() && InodeNumber(v, j)
  {
    LinksRight(v, j) && DotsRight(v, j) && Housed(v, j) && forall d: nat :: ListsRight(v, j, d)
  }

  ghost predicate Linked(v: Vol) {
    Sound(v) && forall j :: LiveDir(v, j) ==> DirInOrder(v, j)
  }

  /** A directory that is its own parent stays one. */
  ghost predicate RootsStay(v: Vol, w: Vol)
    requires v.geo.Sizes() && w.geo == v.geo
  {
    forall j :: LiveDir(v, j) && DotDot(v, GetInode(v, j)) == j ==> LiveDir(w, j) && DotDot(w, GetInode(w, j)) == j
  }

  // ---------------------------------------------------------------- the dot entries are found by name

  lemma DotsLookups(d: seq<Byte>, s: nat, bs: nat)
    requires BlockSize(bs) && DotsAt(d) && Tiled(d, 0, bs) && 24 <= s <= |d|
    ensures LookIn(Listing(d[..s], 0), DOT) != Absent
    ensures LookIn(Listing(d[..s], 0), DOTDOT) != Absent && LookIn(Listing(d[..s], 0), DOTDOT).rec.ino == Ino(d, 12)
  {
    hide Listing, Tiled, Ino, RecLen, NameLen, Name, LookIn;
    DotsVisits(d, 0, bs);
    var c := d[..s];
    PrefixRecord(d, 0, s);
    PrefixRecord(d, 12, s);
    ListingStep(c, 0);
    ListingStep(c, 12);
    var a, b := LiveAt(d, 0)[0], LiveAt(d, 12)[0];
    LookFirst(a, Listing(c, 12));
    LookSecond(a, b, Listing(c, 12 + RecLen(d, 12)));
  }

  lemma LookSecond(a: Rec, b: Rec, l: seq<Rec>)
    requires a.name != b.name
    ensures LookIn([a] + ([b] + l), b.name) == Present(b)
  {
    LookBehind([a], [b] + l, b.name);
    LookFirst(b, l);
  }

  /** In a directory that shows its first 24 bytes the dot names are found, ".." with the parent of the record at 12. */
  lemma DotDotListed(v: Vol, ino: nat)
    requires Sound(v) && LiveDir(v, ino) && v.geo.Sizes() && HoleFree(v, GetInode(v, ino)) && GetInode(v, ino).size >= 24
    ensures DirLookup(v, ino, DOT) != Absent
    ensures DirLookup(v, ino, DOTDOT) != Absent && DirLookup(v, ino, DOTDOT).rec.ino == DotDot(v, GetInode(v, ino))
  {
    hide Owned, Lookup, Tiled, BlocksTiled, DotsAt, Listing, LookIn, DirBytes, Visible, Ino, HoleFree, Sound, Geometry.Sizes;
    var n := GetInode(v, ino);
    SoundDirBytes(v, ino);
    var d := DirBytes(v, n);
    VisibleIsPrefix(v, n);
    DotsLookups(d, n.size, v.geo.blockSize);
    InoOfPart(d, v.geo.blockSize);
  }

  /** A sound directory without holes: its bytes reach its size, are tiled, and begin with the dot entries of its first block. */
  lemma SoundDirBytes(v: Vol, ino: nat)
    requires Sound(v) && LiveDir(v, ino) && v.geo.Sizes() && HoleFree(v, GetInode(v, ino)) && GetInode(v, ino).size >= 24
    ensures var n, d, bs := GetInode(v, ino), DirBytes(v, GetInode(v, ino)), v.geo.blockSize;
            BlockSize(bs) && n.size <= |d| && bs <= |d| && Tiled(d, 0, bs) && DotsAt(d)
            && Lookup(v, n, 0) != 0 && Content(v, Lookup(v, n, 0)) == d[0..bs]
  {
    hide Owned, Lookup, Tiled, BlocksTiled, DotsAt, DirBytes, ReadEnd;
    var n, bs := GetInode(v, ino), v.geo.blockSize;
    SoundSizes(v);
    SelfPut(v, ino);
    assert Editing(v, ino, n) by { SoundOwned(v); }
    SoundReady(v, ino);
    RoundUpAligned(n.size, bs);
    ReadEndIsFirstHole(v, n, 0, RoundUp(n.size, bs));
    assert |DirBytes(v, n)| >= n.size;
    FirstDirBlock(v, ino, n);
    DirTiled(v, ino, n);
    DotsWhole(DirBytes(v, n), bs);
  }

  lemma InoOfPart(d: seq<Byte>, bs: nat)
    requires BlockSize(bs) && bs <= |d|
    ensures Ino(d[0..bs], 12) == Ino(d, 12)
  {}

  /** A well-formed directory shows at least one block. */
  lemma WellFormedSize(v: Vol, ino: nat)
    requires Sound(v) && WellFormedDir(v, ino)
    ensures v.geo.Sizes() && InodeNumber(v, ino) && LiveDir(v, ino)
    ensures HoleFree(v, GetInode(v, ino)) && GetInode(v, ino).size >= 1024
  {
    hide Owned, Lookup, Tiled, DotsAt, BlocksTiled, Aligned;
    SoundSizes(v);
    WellFormedBasics(v, ino);
    AtLeastOne(GetInode(v, ino).size, v.geo.blockSize);
  }

  lemma AtLeastOne(size: nat, bs: nat)
    requires BlockSize(bs)
    ensures size / bs >= 1 ==> size >= 1024
  {
    if bs == 1024 {} else {}
  }

  // ---------------------------------------------------------------- what the entry operations do to the counts

  /** Directory j is still one, with the same parent entry and a size that is as good a multiple of four. */
  predicate SameRole(v: Vol, w: Vol, j: nat)
    requires v.geo.Sizes() && w.geo == v.geo && InodeNumber(v, j)
  {
    && LiveDir(w, j) && DotDot(w, GetInode(w, j)) == DotDot(v, GetInode(v, j))
    && GetInode(w, j).size % 4 == GetInode(v, j).size % 4
  }

  /** Directory j kept its link count, its parent entry, and what it lists of each sort. */
  ghost predicate SameLinks(v: Vol, w: Vol, j: nat)
    requires v.geo.Sizes() && w.geo == v.geo && InodeNumber(v, j)
  {
    && SameRole(v, w, j) && GetInode(w, j).links == GetInode(v, j).links
    && forall d: Sort :: Tally(Entries(w, GetInode(w, j)), d) == Tally(Entries(v, GetInode(v, j)), d)
  }

  /** The same as far as directories go: files may have come and gone. */
  ghost predicate SameChildren(v: Vol, w: Vol, j: nat)
    requires v.geo.Sizes() && w.geo == v.geo && InodeNumber(v, j)
  {
    && SameRole(v, w, j) && GetInode(w, j).links == GetInode(v, j).links
    && forall s: Sort :: !s.File? ==> Tally(Entries(w, GetInode(w, j)), s) == Tally(Entries(v, GetInode(v, j)), s)
  }

  lemma SameIsSameChildren(v: Vol, w: Vol, j: nat)
    requires v.geo.Sizes() && w.geo == v.geo && InodeNumber(v, j) && SameLinks(v, w, j)
    ensures SameChildren(v, w, j)
  {
    hide Entries, DotDot, Tally;
  }

  lemma AlikeLinks(v: Vol, w: Vol, j: nat)
    requires v.geo.Sizes() && w.geo == v.geo && LiveDir(v, j) && Live(w, j) && Alike(v, GetInode(v, j), w, GetInode(w, j))
    requires GetInode(w, j).links == GetInode(v, j).links
    ensures SameLinks(v, w, j)
  {
    hide Alike, Entries;
    AlikeDirs(v, GetInode(v, j), w, GetInode(w, j));
    AlikeMode(v, GetInode(v, j), w, GetInode(w, j));
  }

  lemma AlikeMode(v: Vol, n: Inode, w: Vol, m: Inode)
    requires v.geo.Sizes() && w.geo == v.geo && Alike(v, n, w, m)
    ensures m.mode == n.mode && m.size == n.size && m.blocks == n.blocks
  {}

  /** Operations on directory ino leave every other directory's links alone. */
  lemma KeptLinks(v: Vol, w: Vol, ino: nat, j: nat)
    requires v.geo.Sizes() && InodeNumber(v, ino) && DirKeeps(v, w, ino) && LiveDir(v, j) && j != ino
    ensures w.geo == v.geo && SameLinks(v, w, j)
  {
    hide Owned, Alike, SameLinks;
    KeptOthers(v, w, ino, j);
    UntouchedAlike(v, w, ino, j);
    AlikeLinks(v, w, j);
  }

  /** Directory ino of v with one entry more on w. */
  ghost predicate Gained(v: Vol, w: Vol, ino: nat, r: Rec)
    requires v.geo.Sizes() && w.geo == v.geo && InodeNumber(v, ino)
  {
    && SameRole(v, w, ino) && GetInode(w, ino).links == GetInode(v, ino).links
    && forall d: Sort :: Tally(Entries(w, GetInode(w, ino)), d) == Tally(Entries(v, GetInode(v, ino)), d) + Weight(r, d)
  }

  /** An added entry leaves the record at offset 12 alone, and the size a multiple of four if it was one. */
  lemma AddKeepsRole(v: Vol, ino: nat, name: seq<Byte>, child: Word32, kind: Byte)
    requires Parent(v, ino) && LiveDir(v, ino) && v.geo.Sizes() && DirReady(v, ino) && Nameable(name) && child != 0
    requires AddEntry(v, ino, name, child, kind).ok && GetInode(v, ino).size % 4 == 0
    ensures var w := AddEntry(v, ino, name, child, kind).v; w.geo == v.geo && SameRole(v, w, ino)
  {
    hide Owned, Lookup, Tiled, FirstFit, DirBytes, Append, BlocksTiled, Untouched, RoundUp, Extended, DotDot, Sound, FreshBlock,
         Split, DirReady, DotsAt, Visits, AddEntry, Aligned;
    AddSound(v, ino, name, child, kind);
    var w := AddEntry(v, ino, name, child, kind).v;
    SameLiveDir(v, w, ino, ino);
    SoundReady(v, ino);
    match FitOf(v, ino, name)
    case Hole => HoleFails(v, ino, name, child, kind);
    case Slot(p) => SlotKeepsParent(v, ino, name, child, kind, p);
    case AtEnd(p) =>
      AddEndKeeps(v, ino, name, child, kind, p);
      ExtendedParent(v, GetInode(v, ino), w, GetInode(w, ino), BlockCount(v, GetInode(v, ino)), LowestFree(v),
                     FreshBlock(v.geo.blockSize, child, name, kind));
      BlocksAreFours(p, v.geo.blockSize);
  }

  lemma BlocksAreFours(p: nat, bs: nat)
    requires BlockSize(bs)
    ensures (RoundUp(p, bs) + bs) % 0x1_0000_0000 % 4 == 0
  {
    hide RoundUp;
    RoundUpFours(p, bs);
    WrappedFours(RoundUp(p, bs), bs);
  }

  lemma RoundUpFours(p: nat, bs: nat)
    requires BlockSize(bs)
    ensures RoundUp(p, bs) % 4 == 0
  {
    var q := if bs == 1024 then (p + 1023) / 1024 else (p + 2047) / 2048;
    FourTimes(if bs == 1024 then q * 256 else q * 512, RoundUp(p, bs));
  }

  lemma FourTimes(q: nat, x: nat)
    requires x == 4 * q
    ensures x % 4 == 0
  {}

  lemma WrappedFours(x: nat, bs: nat)
    requires BlockSize(bs) && x % 4 == 0
    ensures (x + bs) % 0x1_0000_0000 % 4 == 0
  {
    var k := (x + bs) / 0x1_0000_0000;
    assert (x + bs) % 0x1_0000_0000 == x + bs - k * 0x1_0000_0000;
  }

  lemma ExtendedParent(v: Vol, n: Inode, w: Vol, m: Inode, k: nat, b: nat, c: Block)
    requires v.geo.Sizes() && w.geo == v.geo && Extended(v, n, w, m, k, b, c) && k > 0
    ensures DotDot(w, m) == DotDot(v, n)
  {
    hide Lookup;
  }

  lemma SlotKeepsParent(v: Vol, ino: nat, name: seq<Byte>, child: Word32, kind: Byte, p: nat)
    requires Parent(v, ino) && LiveDir(v, ino) && v.geo.Sizes() && DirReady(v, ino) && Nameable(name) && child != 0
    requires FitOf(v, ino, name) == Slot(p)
    ensures var w := AddEntry(v, ino, name, child, kind).v;
            w.geo == v.geo && w.inodes == v.inodes && DotDot(w, GetInode(v, ino)) == DotDot(v, GetInode(v, ino))
  {
    hide Owned, Lookup, Tiled, FirstFit, DirBytes, Append, BlocksTiled, Untouched, Split, DotsAt, Visits, Base, InsertedAt,
         Listing, Before, LiveAt, RecLen, Slack, Ino, NameLen;
    var n, bs := GetInode(v, ino), v.geo.blockSize;
    SelfPut(v, ino);
    assert Editing(v, ino, n) by { SoundOwned(v); }
    SoundReady(v, ino);
    SlotWritten(v, ino, name, child, kind, p);
    var d, w := DirBytes(v, n), AddEntry(v, ino, name, child, kind).v;
    SelfPut(w, ino);
    FirstDirBlock(v, ino, n);
    FirstDirBlock(w, ino, n);
    DotsWhole(d, bs);
    SplitKeepsSecond(d, p, bs, child, name, kind);
    InoOfPart(d, bs);
    InoOfPart(Split(d, p, child, name, kind), bs);
  }

  lemma SplitKeepsSecond(d: seq<Byte>, p: nat, bs: nat, child: Word32, name: seq<Byte>, kind: Byte)
    requires BlockSize(bs) && DotsAt(d) && Tiled(d, 0, bs) && Visits(d, 0, p) && p < |d| && p + HEADER <= |d|
    requires Nameable(name) && child != 0 && p + RecLen(d, p) <= |d| && Slack(d, p) >= Padded(|name|)
    ensures |d| >= 24 && Ino(Split(d, p, child, name, kind), 12) == Ino(d, 12)
  {
    hide DotsAt, Tiled, Split, Visits, LiveAt, RecLen, NameLen, Name;
    assert |d| >= 24 by { DotsLong(d); }
    DotsVisits(d, p, bs);
    SplitBytes(d, p, child, name, kind);
  }

  lemma DotsLong(d: seq<Byte>)
    requires DotsAt(d)
    ensures |d| >= 24
  {}

  /** An added entry is one entry more, or none that readers come by. */
  lemma AddLinks(v: Vol, ino: nat, name: seq<Byte>, child: Word32, kind: Byte)
    requires Parent(v, ino) && LiveDir(v, ino) && v.geo.Sizes() && DirReady(v, ino) && Nameable(name) && child != 0
    requires AddEntry(v, ino, name, child, kind).ok && GetInode(v, ino).size % 4 == 0
    requires DirLookup(v, ino, name) == Absent && AddsOnly(v, ino, name)
    ensures var w := AddEntry(v, ino, name, child, kind).v;
            w.geo == v.geo && Sound(w) && DirKeeps(v, w, ino) &&
            if Shows(v, ino, name) then Gained(v, w, ino, Rec(child, name, kind)) else SameLinks(v, w, ino)
  {
    hide Owned, AddEntry, LookIn, Entries, BlocksTiled, InsertedAt, DotDot, Untouched, Lookup, AddsOnly, Shows, Sound;
    var w, r := AddEntry(v, ino, name, child, kind).v, Rec(child, name, kind);
    AddSound(v, ino, name, child, kind);
    AddKeepsRole(v, ino, name, child, kind);
    var k := AddLists(v, ino, name, child, kind);
    if Shows(v, ino, name) {
      forall d: Sort
        ensures Tally(Entries(w, GetInode(w, ino)), d) == Tally(Entries(v, GetInode(v, ino)), d) + Weight(r, d)
      {
        TallyInserted(Entries(v, GetInode(v, ino)), Entries(w, GetInode(w, ino)), k, r, d);
      }
    }
    KeepsLinks(v, w, ino);
  }

  /** In a whole directory with room it is one entry more, and the directory stays whole. */
  lemma AddToWhole(v: Vol, ino: nat, name: seq<Byte>, child: Word32, kind: Byte)
    requires Sound(v) && HasRoom(v, ino) && DirReady(v, ino) && Nameable(name) && child != 0
    requires BlockCount(v, GetInode(v, ino)) < DIRECT + TABLE_BUFFER && AddEntry(v, ino, name, child, kind).ok
    requires DirLookup(v, ino, name) == Absent
    ensures var w := AddEntry(v, ino, name, child, kind).v;
            w.geo == v.geo && Sound(w) && DirKeeps(v, w, ino) && WellFormedDir(w, ino) && Gained(v, w, ino, Rec(child, name, kind))
  {
    hide Owned, AddEntry, LookIn, Entries, HasRoom, BlocksTiled, InsertedAt, DotDot, Untouched, Lookup, AddsOnly, Shows, Sound, Gained,
         HoleFree, DirReady;
    RoomParts(v, ino);
    WellFormedSize(v, ino);
    AlignedIsFours(GetInode(v, ino).size, v.geo.blockSize);
    RoomAddsOnly(v, ino, name);
    if FitOf(v, ino, name) == Hole { HoleFails(v, ino, name, child, kind); }
    AddLinks(v, ino, name, child, kind);
    var k := AddInserts(v, ino, name, child, kind);
  }

  lemma AlignedIsFours(x: nat, bs: nat)
    requires BlockSize(bs) && Aligned(x, bs)
    ensures x % 4 == 0
  {
    if bs == 1024 { FourTimes(x / 1024 * 256, x); } else { FourTimes(x / 2048 * 512, x); }
  }

  lemma KeepsLinks(v: Vol, w: Vol, ino: nat)
    requires InodeNumber(v, ino) && DirKeeps(v, w, ino)
    ensures InodeNumber(w, ino) && GetInode(w, ino).links == GetInode(v, ino).links && GetInode(w, ino).mode == GetInode(v, ino).mode
    ensures w.live == v.live
  {}

  lemma RoomParts(v: Vol, ino: nat)
    requires HasRoom(v, ino) && Sound(v)
    ensures WellFormedDir(v, ino) && Parent(v, ino)
  {}

  /** Directory ino of v with the entry r fewer on w. */
  ghost predicate Lost(v: Vol, w: Vol, ino: nat, r: Rec)
    requires v.geo.Sizes() && w.geo == v.geo && InodeNumber(v, ino)
  {
    && SameRole(v, w, ino) && GetInode(w, ino).links == GetInode(v, ino).links
    && forall d: Sort :: Tally(Entries(v, GetInode(v, ino)), d) == Tally(Entries(w, GetInode(w, ino)), d) + Weight(r, d)
  }

  /** The dot records stand first, so a record of another name begins behind them. */
  lemma RemovedBehindDots(v: Vol, ino: nat, name: seq<Byte>, p: nat, prev: int)
    requires Sound(v) && LiveDir(v, ino) && DirReady(v, ino) && v.geo.Sizes() && name != DOT && name != DOTDOT
    requires FindPos(DirBytes(v, GetInode(v, ino)), GetInode(v, ino).size, name, 0, -1) == At(p, prev)
    ensures p >= 24 && DotsAt(DirBytes(v, GetInode(v, ino)))
  {
    hide Owned, Lookup, Tiled, BlocksTiled, DotsAt, Listing, DirBytes, ReadEnd, FindPos, Visits, Name, Before;
    var n, bs := GetInode(v, ino), v.geo.blockSize;
    SelfPut(v, ino);
    SoundSizes(v);
    PickedRecord(v, ino, name, p, prev);
    SoundReady(v, ino);
    assert Editing(v, ino, n) by { SoundOwned(v); }
    FirstDirBlock(v, ino, n);
    var d := DirBytes(v, n);
    DotsWhole(d, bs);
    DotsVisits(d, p, bs);
    DotsNamed(d);
  }

  /** Sizes go down by the length of a record. */
  lemma RemovedIsFours(v: Vol, ino: nat, name: seq<Byte>, p: nat, prev: int)
    requires LiveDir(v, ino) && v.geo.Sizes() && DirReady(v, ino) && RemoveEntry(v, ino, name).ok
    requires FindPos(DirBytes(v, GetInode(v, ino)), GetInode(v, ino).size, name, 0, -1) == At(p, prev)
    ensures var w := RemoveEntry(v, ino, name).v;
            InodeNumber(w, ino) && (GetInode(v, ino).size % 4 == 0 ==> GetInode(w, ino).size % 4 == 0)
  {
    hide DirReady, FindPos, DirBytes, RemoveEntry, Tiled, RecLen, Visits, Before, Unnamed, Name, Precedes, Aligned;
    PickedRecord(v, ino, name, p, prev);
    SizeAfterRemoval(v, ino, name, p, prev);
    RecordIsFours(DirBytes(v, GetInode(v, ino)), p, v.geo.blockSize);
  }

  lemma RecordIsFours(d: seq<Byte>, p: nat, bs: nat)
    requires BlockSize(bs) && Tiled(d, 0, bs) && Visits(d, 0, p) && p < |d|
    ensures p + HEADER <= |d| && RecLen(d, p) % 4 == 0
  {
    TiledFrom(d, 0, p, bs);
  }

  /** A removed entry leaves the record at offset 12 alone. */
  lemma RemoveKeepsParent(v: Vol, ino: nat, name: seq<Byte>, p: nat, prev: int)
    requires Sound(v) && LiveDir(v, ino) && v.geo.Sizes() && DirReady(v, ino) && RemoveEntry(v, ino, name).ok
    requires name != DOT && name != DOTDOT
    requires FindPos(DirBytes(v, GetInode(v, ino)), GetInode(v, ino).size, name, 0, -1) == At(p, prev)
    ensures var w := RemoveEntry(v, ino, name).v;
            w.geo == v.geo && InodeNumber(w, ino) && DotDot(w, GetInode(w, ino)) == DotDot(v, GetInode(v, ino))
  {
    hide Owned, Lookup, Tiled, FindPos, DirBytes, BlocksTiled, Untouched, Erase, DotsAt, Visits, Base, Before, RecLen, Ino, NameLen,
         Name, Aligned, Precedes, LookIn, Entries;
    var n, bs := GetInode(v, ino), v.geo.blockSize;
    SelfPut(v, ino);
    assert Editing(v, ino, n) by { SoundOwned(v); }
    PickedRecord(v, ino, name, p, prev);
    RemovedBehindDots(v, ino, name, p, prev);
    EraseWritten(v, ino, name, p, prev);
    var d, u, w := DirBytes(v, n), EraseAt(v, ino, name, p, prev), RemoveEntry(v, ino, name).v;
    SelfPut(u, ino);
    FirstDirBlock(v, ino, n);
    FirstDirBlock(u, ino, n);
    EraseKeepsSecond(d, p, prev, bs);
    InoOfPart(d, bs);
    InoOfPart(Erase(d, p, prev, bs), bs);
    SameDataDotDot(u, w, n, GetInode(w, ino));
  }

  lemma SameDataDotDot(v: Vol, w: Vol, n: Inode, m: Inode)
    requires v.geo.Sizes() && w.geo == v.geo && w.data == v.data && m.block == n.block
    ensures DotDot(w, m) == DotDot(v, n)
  {}

  lemma EraseKeepsSecond(d: seq<Byte>, p: nat, prev: int, bs: nat)
    requires BlockSize(bs) && DotsAt(d) && Tiled(d, 0, bs) && Visits(d, 0, p) && 24 <= p < |d| && p + HEADER <= |d|
    requires prev >= 0 ==> Precedes(d, prev, p) && Visits(d, 0, prev)
    requires prev >= 0 && prev / bs == p / bs ==> RecLen(d, prev) + RecLen(d, p) < 0x1_0000
    ensures |d| >= 24 && Ino(Erase(d, p, prev, bs), 12) == Ino(d, 12)
  {
    hide DotsAt, Tiled, Merge, Tombstone, Visits, LiveAt, RecLen, NameLen, Name;
    DotsLong(d);
    if prev >= 0 && prev / bs == p / bs {
      DotsVisits(d, prev, bs);
      NamesFit(d, prev, bs);
      FirstIsShort(d);
      MergeBytes(d, prev, p);
    } else {
      TombstoneBytes(d, p);
    }
  }

  lemma FirstIsShort(d: seq<Byte>)
    requires DotsAt(d)
    ensures RecLen(d, 0) == 12
  {}

  lemma DotsNamed(d: seq<Byte>)
    requires DotsAt(d)
    ensures Name(d, 0) == DOT && Name(d, 12) == DOTDOT
  {}

  /** A removed entry is one entry fewer. */
  lemma RemoveLinks(v: Vol, ino: nat, name: seq<Byte>)
    requires Sound(v) && LiveDir(v, ino) && DirReady(v, ino) && v.geo.Sizes() && RemoveEntry(v, ino, name).ok
    requires RemovesOnly(v, ino, name) && GetInode(v, ino).size % 4 == 0
    ensures DirLookup(v, ino, name) != Absent && name != DOT && name != DOTDOT
    ensures var w, rec := RemoveEntry(v, ino, name).v, DirLookup(v, ino, name).rec;
            w.geo == v.geo && Sound(w) && DirKeeps(v, w, ino) && Lost(v, w, ino, rec) && rec.name == name
            && FindName(Entries(v, GetInode(v, ino)), name) < |Entries(v, GetInode(v, ino))|
            && rec == Entries(v, GetInode(v, ino))[FindName(Entries(v, GetInode(v, ino)), name)]
  {
    hide Owned, RemoveEntry, LookIn, Entries, BlocksTiled, RemovedAt, FindPos, DirBytes, FindName, RecLen, DotDot, Untouched, Lookup,
         RemovesOnly, DirReady;
    var w := RemoveEntry(v, ino, name).v;
    var p, prev := RemovalFound(v, ino, name);
    RemoveSound(v, ino, name);
    RemoveLists(v, ino, name, p, prev);
    FoundAt(Entries(v, GetInode(v, ino)), name);
    var l, m, k := Entries(v, GetInode(v, ino)), Entries(w, GetInode(w, ino)), FindName(Entries(v, GetInode(v, ino)), name);
    forall d: Sort ensures Tally(l, d) == Tally(m, d) + Weight(l[k], d) {
      TallyRemoved(l, m, k, d);
    }
    RemovedIsFours(v, ino, name, p, prev);
    RemoveKeepsParent(v, ino, name, p, prev);
    KeepsLinks(v, w, ino);
  }

  /** Editing one directory leaves every inode what it was: a live directory or not. */
  lemma SameLiveDir(v: Vol, w: Vol, ino: nat, j: nat)
    requires InodeNumber(v, ino) && DirKeeps(v, w, ino)
    ensures LiveDir(w, j) <==> LiveDir(v, j)
    ensures |w.inodes| == |v.inodes| && w.live == v.live && w.geo == v.geo
  {}

  // ---------------------------------------------------------------- files elsewhere

  /** Whatever is a live inode and no directory stays one, with the possible exception of inode but. */
  ghost predicate FilesStay(v: Vol, w: Vol, but: nat) {
    forall i :: Live(v, i) && !IsDir(GetInode(v, i)) && i != but ==> Live(w, i) && !IsDir(GetInode(w, i))
  }

  lemma KeptFiles(v: Vol, w: Vol, ino: nat)
    requires LiveDir(v, ino) && DirKeeps(v, w, ino)
    ensures FilesStay(v, w, 0)
  {
    hide Owned, Untouched;
    KeepsBasics(v, w, ino);
  }

  lemma FilesStayTwice(u: Vol, v: Vol, w: Vol, a: nat, b: nat)
    requires FilesStay(u, v, a) && FilesStay(v, w, b)
    ensures a == 0 ==> FilesStay(u, w, b)
    ensures b == 0 ==> FilesStay(u, w, a)
  {}

  /** How often directory j lists inode d as a file. */
  function FileCount(v: Vol, j: nat, d: nat): nat
    requires v.geo.Sizes() && InodeNumber(v, j)
  {
    Tally(Entries(v, GetInode(v, j)), File(d))
  }

  /**
   * Every directory lists the files it listed, but directory p gained inode d and directory q lost it (0 for nobody);
   * new directories list no files.
   */
  ghost predicate FilesMoved(v: Vol, w: Vol, p: nat, q: nat, d: nat)
    requires v.geo.Sizes() && w.geo == v.geo
  {
    forall j, x: nat :: LiveDir(w, j) ==>
      if LiveDir(v, j) then
        FileCount(w, j, x) + (if j == q && x == d then 1 else 0) == FileCount(v, j, x) + (if j == p && x == d then 1 else 0)
      else FileCount(w, j, x) == 0
  }

  lemma SameCounts(v: Vol, w: Vol, j: nat, x: nat)
    requires v.geo.Sizes() && w.geo == v.geo && InodeNumber(v, j) && SameLinks(v, w, j)
    ensures FileCount(w, j, x) == FileCount(v, j, x)
  {
    hide Entries, Tally, DotDot;
  }

  lemma GainedCounts(v: Vol, w: Vol, j: nat, r: Rec, x: nat)
    requires v.geo.Sizes() && w.geo == v.geo && InodeNumber(v, j) && Gained(v, w, j, r)
    ensures FileCount(w, j, x) == FileCount(v, j, x) + if IsFile(r) && r.ino == x then 1 else 0
  {
    hide Entries, Tally, DotDot;
  }

  lemma LostCounts(v: Vol, w: Vol, j: nat, r: Rec, x: nat)
    requires v.geo.Sizes() && w.geo == v.geo && InodeNumber(v, j) && Lost(v, w, j, r)
    ensures FileCount(v, j, x) == FileCount(w, j, x) + if IsFile(r) && r.ino == x then 1 else 0
  {
    hide Entries, Tally, DotDot;
  }
}
