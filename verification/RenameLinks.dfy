/** ext2_rename and the link bookkeeping: within one directory, and from one directory to another. */
module RenameLinks {
  import opened Bytes
  import opened InodeCodec
  import opened VolumeState
  import opened BlockMap
  import opened FileData
  import opened FileTheorems
  import opened DirRecords
  import opened DirData
  import opened DirOps
  import opened DirRemoval
  import opened FsOps
  import opened FsSteps
  import opened DirTheorems
  import opened EntryListings
  import opened Links
  import opened LinkTheorems

  // ---------------------------------------------------------------- the name search survives an insertion

  /** Records before p, tombstones included, are found as before when only bytes from p on change. */
  lemma {:induction false} FindPosExtends(d: seq<Byte>, e: seq<Byte>, size: nat, more: nat, name: seq<Byte>, p: nat, prev: int, bs: nat)
    requires BlockSize(bs) && |d| <= |e| && e[..|d|] == d && Tiled(d, p, bs) && size <= more
    requires FindPos(d, size, name, p, prev).At?
    ensures FindPos(e, more, name, p, prev) == FindPos(d, size, name, p, prev)
    decreases size - p
  {
    hide Ino, InBlock, Padded, RecLen, NameLen, Name, Tiled;
    TiledStep(d, p, bs);
    RecordBasics(d, p, bs);
    NameEnds(d, p);
    SameNames(d, e, p);
    if Name(d, p) != name {
      FindPosExtends(d, e, size, more, name, p + RecLen(d, p), p, bs);
    }
  }

  lemma NameEnds(d: seq<Byte>, p: nat)
    requires p + HEADER <= |d| && RecLen(d, p) >= Padded(NameLen(d, p)) && p + RecLen(d, p) <= |d|
    ensures p + HEADER + NameLen(d, p) <= |d|
  {}

  lemma SameNames(d: seq<Byte>, e: seq<Byte>, p: nat)
    requires p + HEADER <= |d| <= |e| && p + HEADER + NameLen(d, p) <= |d|
    requires e[..|d|] == d
    ensures RecLen(e, p) == RecLen(d, p) && NameLen(e, p) == NameLen(d, p) && Name(e, p) == Name(d, p) && Ino(e, p) == Ino(d, p)
  {
    assert forall i {:trigger e[i]} {:trigger d[i]} :: 0 <= i < |d| ==> e[..|d|][i] == e[i];
    assert e[p + HEADER..p + HEADER + NameLen(d, p)] == d[p + HEADER..p + HEADER + NameLen(d, p)];
  }

  /** Behind the split the records are the old ones. */
  lemma {:induction false} FindPosSuffix(d: seq<Byte>, e: seq<Byte>, size: nat, name: seq<Byte>, p: nat, prev: int, other: int)
    requires SameFrom(d, e, p)
    ensures match FindPos(d, size, name, p, prev)
            case At(q, r) => FindPos(e, size, name, p, other).At? && FindPos(e, size, name, p, other).p == q && q >= p
            case Missing => FindPos(e, size, name, p, other) == Missing
    decreases size - p
  {
    hide Ino, NameLen, Le16, LiveAt;
    if p < size && p + HEADER <= |d| {
      SameSuffixName(d, e, p);
      if RecLen(d, p) != 0 && Name(d, p) != name {
        FindPosSuffix(d, e, size, name, p + RecLen(d, p), p, p);
      }
    }
  }

  lemma SameSuffixName(d: seq<Byte>, e: seq<Byte>, p: nat)
    requires SameFrom(d, e, p) && p + HEADER <= |d|
    ensures RecLen(e, p) == RecLen(d, p) && Name(e, p) == Name(d, p) && Ino(e, p) == Ino(d, p)
  {
    assert e[p..] == d[p..];
    assert forall i {:trigger e[i]} :: p <= i < |d| ==> e[i] == d[i];
    assert e[p + HEADER..] == d[p + HEADER..];
    if p + HEADER + NameLen(d, p) <= |d| {
      assert e[p + HEADER..p + HEADER + NameLen(d, p)] == d[p + HEADER..p + HEADER + NameLen(d, p)];
    }
  }

  /** A split leaves the record picked under another name where it was. */
  lemma {:induction false} FindPosSplit(d: seq<Byte>, s: nat, p: nat, size: nat, name: seq<Byte>, prev: int, bs: nat,
                                        child: Word32, added: seq<Byte>, kind: Byte)
    requires BlockSize(bs) && Tiled(d, s, bs) && Visits(d, s, p) && p < |d| && p + HEADER <= |d| && p + RecLen(d, p) <= |d|
    requires Nameable(added) && child != 0 && Slack(d, p) >= Padded(|added|) && added != name && FindPos(d, size, name, s, prev).At?
    ensures var e, x := Split(d, p, child, added, kind), FindPos(d, size, name, s, prev).p;
            FindPos(e, size, name, s, prev).At? && FindPos(e, size, name, s, prev).p == x
            && x + HEADER <= |d| && Ino(e, x) == Ino(d, x)
    decreases |d| - s
  {
    hide Ino, InBlock, Padded, NameLen, Name, LiveAt, Split, RecLen, Slack;
    var e := Split(d, p, child, added, kind);
    SplitBytes(d, p, child, added, kind);
    TiledStep(d, s, bs);
    RecordBasics(d, s, bs);
    if s == p {
      FindPosAtSplit(d, p, size, name, prev, bs, child, added, kind);
    } else {
      BeforeSplit(d, e, s, p, bs);
      if Name(d, s) != name {
        FindPosSplit(d, s + RecLen(d, s), p, size, name, s, bs, child, added, kind);
      }
    }
  }

  lemma BeforeSplit(d: seq<Byte>, e: seq<Byte>, s: nat, p: nat, bs: nat)
    requires BlockSize(bs) && Tiled(d, s, bs) && Visits(d, s, p) && s < p <= |d| && SameBetween(d, e, 0, p)
    ensures s + HEADER <= |d| && RecLen(e, s) == RecLen(d, s) && Name(e, s) == Name(d, s) && Ino(e, s) == Ino(d, s)
    ensures Visits(d, s + RecLen(d, s), p) && s + RecLen(d, s) <= p
  {
    hide InBlock, Le16;
    TiledFrom(d, s + RecLen(d, s), p, bs);
    assert d[..p] == e[..p];
    NameEnds(d, s);
    SameNames(d[..p], d, s);
    SameNames(d[..p], e, s);
  }

  lemma FindPosAtSplit(d: seq<Byte>, p: nat, size: nat, name: seq<Byte>, prev: int, bs: nat, child: Word32, added: seq<Byte>, kind: Byte)
    requires BlockSize(bs) && Tiled(d, p, bs) && p < |d| && p + HEADER <= |d| && p + RecLen(d, p) <= |d|
    requires Nameable(added) && child != 0 && Slack(d, p) >= Padded(|added|) && added != name && FindPos(d, size, name, p, prev).At?
    ensures var e, x := Split(d, p, child, added, kind), FindPos(d, size, name, p, prev).p;
            FindPos(e, size, name, p, prev).At? && FindPos(e, size, name, p, prev).p == x
            && x + HEADER <= |d| && Ino(e, x) == Ino(d, x)
  {
    hide Ino, InBlock, Padded, NameLen, Name, LiveAt, Split, RecLen, Tiled;
    var e, q, n := Split(d, p, child, added, kind), p + Padded(NameLen(d, p)), p + RecLen(d, p);
    SplitBytes(d, p, child, added, kind);
    SplitName(d, p, child, added, kind);
    if Name(d, p) != name {
      FindPosSuffix(d, e, size, name, n, p, q);
      FindPosIsFull(d, size, name, n, p, bs) by { TiledStep(d, p, bs); }
      var x := FindPos(d, size, name, n, p).p;
      SameSuffixName(d, e, x) by { SameFromLater(d, e, n, x); }
      assert FindPos(e, size, name, q, p) == FindPos(e, size, name, n, q);
    }
  }

  lemma FindPosIsFull(d: seq<Byte>, size: nat, name: seq<Byte>, p: nat, prev: int, bs: nat)
    requires BlockSize(bs) && Tiled(d, p, bs) && FindPos(d, size, name, p, prev).At?
    ensures var x := FindPos(d, size, name, p, prev).p; p <= x && x + HEADER <= |d| && x < size
  {
    FindPosFinds(d, size, name, p, prev, bs);
    TiledFrom(d, p, FindPos(d, size, name, p, prev).p, bs);
  }

  /** The two records of a split: the old name, and the new one. */
  lemma SplitName(d: seq<Byte>, p: nat, child: Word32, added: seq<Byte>, kind: Byte)
    requires p + HEADER <= |d| && p + RecLen(d, p) <= |d| && Nameable(added) && child != 0 && Slack(d, p) >= Padded(|added|)
    ensures var e, q := Split(d, p, child, added, kind), p + Padded(NameLen(d, p));
            Name(e, p) == Name(d, p) && q + HEADER <= |e| && Name(e, q) == added && q < p + RecLen(d, p)
            && RecLen(e, q) == p + RecLen(d, p) - q
  {
    hide RecLen, NameLen, Split;
    var e, q := Split(d, p, child, added, kind), p + Padded(NameLen(d, p));
    SplitBytes(d, p, child, added, kind);
    SplitKeepsName(d, p, child, added, kind);
    assert LiveAt(e, q)[0].name == Name(e, q);
    assert e[p + HEADER..p + HEADER + NameLen(d, p)] == d[p + HEADER..p + HEADER + NameLen(d, p)];
  }

  /** In a well-formed directory a name that is listed is also what the removal's search finds. */
  lemma ListedIsFound(v: Vol, ino: nat, name: seq<Byte>)
    requires WellFormedDir(v, ino) && v.geo.Sizes() && InodeNumber(v, ino) && DirLookup(v, ino, name) != Absent
    ensures var d, n := DirBytes(v, GetInode(v, ino)), GetInode(v, ino);
            BlockSize(v.geo.blockSize) && Tiled(d, 0, v.geo.blockSize) && |d| == n.size && FindPos(d, n.size, name, 0, -1).At?
  {
    hide Owned, Lookup, Tiled, BlocksTiled, DirBytes, Visible, Listing, LookIn, HoleFree, FindPos, Aligned;
    var n := GetInode(v, ino);
    WellFormedBasics(v, ino);
    OwnedSizes(v, ino);
    SelfPut(v, ino);
    WholeDir(v, n);
    DirTiled(v, ino, n);
    AbsentIsUnnamed(Listing(Visible(v, n), 0), name);
    FindPosFinds(DirBytes(v, n), n.size, name, 0, -1, v.geo.blockSize);
  }

  /** Adding another name leaves the picked record of a listed name alone: it is live after if it was live before. */
  lemma AddKeepsPicked(v: Vol, ino: nat, added: seq<Byte>, child: Word32, kind: Byte, name: seq<Byte>)
    requires HasRoom(v, ino) && DirReady(v, ino) && Nameable(added) && child != 0 && added != name
    requires v.geo.Sizes() && InodeNumber(v, ino) && BlockCount(v, GetInode(v, ino)) < DIRECT + TABLE_BUFFER
    requires AddEntry(v, ino, added, child, kind).ok && DirLookup(v, ino, name) != Absent && NoTombstoneFirst(v, ino, name)
    ensures var w := AddEntry(v, ino, added, child, kind).v;
            w.geo == v.geo && InodeNumber(w, ino) && NoTombstoneFirst(w, ino, name)
  {
    hide Owned, Lookup, Tiled, BlocksTiled, DirBytes, Visible, Listing, LookIn, FindPos, Append, FirstFit, Split, FreshBlock,
         WriteDirBlock, Entries, Untouched, RoundUp, HoleFree, Aligned, Ino;
    var n, bs := GetInode(v, ino), v.geo.blockSize;
    assert WellFormedDir(v, ino);
    ListedIsFound(v, ino, name);
    WholeParts(v, ino);
    AddKeeps(v, ino, added, child, kind);
    var w, d := AddEntry(v, ino, added, child, kind).v, DirBytes(v, n);
    match FitOf(v, ino, added)
    case Hole =>
    case Slot(p) =>
      SlotWritten(v, ino, added, child, kind, p);
      FindPosSplit(d, 0, p, n.size, name, -1, bs, child, added, kind);
    case AtEnd(p) =>
      WholeDir(v, n);
      FirstFitFinds(d, n.size, Padded(|added|), 0, bs);
      RoundUpAligned(p, bs);
      AddEndKeeps(v, ino, added, child, kind, p);
      var c := FreshBlock(bs, child, added, kind);
      AppendedBytes(v, n, w, GetInode(w, ino), LowestFree(v), c);
      FindPosExtends(d, d + c, n.size, GetInode(w, ino).size, name, 0, -1, bs);
      FindPosIsFull(d, n.size, name, 0, -1, bs);
      var x := FindPos(d, n.size, name, 0, -1).p;
      InoOfJoin(d, c, x);
  }

  lemma WholeParts(v: Vol, ino: nat)
    requires WellFormedDir(v, ino) && v.geo.Sizes() && InodeNumber(v, ino)
    ensures IsDir(GetInode(v, ino)) && HoleFree(v, GetInode(v, ino)) && Aligned(GetInode(v, ino).size, v.geo.blockSize)
    ensures BlockCount(v, GetInode(v, ino)) == GetInode(v, ino).size / v.geo.blockSize
  {}

  lemma InoOfJoin(d: seq<Byte>, c: seq<Byte>, x: nat)
    requires x + HEADER <= |d|
    ensures Ino(d + c, x) == Ino(d, x)
  {}

  // ---------------------------------------------------------------- the moved directory's parent entry

  /** Directory c of v with its parent entry pointed at np. */
  ghost predicate NewParent(v: Vol, w: Vol, c: nat, np: nat)
    requires v.geo.Sizes() && w.geo == v.geo && InodeNumber(v, c)
  {
    && LiveDir(w, c) && GetInode(w, c).links == GetInode(v, c).links && GetInode(w, c).size == GetInode(v, c).size
    && DotDot(w, GetInode(w, c)) == np
    && var l, m := Entries(v, GetInode(v, c)), Entries(w, GetInode(w, c));
       (forall s: Sort :: !s.DotTo? || !s.up ==> Tally(m, s) == Tally(l, s)) &&
       (Tally(l, Dot(true)) == 1 && Tally(l, DotTo(true, DotDot(v, GetInode(v, c)))) == 1 ==> Tally(m, DotTo(true, np)) == 1)
  }

  /** Pointing ".." elsewhere changes no child of the directory and nothing about any other. */
  lemma ReparentLinks(v: Vol, c: nat, np: Word32)
    requires Sound(v) && WellFormedDir(v, c) && np != 0 && v.geo.Sizes() && LiveDir(v, c)
    ensures var w := Reparent(v, c, np);
            w.geo == v.geo && w.inodes == v.inodes && w.live == v.live && NewParent(v, w, c, np)
            && (forall j :: LiveDir(v, j) && j != c ==> Alike(v, GetInode(v, j), w, GetInode(w, j)))
  {
    hide Owned, Lookup, Tiled, BlocksTiled, DirBytes, Listing, DotsAt, Untouched, ReadEnd, ByteAt, DirSound, Alike, Ino,
         RecLen, LiveAt, Tally, FileBytes, HoleFree, Aligned, Base;
    var n, bs := GetInode(v, c), v.geo.blockSize;
    SoundSizes(v);
    SoundOwned(v);
    SelfPut(v, c);
    SoundReady(v, c);
    WholeParts(v, c);
    WellFormedSize(v, c);
    FirstBlockOf(v, c);
    WholeDir(v, n);
    DirTiled(v, c, n);
    FirstDirBlock(v, c, n);
    var d := DirBytes(v, n);
    DotsWhole(d, bs);
    RepointedReads(d, np, bs);
    var e := Repointed(d, np);
    RepointedBlock(d, np, bs);
    DirWritten(v, c, n, e, 12);
    var w := Reparent(v, c, np);
    assert w == WriteDirBlock(v, n, e, 12);
    SelfPut(w, c);
    SameMapped(v, w, n);
    HoleFreeBy(v, w, n);
    WholeDir(w, n);
    DotDotOf(w, n, e, bs) by { FirstDirBlock(w, c, n); }
    DotDotOf(v, n, d, bs);
    RepointedCounts(LiveAt(d, 0), Rec(Ino(d, 12), DOTDOT, d[19]), Rec(np, DOTDOT, d[19]), Listing(d, 12 + RecLen(d, 12)));
    forall j | LiveDir(v, j) && j != c ensures Alike(v, GetInode(v, j), w, GetInode(w, j)) {
      UntouchedAlike(v, w, c, j);
    }
  }

  lemma RepointedCounts(a: seq<Rec>, r: Rec, s: Rec, l: seq<Rec>)
    requires r.name == DOTDOT && s.name == DOTDOT && s.kind == r.kind
    ensures forall k: Sort :: !k.DotTo? || !k.up ==> Tally(a + [s] + l, k) == Tally(a + [r] + l, k)
    ensures Tally(a + [r] + l, Dot(true)) == 1 && Tally(a + [r] + l, DotTo(true, r.ino)) == 1 ==>
              Tally(a + [s] + l, DotTo(true, s.ino)) == 1
  {
    forall k: Sort | !k.DotTo? || !k.up ensures Tally(a + [s] + l, k) == Tally(a + [r] + l, k) { DotDotSwapped(a, r, s, l, k); }
    if Tally(a + [r] + l, Dot(true)) == 1 && Tally(a + [r] + l, DotTo(true, r.ino)) == 1 { OnlyDotDotSwapped(a, r, s, l); }
  }

  lemma FirstBlockOf(v: Vol, c: nat)
    requires Sound(v) && LiveDir(v, c)
    ensures v.geo.Sizes()
    ensures var b := Lookup(v, GetInode(v, c), 0);
            b != 0 && b < |v.data| && Content(v, b) == v.data[b] && DotsAt(Content(v, b))
  {
    SoundReady(v, c);
    hide Tiled, DotsAt;
    FirstBlockData(v, c);
  }

  /** The first block of the repointed bytes, and that nothing outside it changed. */
  lemma RepointedBlock(d: seq<Byte>, np: Word32, bs: nat)
    requires BlockSize(bs) && bs <= |d|
    ensures OneBlockEdit(d, Repointed(d, np), 12, bs) && Base(12, bs) == 0 && 12 / bs == 0
    ensures Repointed(d, np)[0..bs] == Repointed(d[0..bs], np)
  {
    assert Base(12, bs) == 0;
  }

  lemma HoleFreeBy(v: Vol, w: Vol, n: Inode)
    requires v.geo.Sizes() && w.geo == v.geo && HoleFree(v, n) && forall x: nat :: MappedAt(w, n, x) == MappedAt(v, n, x)
    ensures HoleFree(w, n)
  {
    hide MappedAt;
  }

  lemma DotDotOf(w: Vol, n: Inode, e: seq<Byte>, bs: nat)
    requires w.geo.Sizes() && bs == w.geo.blockSize && bs <= |e| && e[0..bs] == Content(w, Lookup(w, n, 0)) && Lookup(w, n, 0) != 0
    ensures DotDot(w, n) == Ino(e, 12)
  {
    hide Lookup, Ino;
    InoOfPart(e, bs);
  }

  /** A ".." record exchanged for another one: what the two weigh. */
  lemma DotDotSwapped(a: seq<Rec>, r: Rec, s: Rec, l: seq<Rec>, k: Sort)
    requires r.name == DOTDOT && s.name == DOTDOT
    ensures Tally(a + [r] + l, k) + Weight(s, k) == Tally(a + [s] + l, k) + Weight(r, k)
  {
    TallyJoin(a + [r], l, k);
    TallyJoin(a + [s], l, k);
    TallyJoin(a, [r], k);
    TallyJoin(a, [s], k);
    assert [r][1..] == [] && [s][1..] == [];
  }

  lemma {:induction false} DotToAtMost(l: seq<Rec>, up: bool, d: nat)
    ensures Tally(l, DotTo(up, d)) <= Tally(l, Dot(up))
  {
    if l != [] { DotToAtMost(l[1..], up, d); }
  }

  /** The only ".." record, a directory's, pointed at np: now it is the one for np. */
  lemma OnlyDotDotSwapped(a: seq<Rec>, r: Rec, s: Rec, l: seq<Rec>)
    requires r.name == DOTDOT && s.name == DOTDOT && s.kind == r.kind
    requires Tally(a + [r] + l, Dot(true)) == 1 && Tally(a + [r] + l, DotTo(true, r.ino)) == 1
    ensures Tally(a + [s] + l, DotTo(true, s.ino)) == 1
  {
    assert [r][1..] == [] && [s][1..] == [];
    TallyJoin(a + [r], l, Dot(true));
    TallyJoin(a, [r], Dot(true));
    TallyJoin(a + [r], l, DotTo(true, r.ino));
    TallyJoin(a, [r], DotTo(true, r.ino));
    TallyJoin(a + [s], l, DotTo(true, s.ino));
    TallyJoin(a, [s], DotTo(true, s.ino));
    DotToAtMost(a, true, r.ino);
    DotToAtMost(l, true, r.ino);
    DotToAtMost(a, true, s.ino);
    DotToAtMost(l, true, s.ino);
  }

  // ---------------------------------------------------------------- linking the new name, unlinking the old one

  /** What a name stands for bears a proper name. */
  lemma ListedIsSpelled(v: Vol, j: nat, name: seq<Byte>)
    requires Linked(v) && v.geo.Sizes() && LiveDir(v, j) && DirLookup(v, j, name) != Absent
    ensures Spelled(DirLookup(v, j, name).rec) && DirLookup(v, j, name).rec.name == name
  {
    hide Entries, DotDot, Tally, Sound, LinksRight, ListsRight, Housed, FindName;
    var l := Entries(v, GetInode(v, j));
    assert DirInOrder(v, j);
    FoundAt(l, name);
    TallyAtLeast(l, FindName(l, name), Garbled);
  }

  /** A rename that gets past its checks: the old name is listed and live, the new one is free, there is room for it. */
  ghost predicate Movable(v: Vol, op: nat, oldName: seq<Byte>, np: nat, newName: seq<Byte>) {
    && Sound(v) && HasRoom(v, np) && WellFormedDir(v, op) && v.geo.Sizes() && Live(v, op) && Live(v, np) && Nameable(newName)
    && DirLookup(v, op, oldName) != Absent && DirLookup(v, np, newName) == Absent && NoTombstoneFirst(v, op, oldName)
  }

  lemma MovableParts(v: Vol, op: nat, oldName: seq<Byte>, np: nat, newName: seq<Byte>)
    requires Movable(v, op, oldName, np, newName)
    ensures Sound(v) && HasRoom(v, np) && WellFormedDir(v, op) && v.geo.Sizes() && LiveDir(v, op) && LiveDir(v, np)
    ensures DirReady(v, np) && DirReady(v, op) && BlockCount(v, GetInode(v, np)) < DIRECT + TABLE_BUFFER && WellFormedDir(v, np)
    ensures op == np ==> oldName != newName
    ensures DirLookup(v, op, oldName).rec.ino != 0
  {
    hide Owned, BlocksTiled, Entries, LookIn, HasRoom, WellFormedDir, Sound, NoTombstoneFirst;
    WellFormedBasics(v, op);
    RoomReady(v, np);
    RoomParts(v, np);
    LookedLive(v, op, oldName);
  }

  lemma LookedLive(v: Vol, ino: nat, name: seq<Byte>)
    requires v.geo.Sizes() && DirLookup(v, ino, name) != Absent
    ensures DirLookup(v, ino, name).rec.ino != 0
  {
    hide LookIn, Listing, Visible;
    ListedIsLive(Entries(v, GetInode(v, ino)), Visible(v, GetInode(v, ino)), name);
  }

  lemma ListedIsLive(l: seq<Rec>, d: seq<Byte>, name: seq<Byte>)
    requires l == Listing(d, 0) && LookIn(l, name) != Absent
    ensures LookIn(l, name).rec.ino != 0
  {
    var k := FindName(l, name);
    LiveOnly(d, 0, k);
  }

  lemma {:induction false} LiveOnly(d: seq<Byte>, p: nat, k: nat)
    requires k < |Listing(d, p)|
    ensures Listing(d, p)[k].ino != 0
    decreases |d| - p
  {
    hide Name, Ino;
    if Ino(d, p) != 0 {
      if k > 0 { LiveOnly(d, p + RecLen(d, p), k - 1); }
    } else {
      assert LiveAt(d, p) == [];
      assert Listing(d, p) == Listing(d, p + RecLen(d, p));
      LiveOnly(d, p + RecLen(d, p), k);
    }
  }

  /** The old name is still there, unchanged, once the new one is linked. */
  lemma LinkKeepsOld(v: Vol, op: nat, oldName: seq<Byte>, np: nat, newName: seq<Byte>, rec: Rec)
    requires Movable(v, op, oldName, np, newName) && DirLookup(v, op, oldName) == Present(rec) && rec.ino != 0
    requires DirReady(v, np) && BlockCount(v, GetInode(v, np)) < DIRECT + TABLE_BUFFER
    requires AddEntry(v, np, newName, rec.ino, rec.kind).ok
    ensures var a := AddEntry(v, np, newName, rec.ino, rec.kind).v;
            a.geo == v.geo && Sound(a) && DirKeeps(v, a, np) && WellFormedDir(a, op) && InodeNumber(a, op) && NoTombstoneFirst(a, op, oldName)
            && DirLookup(a, op, oldName) == Present(rec)
            && Gained(v, a, np, Rec(rec.ino, newName, rec.kind)) && newName != DOT && newName != DOTDOT
            && (op != np ==> SameLinks(v, a, op))
  {
    hide Owned, AddEntry, Entries, LookIn, BlocksTiled, HoleFree, DirBytes, Gained, SameLinks, FindPos, WellFormedDir, HasRoom,
         NoTombstoneFirst, Alike, Untouched;
    MovableParts(v, op, oldName, np, newName);
    var a := AddEntry(v, np, newName, rec.ino, rec.kind).v;
    AddToWhole(v, np, newName, rec.ino, rec.kind);
    NewIsNoDot(v, np, newName);
    if op == np {
      InsertionLookups(v, np, newName, rec.ino, rec.kind, oldName);
      AddKeepsPicked(v, np, newName, rec.ino, rec.kind, oldName);
    } else {
      KeptOthers(v, a, np, op);
      UntouchedIn(v, a, np);
      UntouchedAlike(v, a, np, op);
      AlikeLinks(v, a, op);
      AlikeWellFormed(v, a, op);
      AlikeDirs(v, GetInode(v, op), a, GetInode(a, op));
      SamePicked(v, a, op, oldName);
    }
  }

  lemma UntouchedIn(v: Vol, a: Vol, np: nat)
    requires InodeNumber(v, np) && DirKeeps(v, a, np)
    ensures Untouched(v, a, np) && a.live == v.live && |a.inodes| == |v.inodes|
  {}

  lemma SamePicked(v: Vol, a: Vol, op: nat, name: seq<Byte>)
    requires v.geo.Sizes() && a.geo == v.geo && InodeNumber(v, op) && InodeNumber(a, op) && GetInode(a, op) == GetInode(v, op)
    requires DirBytes(a, GetInode(a, op)) == DirBytes(v, GetInode(v, op)) && NoTombstoneFirst(v, op, name)
    ensures NoTombstoneFirst(a, op, name)
  {
    hide DirBytes, FindPos;
  }

  lemma WholeIsFours(v: Vol, ino: nat)
    requires WellFormedDir(v, ino)
    ensures InodeNumber(v, ino) && GetInode(v, ino).size % 4 == 0
  {
    hide HoleFree, BlocksTiled, Owned;
    WellFormedBasics(v, ino);
    OwnedSizes(v, ino);
    AlignedIsFours(GetInode(v, ino).size, v.geo.blockSize);
  }

  /** Linking the new name and unlinking the old one, as far as the counts go. */
  lemma MoveEffect(v: Vol, op: nat, oldName: seq<Byte>, np: nat, newName: seq<Byte>, rec: Rec)
    requires Movable(v, op, oldName, np, newName) && DirLookup(v, op, oldName) == Present(rec) && rec.ino != 0
    requires DirReady(v, np) && BlockCount(v, GetInode(v, np)) < DIRECT + TABLE_BUFFER
    requires AddEntry(v, np, newName, rec.ino, rec.kind).ok && NulFree(newName) && Spelled(rec)
    ensures DirReady(AddEntry(v, np, newName, rec.ino, rec.kind).v, op)
    ensures var a := AddEntry(v, np, newName, rec.ino, rec.kind).v;
            RemoveEntry(a, op, oldName).ok ==>
              var w := RemoveEntry(a, op, oldName).v;
              w.geo == v.geo && Sound(w) && w.live == v.live && |w.inodes| == |v.inodes| && FilesStay(v, w, 0)
              && (forall j :: LiveDir(w, j) <==> LiveDir(v, j))
              && (forall j :: LiveDir(v, j) && j != op && j != np ==> SameLinks(v, w, j))
              && oldName != DOT && oldName != DOTDOT && newName != DOT && newName != DOTDOT && rec.name == oldName
              && (if op == np then SameLinks(v, w, op)
                  else Gained(v, w, np, Rec(rec.ino, newName, rec.kind)) && Lost(v, w, op, rec))
  {
    hide Owned, AddEntry, RemoveEntry, Entries, LookIn, BlocksTiled, HoleFree, Gained, Lost, SameLinks, WellFormedDir,
         NoTombstoneFirst, Alike, Untouched, HasRoom, FindName, Tally, DotDot, DirKeeps, FilesStay;
    MovableParts(v, op, oldName, np, newName);
    LinkKeepsOld(v, op, oldName, np, newName, rec);
    var a, r := AddEntry(v, np, newName, rec.ino, rec.kind).v, Rec(rec.ino, newName, rec.kind);
    WellFormedBasics(a, op);
    if RemoveEntry(a, op, oldName).ok {
      SameLiveDir(v, a, np, op);
      WholeRemovesOnly(a, op, oldName);
      WholeIsFours(a, op);
      RemoveLinks(a, op, oldName);
      var w := RemoveEntry(a, op, oldName).v;
      KeepsLinks(v, a, np);
      KeepsLinks(a, w, op);
      KeptFiles(v, a, np);
      SameLiveDir(v, a, np, op);
      SameLiveDir(a, w, op, op);
      KeptFiles(a, w, op);
      FilesStayTwice(v, a, w, 0, 0);
      forall j ensures LiveDir(w, j) <==> LiveDir(v, j) { SameLiveDir(v, a, np, j); SameLiveDir(a, w, op, j); }
      forall j | LiveDir(v, j) && j != op && j != np ensures SameLinks(v, w, j) {
        KeptLinks(v, a, np, j);
        StillDir(v, a, j);
        KeptLinks(a, w, op, j);
        SameLinksTwice(v, a, w, j);
      }
      if op == np {
        GainLoss(v, a, w, op, r, rec);
      } else {
        SameLiveDir(v, a, np, np);
        KeptLinks(a, w, op, np);
        GainedSame(v, a, w, np, r);
        SameLost(v, a, w, op, rec);
      }
    }
  }

  /** An entry gained and one of the same weight lost again. */
  lemma GainLoss(v: Vol, a: Vol, w: Vol, ino: nat, r: Rec, s: Rec)
    requires v.geo.Sizes() && a.geo == v.geo && w.geo == v.geo && InodeNumber(v, ino) && InodeNumber(a, ino)
    requires Gained(v, a, ino, r) && Lost(a, w, ino, s) && r.ino == s.ino && r.kind == s.kind
    requires r.name != DOT && r.name != DOTDOT && s.name != DOT && s.name != DOTDOT && Spelled(r) && Spelled(s)
    ensures SameLinks(v, w, ino)
  {
    hide Entries, Tally, DotDot;
  }

  lemma GainedSame(v: Vol, a: Vol, w: Vol, ino: nat, r: Rec)
    requires v.geo.Sizes() && a.geo == v.geo && w.geo == v.geo && InodeNumber(v, ino) && InodeNumber(a, ino)
    requires Gained(v, a, ino, r) && SameLinks(a, w, ino)
    ensures Gained(v, w, ino, r)
  {
    hide Entries, Tally, DotDot;
  }

  lemma SameLost(v: Vol, a: Vol, w: Vol, ino: nat, r: Rec)
    requires v.geo.Sizes() && a.geo == v.geo && w.geo == v.geo && InodeNumber(v, ino) && InodeNumber(a, ino)
    requires SameLinks(v, a, ino) && Lost(a, w, ino, r)
    ensures Lost(v, w, ino, r)
  {
    hide Entries, Tally, DotDot;
  }

  // ---------------------------------------------------------------- the bookkeeping afterwards

  /** Nothing changed for any directory but files it lists. */
  ghost predicate OnlyFilesMoved(v: Vol, w: Vol) {
    && v.geo.Sizes() && w.geo == v.geo && (forall j :: LiveDir(w, j) <==> LiveDir(v, j))
    && forall j :: LiveDir(v, j) ==> SameChildren(v, w, j)
  }

  lemma StaysInOrder(v: Vol, w: Vol, j: nat)
    requires OnlyFilesMoved(v, w) && LiveDir(v, j) && DirInOrder(v, j)
    ensures DirInOrder(w, j)
  {
    hide Entries, DotDot, Tally;
    assert SameChildren(v, w, j) && SameChildren(v, w, DotDot(v, GetInode(v, j)));
    forall d: nat ensures ListsRight(w, j, d) {
      assert ListsRight(v, j, d);
      if LiveDir(v, d) { assert SameChildren(v, w, d); }
    }
  }

  lemma LinkedSame(v: Vol, w: Vol)
    requires Linked(v) && Sound(w) && OnlyFilesMoved(v, w)
    ensures Linked(w) && RootsStay(v, w)
  {
    hide Entries, DotDot, Tally, Sound, DirInOrder;
    forall j | LiveDir(w, j) ensures DirInOrder(w, j) {
      hide OnlyFilesMoved, SameChildren;
      StaysInOrder(v, w, j);
    }
    forall j | LiveDir(v, j) ensures SameRole(v, w, j) { assert SameChildren(v, w, j); }
  }

  /** A file's entry may come and go. */
  lemma WeightlessSame(v: Vol, w: Vol, ino: nat, r: Rec)
    requires v.geo.Sizes() && w.geo == v.geo && InodeNumber(v, ino) && IsFile(r) && Spelled(r)
    requires Gained(v, w, ino, r) || Lost(v, w, ino, r)
    ensures SameChildren(v, w, ino)
  {
    hide Entries, Tally, DotDot;
  }

  /** A child moved from op, where it was s, to np, where it is r, and its ".." followed. */
  ghost predicate ChildMoved(v: Vol, w: Vol, op: nat, np: nat, r: Rec, s: Rec) {
    && v.geo.Sizes() && w.geo == v.geo && LiveDir(v, op) && LiveDir(v, np) && op != np
    && (forall j :: LiveDir(w, j) <==> LiveDir(v, j))
    && IsChild(r) && IsChild(s) && Spelled(r) && r.ino == s.ino && r.ino != op && r.ino != np && LiveDir(v, r.ino)
    && OthersSame(v, w, op, np, r.ino) && ParentsChanged(v, w, op, np, r, s) && NewParent(v, w, r.ino, np)
    && Linked(v) && Sound(w)
  }

  ghost predicate OthersSame(v: Vol, w: Vol, op: nat, np: nat, c: nat)
    requires v.geo.Sizes() && w.geo == v.geo
  {
    forall j :: LiveDir(v, j) && j != op && j != np && j != c ==> SameLinks(v, w, j)
  }

  ghost predicate ParentsChanged(v: Vol, w: Vol, op: nat, np: nat, r: Rec, s: Rec)
    requires v.geo.Sizes() && w.geo == v.geo && InodeNumber(v, op) && InodeNumber(v, np)
  {
    Changed(v, w, np, r, true) && Changed(v, w, op, s, false)
  }

  lemma ChildMovedBasics(v: Vol, w: Vol, op: nat, np: nat, r: Rec, s: Rec)
    requires ChildMoved(v, w, op, np, r, s)
    ensures v.geo.Sizes() && w.geo == v.geo && LiveDir(v, op) && LiveDir(v, np) && op != np && Sound(w)
    ensures forall j :: LiveDir(w, j) <==> LiveDir(v, j)
    ensures IsChild(r) && IsChild(s) && Spelled(r) && r.ino == s.ino && r.ino != op && r.ino != np && LiveDir(v, r.ino)
    ensures NewParent(v, w, r.ino, np) && DirInOrder(v, r.ino) && DotDot(v, GetInode(v, r.ino)) == op
    ensures Tally(Entries(v, GetInode(v, op)), Child(r.ino)) == 1 && Tally(Entries(v, GetInode(v, np)), Child(r.ino)) == 0
  {
    hide Entries, DotDot, Tally, Sound, LinksRight, DotsRight, Housed, SameLinks, NewParent;
    assert DirInOrder(v, op) && DirInOrder(v, np);
    assert ListsRight(v, op, r.ino) && ListsRight(v, np, r.ino);
  }

  /** What is known of one directory, other than the one moved. */
  lemma BesideMoved(v: Vol, w: Vol, op: nat, np: nat, r: Rec, s: Rec, j: nat)
    requires ChildMoved(v, w, op, np, r, s) && LiveDir(v, j) && j != r.ino
    ensures SameRole(v, w, j) && DirInOrder(v, j)
    ensures GetInode(w, j).links == GetInode(v, j).links + if j == np then 1 else if j == op then -1 else 0
    ensures forall k: Sort :: Tally(Entries(w, GetInode(w, j)), k) + (if j == op then Weight(s, k) else 0) ==
                              Tally(Entries(v, GetInode(v, j)), k) + (if j == np then Weight(r, k) else 0)
  {
    hide Entries, DotDot, Tally, Sound, DirInOrder, NewParent;
    assert j != op && j != np ==> SameLinks(v, w, j);
    if j == op { LinkAtLeast(v, op); }
  }

  /** How often directory j lists child d is as before, except for the child moved. */
  lemma MovedChildren(v: Vol, w: Vol, op: nat, np: nat, r: Rec, s: Rec, j: nat, d: nat)
    requires ChildMoved(v, w, op, np, r, s) && LiveDir(v, j)
    ensures v.geo.Sizes() && InodeNumber(w, j) && Tally(Entries(w, GetInode(w, j)), Child(d)) ==
              if d == r.ino && j == np then 1 else if d == r.ino && j == op then 0 else Tally(Entries(v, GetInode(v, j)), Child(d))
  {
    hide Entries, DotDot, Tally, Sound, DirInOrder, ChildMoved;
    ChildMovedBasics(v, w, op, np, r, s);
    if j != r.ino { BesideMoved(v, w, op, np, r, s, j); }
  }

  lemma MovedInOrder(v: Vol, w: Vol, op: nat, np: nat, r: Rec, s: Rec, j: nat)
    requires ChildMoved(v, w, op, np, r, s) && LiveDir(v, j)
    ensures InodeNumber(w, j) && w.geo.Sizes() && DirInOrder(w, j)
  {
    hide Entries, DotDot, Tally, Sound, ChildMoved;
    ChildMovedBasics(v, w, op, np, r, s);
    if j != r.ino { BesideMoved(v, w, op, np, r, s, j); }
    MovedChildren(v, w, op, np, r, s, if j == r.ino then np else DotDot(v, GetInode(v, j)), j);
    forall d: nat ensures ListsRight(w, j, d) {
      MovedChildren(v, w, op, np, r, s, j, d);
      assert ListsRight(v, j, d);
      if LiveDir(v, d) && d != r.ino { BesideMoved(v, w, op, np, r, s, d); }
    }
  }

  lemma LinkedMoved(v: Vol, w: Vol, op: nat, np: nat, r: Rec, s: Rec)
    requires ChildMoved(v, w, op, np, r, s)
    ensures v.geo.Sizes() && w.geo == v.geo && Linked(w) && RootsStay(v, w)
  {
    hide Entries, DotDot, Tally, Sound, DirInOrder, ChildMoved;
    ChildMovedBasics(v, w, op, np, r, s);
    forall j | LiveDir(w, j) ensures DirInOrder(w, j) { MovedInOrder(v, w, op, np, r, s, j); }
    forall j | LiveDir(v, j) && j != r.ino ensures SameRole(v, w, j) { BesideMoved(v, w, op, np, r, s, j); }
  }

  /** A directory away from both parents looks the same after the two entry operations. */
  lemma AsideAlike(v: Vol, a: Vol, w: Vol, np: nat, op: nat, j: nat)
    requires v.geo.Sizes() && InodeNumber(v, np) && DirKeeps(v, a, np) && InodeNumber(a, op) && DirKeeps(a, w, op)
    requires LiveDir(v, j) && j != op && j != np
    ensures w.geo == v.geo && LiveDir(w, j) && Alike(v, GetInode(v, j), w, GetInode(w, j)) && GetInode(w, j) == GetInode(v, j)
  {
    hide Owned, Alike;
    KeptOthers(v, a, np, j);
    UntouchedIn(v, a, np);
    UntouchedAlike(v, a, np, j);
    KeptOthers(a, w, op, j);
    UntouchedIn(a, w, op);
    UntouchedAlike(a, w, op, j);
    AlikeTwice(v, GetInode(v, j), a, GetInode(a, j), w, GetInode(w, j));
  }

  /** The two link counts rewritten: every directory looks the same. */
  lemma RelinkAlike(v: Vol, op: nat, np: nat, j: nat)
    requires v.geo.Sizes() && LiveDir(v, op) && LiveDir(v, np) && op != np && LiveDir(v, j)
    requires GetInode(v, op).links >= 1 && GetInode(v, np).links < 0xFFFF
    ensures var u := PutInode(v, op, LinksDown(GetInode(v, op)));
            InodeNumber(u, np) &&
            var w := PutInode(u, np, LinksUp(GetInode(u, np)));
            w.geo == v.geo && LiveDir(w, j) && Alike(v, GetInode(v, j), w, GetInode(w, j))
            && GetInode(w, j).links == GetInode(v, j).links + (if j == np then 1 else if j == op then -1 else 0)
  {
    hide Alike;
    var u := PutInode(v, op, LinksDown(GetInode(v, op)));
    Relinked(v, op, GetInode(v, op).links - 1, j);
    Relinked(v, op, GetInode(v, op).links - 1, np);
    var w := PutInode(u, np, LinksUp(GetInode(u, np)));
    Relinked(u, np, GetInode(u, np).links + 1, j);
    AlikeTwice(v, GetInode(v, j), u, GetInode(u, j), w, GetInode(w, j));
  }

  lemma GainedMore(v: Vol, u: Vol, w: Vol, ino: nat, r: Rec)
    requires v.geo.Sizes() && u.geo == v.geo && w.geo == v.geo && InodeNumber(v, ino) && InodeNumber(u, ino) && LiveDir(w, ino)
    requires Gained(v, u, ino, r) && Alike(u, GetInode(u, ino), w, GetInode(w, ino))
    requires GetInode(w, ino).links == GetInode(u, ino).links + 1
    ensures Changed(v, w, ino, r, true)
  {
    hide Entries, DotDot, Tally, Alike;
    AlikeDirs(u, GetInode(u, ino), w, GetInode(w, ino));
    AlikeMode(u, GetInode(u, ino), w, GetInode(w, ino));
  }

  /** What relinking does: link counts up and down, ".." pointed at the new parent, and all listings as they were. */
  lemma RelinkEffect(w: Vol, op: nat, np: nat, c: nat)
    requires Sound(w) && w.geo.Sizes() && LiveDir(w, op) && LiveDir(w, np) && op != np && c != op && c != np
    requires LiveDir(w, c) && WellFormedDir(w, c) && GetInode(w, op).links >= 1 && GetInode(w, np).links < 0xFFFF
    ensures var z := Relink(w, op, np, c);
            z.geo == w.geo && Sound(z) && NewParent(w, z, c, np) && (forall j :: LiveDir(z, j) <==> LiveDir(w, j)) &&
            forall j :: LiveDir(w, j) && j != c ==>
              Alike(w, GetInode(w, j), z, GetInode(z, j)) &&
              GetInode(z, j).links == GetInode(w, j).links + (if j == np then 1 else if j == op then -1 else 0)
  {
    hide Owned, Entries, DotDot, Tally, Alike, SameLinks, DirSound, WellFormedDir, Reparent, NewParent;
    RelinkSteps(w, op, np);
    RelinkSound(w, op, np, c);
    InodeIsWord(w, np) by { SoundSizes(w); }
    var u := PutInode(w, op, LinksDown(GetInode(w, op)));
    var x := PutInode(u, np, LinksUp(GetInode(u, np)));
    var z := Relink(w, op, np, c);
    RelinkAlike(w, op, np, c);
    AlikeWellFormed(w, x, c);
    ReparentLinks(x, c, np);
    assert z == Reparent(x, c, np);
    NewParentFrom(w, x, z, c, np);
    forall j | LiveDir(w, j) && j != c
      ensures LiveDir(z, j) && Alike(w, GetInode(w, j), z, GetInode(z, j))
      ensures GetInode(z, j).links == GetInode(w, j).links + (if j == np then 1 else if j == op then -1 else 0)
    {
      RelinkAlike(w, op, np, j);
      AlikeTwice(w, GetInode(w, j), x, GetInode(x, j), z, GetInode(z, j));
    }
    forall j ensures LiveDir(z, j) <==> LiveDir(w, j) {
      if LiveDir(z, j) { RelinkedDir(w, op, np, c, j); }
      if j == c { NewParentLive(w, z, c, np); }
    }
  }

  lemma NewParentLive(v: Vol, w: Vol, c: nat, np: nat)
    requires v.geo.Sizes() && w.geo == v.geo && InodeNumber(v, c) && NewParent(v, w, c, np)
    ensures LiveDir(w, c)
  {
    hide Entries, DotDot, Tally;
  }

  lemma NewParentFrom(w: Vol, x: Vol, z: Vol, c: nat, np: nat)
    requires w.geo.Sizes() && x.geo == w.geo && z.geo == w.geo && InodeNumber(w, c) && InodeNumber(x, c) && NewParent(x, z, c, np)
    requires Alike(w, GetInode(w, c), x, GetInode(x, c)) && GetInode(x, c).links == GetInode(w, c).links
    ensures NewParent(w, z, c, np)
  {
    hide Entries, DotDot, Tally, Alike;
    AlikeDirs(w, GetInode(w, c), x, GetInode(x, c));
    AlikeMode(w, GetInode(w, c), x, GetInode(x, c));
  }

  lemma SameNewParent(v: Vol, w: Vol, z: Vol, c: nat, np: nat)
    requires v.geo.Sizes() && w.geo == v.geo && z.geo == v.geo && InodeNumber(v, c) && InodeNumber(w, c)
    requires SameLinks(v, w, c) && GetInode(w, c).size == GetInode(v, c).size && NewParent(w, z, c, np)
    ensures NewParent(v, z, c, np)
  {
    hide Entries, DotDot, Tally;
  }

  /** Relinking after a directory changed parents. */
  lemma RelinkLinked(v: Vol, w: Vol, op: nat, np: nat, r: Rec, s: Rec)
    requires Sound(w) && v.geo.Sizes() && w.geo == v.geo && LiveDir(v, op) && LiveDir(v, np) && op != np
    requires forall j :: LiveDir(w, j) <==> LiveDir(v, j)
    requires forall j :: LiveDir(v, j) && j != op && j != np ==> SameLinks(v, w, j)
    requires Gained(v, w, np, r) && Lost(v, w, op, s) && IsChild(r) && IsChild(s) && r.ino == s.ino && r.ino != op && r.ino != np
    requires LiveDir(v, r.ino) && WellFormedDir(w, r.ino) && GetInode(v, op).links >= 1 && GetInode(v, np).links < 0xFFFF
    requires Spelled(r) && GetInode(w, r.ino).size == GetInode(v, r.ino).size && Linked(v)
    ensures var z := Relink(w, op, np, r.ino);
            z.geo == v.geo && Linked(z) && FilesMoved(v, z, 0, 0, 0) && FilesStay(w, z, 0) && RootsStay(v, z) &&
            forall j :: LiveDir(z, j) <==> LiveDir(v, j)
  {
    hide Owned, Entries, DotDot, Tally, Alike, SameLinks, DirSound, WellFormedDir, Relink, FilesStay, Linked, Sound, NewParent, Changed,
         Gained, Lost, FileCount, RootsStay;
    var c, z := r.ino, Relink(w, op, np, r.ino);
    LostLive(v, w, op, s);
    GainedLive(v, w, np, r);
    RelinkEffect(w, op, np, c);
    forall j | LiveDir(v, j) && j != op && j != np && j != c ensures SameLinks(v, z, j) {
      AlikeLinks(w, z, j);
      SameLinksTwice(v, w, z, j);
    }
    GainedMore(v, w, z, np, r);
    LostIsChanged(v, w, z, op, s);
    SameNewParent(v, w, z, c, np);
    LinkedMoved(v, z, op, np, r, s);
    RelinkFiles(w, op, np, c);
    forall j, x: nat | LiveDir(z, j) ensures FileCount(z, j, x) == FileCount(v, j, x) {
      if j == np || j == op {
        ChangedCounts(v, z, np, r, true, x);
        ChangedCounts(v, z, op, s, false, x);
      } else if j != c {
        SameCounts(v, z, j, x);
      } else {
        ReparentedCounts(v, z, c, np, x);
      }
    }
  }

  lemma ReparentedCounts(v: Vol, w: Vol, c: nat, np: nat, x: nat)
    requires v.geo.Sizes() && w.geo == v.geo && InodeNumber(v, c) && NewParent(v, w, c, np)
    ensures InodeNumber(w, c) && FileCount(w, c, x) == FileCount(v, c, x)
  {
    hide Entries, DotDot, Tally;
  }

  /** Relinking two directories and a third one's parent entry touches no file. */
  lemma RelinkFiles(w: Vol, op: nat, np: nat, c: nat)
    requires Sound(w) && LiveDir(w, op) && LiveDir(w, np) && Live(w, c) && op != np
    ensures FilesStay(w, Relink(w, op, np, c), 0)
  {
    hide Owned, DirSound, Lookup;
    RelinkSteps(w, op, np);
    InodeIsWord(w, np) by { SoundSizes(w); }
    var u := PutInode(w, op, LinksDown(GetInode(w, op)));
    ReparentSound(PutInode(u, np, LinksUp(GetInode(u, np))), c, np);
  }

  lemma LostLive(v: Vol, w: Vol, ino: nat, s: Rec)
    requires v.geo.Sizes() && w.geo == v.geo && InodeNumber(v, ino) && Lost(v, w, ino, s)
    ensures LiveDir(w, ino) && GetInode(w, ino).links == GetInode(v, ino).links
  {}

  lemma GainedLive(v: Vol, w: Vol, ino: nat, s: Rec)
    requires v.geo.Sizes() && w.geo == v.geo && InodeNumber(v, ino) && Gained(v, w, ino, s)
    ensures LiveDir(w, ino) && GetInode(w, ino).links == GetInode(v, ino).links
  {}

  lemma RelinkedDir(w: Vol, op: nat, np: nat, c: nat, j: nat)
    requires Sound(w) && Live(w, op) && Live(w, np) && Live(w, c) && op != np && LiveDir(Relink(w, op, np, c), j)
    ensures LiveDir(w, j)
  {
    hide Owned, DirSound, Lookup;
    RelinkSteps(w, op, np);
    InodeIsWord(w, np) by { SoundSizes(w); }
    var u := PutInode(w, op, LinksDown(GetInode(w, op)));
    ReparentSound(PutInode(u, np, LinksUp(GetInode(u, np))), c, np);
  }

  /**
   * ext2_rename, within one parent or between two, of a file or a directory: the link counts and parent entries of
   * all directories are right afterwards. A directory that changes parents is neither of them, and well formed.
   */
  lemma RenameLinked(v: Vol, op: nat, oldName: seq<Byte>, np: nat, newName: seq<Byte>)
    requires Linked(v) && Parent(v, op) && Parent(v, np) && v.geo.Sizes() && NamesInode(v, op, oldName)
    requires Movable(v, op, oldName, np, newName) && NulFree(newName)
    requires var rec := DirLookup(v, op, oldName).rec;
             rec.kind == KIND_DIR && op != np ==>
               WellFormedDir(v, rec.ino) && rec.ino != op && rec.ino != np && GetInode(v, np).links < 0xFFFF
    requires Rename(v, op, oldName, np, newName).ok
    ensures var w, rec := Rename(v, op, oldName, np, newName).v, DirLookup(v, op, oldName).rec;
            var across := op != np && rec.kind != KIND_DIR;
            Linked(w) && w.geo == v.geo && FilesStay(v, w, 0) && RootsStay(v, w) && rec.name == oldName && oldName != DOT && oldName != DOTDOT &&
            (forall j :: LiveDir(w, j) <==> LiveDir(v, j)) &&
            FilesMoved(v, w, if across then np else 0, if across then op else 0, if across then rec.ino else 0)
  {
    hide Owned, AddEntry, RemoveEntry, Entries, LookIn, BlocksTiled, HoleFree, Gained, Lost, SameLinks, WellFormedDir, SameChildren,
         NoTombstoneFirst, Alike, Untouched, HasRoom, Tally, DotDot, Relink, DirSound, Linked, FilesStay, FileCount;
    var rec := DirLookup(v, op, oldName).rec;
    MovableParts(v, op, oldName, np, newName);
    ListedIsSpelled(v, op, oldName);
    MoveEffect(v, op, oldName, np, newName, rec);
    LinkKeepsOld(v, op, oldName, np, newName, rec);
    var a, r := AddEntry(v, np, newName, rec.ino, rec.kind).v, Rec(rec.ino, newName, rec.kind);
    var w := RemoveEntry(a, op, oldName).v;
    if op == np || rec.kind != KIND_DIR {
      if op != np {
        WeightlessSame(v, w, np, r);
        WeightlessSame(v, w, op, rec);
      }
      forall j | LiveDir(v, j) ensures SameChildren(v, w, j) {
        if op == np || (j != np && j != op) { SameIsSameChildren(v, w, j); }
      }
      LinkedSame(v, w);
      forall j, x: nat | LiveDir(v, j)
        ensures FileCount(w, j, x) + (if op != np && j == op && x == rec.ino then 1 else 0) ==
                FileCount(v, j, x) + (if op != np && j == np && x == rec.ino then 1 else 0)
      {
        if op == np || (j != np && j != op) { SameCounts(v, w, j, x); }
        else if j == np { GainedCounts(v, w, np, r, x); }
        else { LostCounts(v, w, op, rec, x); }
      }
    } else {
      RemoveSound(a, op, oldName);
      AsideAlike(v, a, w, np, op, rec.ino) by { OldIsChild(v, op, oldName); }
      AlikeWellFormed(v, w, rec.ino);
      OldIsChild(v, op, oldName);
      RelinkLinked(v, w, op, np, r, rec);
      FilesStayTwice(v, w, Relink(w, op, np, rec.ino), 0, 0);
    }
  }

  /** The directory moved is known to its parent's link count. */
  lemma OldIsChild(v: Vol, op: nat, name: seq<Byte>)
    requires Linked(v) && v.geo.Sizes() && LiveDir(v, op) && DirLookup(v, op, name) != Absent && name != DOT && name != DOTDOT
    requires DirLookup(v, op, name).rec.kind == KIND_DIR
    ensures LiveDir(v, DirLookup(v, op, name).rec.ino) && GetInode(v, op).links >= 3 && DirLookup(v, op, name).rec.name == name
  {
    hide Entries, Tally, DotDot, Sound, FindName;
    var l := Entries(v, GetInode(v, op));
    FoundAt(l, name);
    ListedChild(v, op, FindName(l, name));
  }

  /**
   * What a rename of a listed name to a new one comes to: it succeeds exactly when the new name can be linked and the old one
   * is no dot name. Otherwise the new name stays linked if it could be: renaming a dot name reports failure and leaves the
   * directory under two names.
   */
  lemma RenameOutcome(v: Vol, op: nat, oldName: seq<Byte>, np: nat, newName: seq<Byte>)
    requires Parent(v, op) && Parent(v, np) && v.geo.Sizes() && NamesInode(v, op, oldName)
    requires Movable(v, op, oldName, np, newName)
    ensures DirReady(v, np) && BlockCount(v, GetInode(v, np)) < DIRECT + TABLE_BUFFER && DirLookup(v, op, oldName).rec.ino != 0
    ensures var rec, r := DirLookup(v, op, oldName).rec, Rename(v, op, oldName, np, newName);
            var a := AddEntry(v, np, newName, rec.ino, rec.kind);
            (r.ok <==> a.ok && oldName != DOT && oldName != DOTDOT) &&
            (!r.ok ==> r.v == a.v) &&
            (!r.ok && a.ok ==> a.v.geo == v.geo && DirLookup(r.v, op, oldName) == Present(rec) &&
                               DirLookup(r.v, np, newName) == Present(Rec(rec.ino, newName, rec.kind)))
  {
    hide Owned, AddEntry, RemoveEntry, Entries, LookIn, BlocksTiled, HoleFree, Gained, SameLinks, WellFormedDir, Sound, Relink,
         NoTombstoneFirst, Untouched, HasRoom, DotDot;
    MovableParts(v, op, oldName, np, newName);
    NewIsNoDot(v, np, newName);
    var rec := DirLookup(v, op, oldName).rec;
    var a := AddEntry(v, np, newName, rec.ino, rec.kind);
    if a.ok {
      LinkKeepsOld(v, op, oldName, np, newName, rec);
      RemoveSucceeds(a.v, op, oldName);
      InsertionLookups(v, np, newName, rec.ino, rec.kind, []);
      RemoveSound(a.v, op, oldName);
    }
  }

  /** A whole directory lists its dot names, so they are never new. */
  lemma NewIsNoDot(v: Vol, np: nat, newName: seq<Byte>)
    requires Sound(v) && v.geo.Sizes() && WellFormedDir(v, np) && DirLookup(v, np, newName) == Absent
    ensures newName != DOT && newName != DOTDOT
  {
    hide Owned, Entries, LookIn, HoleFree, BlocksTiled;
    WellFormedSize(v, np);
    DotDotListed(v, np);
  }
}
