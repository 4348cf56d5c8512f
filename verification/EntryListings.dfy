/** The whole listing after an entry was added or removed, for directories whose size cuts off their last block as well. */
module EntryListings {
  import opened Bytes
  import opened InodeCodec
  import opened VolumeState
  import opened BlockMap
  import opened FileData
  import opened FileTheorems
  import opened DirRecords
  import opened DirData
  import opened DirOps
  import opened DirRemoval
  import opened DirTheorems
  import opened AppendTheorems

  // ---------------------------------------------------------------- a split seen up to the size

  /** The records from the split one on, in the first s bytes: one more if it ends there, the same if it is not begun. */
  lemma SplitSeen(d: seq<Byte>, p: nat, s: nat, child: Word32, name: seq<Byte>, kind: Byte)
    requires p + HEADER <= |d| && p + RecLen(d, p) <= |d| && p < s <= |d| && RecLen(d, p) > 0
    requires Nameable(name) && child != 0 && Slack(d, p) >= Padded(|name|)
    ensures var x, y, q := Split(d, p, child, name, kind)[..s], d[..s], p + Padded(NameLen(d, p));
            && (q + HEADER + |name| <= s ==>
                  p + HEADER <= |y| && InsertedAt(Listing(y, p), Listing(x, p), |LiveAt(y, p)|, Rec(child, name, kind)))
            && (q + HEADER > s ==> Listing(x, p) == Listing(y, p))
  {
    hide Listing, LiveAt, Ino, RecLen, NameLen, Name, Split, Padded;
    SplitBytes(d, p, child, name, kind);
    SplitKeepsName(d, p, child, name, kind);
    var e, q, next := Split(d, p, child, name, kind), p + Padded(NameLen(d, p)), p + RecLen(d, p);
    var x, y := e[..s], d[..s];
    if p + HEADER > s {
      ShortListing(x, p);
      ShortListing(y, p);
    } else {
      HeaderOfCut(e, p, s);
      HeaderOfCut(d, p, s);
      ListingStep(x, p);
      ListingStep(y, p);
      if q + HEADER + |name| <= s {
        PrefixRecord(e, p, s);
        PrefixRecord(d, p, s);
        PrefixRecord(e, q, s);
        ListingStep(x, q);
        if next <= s { SuffixOfCut(d, e, next, s); } else { ShortListing(x, next); ShortListing(y, next); }
        InsertedBetween(LiveAt(y, p), Rec(child, name, kind), Listing(y, next));
      } else if q + HEADER > s {
        if q <= s {
          PrefixRecord(e, p, s);
          PrefixRecord(d, p, s);
        } else {
          CutSame(d, e, p, s);
        }
        ShortListing(x, q);
        ShortListing(y, next);
      }
    }
  }

  lemma SuffixOfCut(d: seq<Byte>, e: seq<Byte>, p: nat, s: nat)
    requires SameFrom(d, e, p) && p <= s <= |d|
    ensures Listing(e[..s], p) == Listing(d[..s], p)
  {
    ListingOfSuffix(d[..s], e[..s], p);
  }

  lemma InsertedBetween(a: seq<Rec>, r: Rec, b: seq<Rec>)
    ensures InsertedAt(a + b, a + ([r] + b), |a|, r)
  {
    assert (a + b)[..|a|] == a && (a + b)[|a|..] == b;
  }

  lemma InsertedBehind(a: seq<Rec>, l: seq<Rec>, m: seq<Rec>, k: nat, r: Rec)
    requires InsertedAt(l, m, k, r)
    ensures InsertedAt(a + l, a + m, |a| + k, r)
  {
    assert (a + l)[..|a| + k] == a + l[..k] && (a + l)[|a| + k..] == l[k..];
  }

  /** The same for the whole directory: what its first s bytes list after a split. */
  lemma SplitListed(d: seq<Byte>, p: nat, s: nat, bs: nat, child: Word32, name: seq<Byte>, kind: Byte) returns (k: nat)
    requires BlockSize(bs) && Tiled(d, 0, bs) && Visits(d, 0, p) && p < s <= |d| && p + HEADER <= |d|
    requires Nameable(name) && child != 0 && Slack(d, p) >= Padded(|name|)
    ensures p + RecLen(d, p) <= |d|
    ensures var x, y, q := Split(d, p, child, name, kind)[..s], d[..s], p + Padded(NameLen(d, p));
            && (q + HEADER + |name| <= s ==> InsertedAt(Listing(y, 0), Listing(x, 0), k, Rec(child, name, kind)))
            && (q + HEADER > s ==> Listing(x, 0) == Listing(y, 0))
  {
    hide Listing, LiveAt, Ino, RecLen, NameLen, Name, InBlock, Split, Before, Padded, RecordAt, Tiled, Visits, InsertedAt;
    TiledFrom(d, 0, p, bs);
    RecordBasics(d, p, bs);
    SplitInserts(d, p, bs, child, name, kind);
    var e := Split(d, p, child, name, kind);
    SplitBytes(d, p, child, name, kind);
    WalkOfSplit(d, p, bs, child, name, kind);
    CutWalk(d, 0, p, s, bs);
    CutWalk(e, 0, p, s, bs);
    BeforeSame(d, e, 0, p, bs);
    SplitSeen(d, p, s, child, name, kind);
    k := 0;
    if p + Padded(NameLen(d, p)) + HEADER + |name| <= s {
      k := |Before(d, 0, p)| + |LiveAt(d[..s], p)|;
      InsertedBehind(Before(d, 0, p), Listing(d[..s], p), Listing(e[..s], p), |LiveAt(d[..s], p)|, Rec(child, name, kind));
    }
  }

  // ---------------------------------------------------------------- the listing of the directory

  /**
   * An add can change the listing by its record only, as far as can be told before the call: the size does not cut the new
   * record in two, and a block put behind the others neither brings hidden records to light nor replaces listed ones.
   */
  predicate AddsOnly(v: Vol, ino: nat, name: seq<Byte>)
    requires v.geo.Sizes() && InodeNumber(v, ino) && Nameable(name)
  {
    var n, bs := GetInode(v, ino), v.geo.blockSize;
    var d, t, at := DirBytes(v, n), DirBytes(v, Taller(v, n)), HangOffset(v, n);
    match FitOf(v, ino, name)
    case Hole => true
    case Slot(p) =>
      p + HEADER <= |d| && (var q := p + Padded(NameLen(d, p)); q + HEADER + |name| <= n.size || q + HEADER > n.size)
    case AtEnd(_) =>
      if Hangs(v, n) then at <= |t| && Listing(t[..at], 0) == Entries(v, n) && Listing(Beyond(t, at + bs), 0) == []
      else Listing(t, 0) == Entries(v, n)
  }

  /** The listing after a successful add gains the record, or stays as it was, as foretold. */
  lemma AddLists(v: Vol, ino: nat, name: seq<Byte>, child: Word32, kind: Byte) returns (k: nat)
    requires DirReady(v, ino) && v.geo.Sizes() && InodeNumber(v, ino) && IsDir(GetInode(v, ino)) && Nameable(name) && child != 0
    requires BlockCount(v, GetInode(v, ino)) < DIRECT + TABLE_BUFFER && AddEntry(v, ino, name, child, kind).ok
    requires DirLookup(v, ino, name) == Absent && AddsOnly(v, ino, name)
    ensures var w := AddEntry(v, ino, name, child, kind).v;
            w.geo == v.geo && InodeNumber(w, ino) &&
            if Shows(v, ino, name) then InsertedAt(Entries(v, GetInode(v, ino)), Entries(w, GetInode(w, ino)), k, Rec(child, name, kind))
            else Entries(w, GetInode(w, ino)) == Entries(v, GetInode(v, ino))
  {
    hide Owned, Lookup, Tiled, FirstFit, Listing, FreshBlock, Untouched, BlockCount, BlocksTiled, DirBytes, AddEntry,
         Visible, RoundUp, Extended, Editing, Taller, Append, DirReady, Geometry.Sizes, Beyond, LookIn, InsertedAt, HangOffset,
         Hangs, Padded, NameLen;
    match FitOf(v, ino, name)
    case Hole =>
      k := 0;
      HoleFails(v, ino, name, child, kind);
    case Slot(p) => k := SlotLists(v, ino, name, child, kind, p);
    case AtEnd(p) =>
      AppendLists(v, ino, name, child, kind, p);
      k := |Entries(v, GetInode(v, ino))|;
      if Hangs(v, GetInode(v, ino)) {
        assert [Rec(child, name, kind)] + [] == [Rec(child, name, kind)];
        InsertedLast(Entries(v, GetInode(v, ino)), Rec(child, name, kind));
      }
  }

  lemma HoleFails(v: Vol, ino: nat, name: seq<Byte>, child: Word32, kind: Byte)
    requires DirReady(v, ino) && v.geo.Sizes() && InodeNumber(v, ino) && IsDir(GetInode(v, ino)) && Nameable(name) && child != 0
    requires BlockCount(v, GetInode(v, ino)) < DIRECT + TABLE_BUFFER && FitOf(v, ino, name) == Hole
    ensures !AddEntry(v, ino, name, child, kind).ok
  {
    hide FirstFit, DirBytes;
  }

  lemma SlotLists(v: Vol, ino: nat, name: seq<Byte>, child: Word32, kind: Byte, p: nat) returns (k: nat)
    requires DirReady(v, ino) && v.geo.Sizes() && InodeNumber(v, ino) && IsDir(GetInode(v, ino)) && Nameable(name) && child != 0
    requires BlockCount(v, GetInode(v, ino)) < DIRECT + TABLE_BUFFER
    requires FitOf(v, ino, name) == Slot(p) && AddsOnly(v, ino, name)
    ensures var w := AddEntry(v, ino, name, child, kind).v;
            w.geo == v.geo && w.inodes == v.inodes &&
            if Shows(v, ino, name) then InsertedAt(Entries(v, GetInode(v, ino)), Entries(w, GetInode(w, ino)), k, Rec(child, name, kind))
            else Entries(w, GetInode(w, ino)) == Entries(v, GetInode(v, ino))
  {
    hide Owned, Lookup, FirstFit, DirBytes, Visible, Append, Split, BlocksTiled, Before, LiveAt, Tiled, Padded, NameLen, LookIn,
         Listing, Visits, RecLen, Slack, Untouched, Base, InsertedAt, HEADER;
    var n, bs := GetInode(v, ino), v.geo.blockSize;
    OwnedSizes(v, ino);
    SelfPut(v, ino);
    SlotWritten(v, ino, name, child, kind, p);
    var d, w := DirBytes(v, n), AddEntry(v, ino, name, child, kind).v;
    VisibleIsPrefix(v, n);
    VisibleIsPrefix(w, n);
    k := SplitListed(d, p, Least(n.size, |d|), bs, child, name, kind);
    SlotEnds(d, p, |name|);
  }

  /** Where an add changes the listing by its record only, the name is found afterwards exactly when the record shows. */
  lemma AddedIsFound(v: Vol, ino: nat, name: seq<Byte>, child: Word32, kind: Byte)
    requires DirReady(v, ino) && v.geo.Sizes() && InodeNumber(v, ino) && IsDir(GetInode(v, ino)) && Nameable(name) && child != 0
    requires BlockCount(v, GetInode(v, ino)) < DIRECT + TABLE_BUFFER && AddEntry(v, ino, name, child, kind).ok
    requires DirLookup(v, ino, name) == Absent && AddsOnly(v, ino, name)
    ensures var w := AddEntry(v, ino, name, child, kind).v;
            w.geo == v.geo && DirLookup(w, ino, name) == if Shows(v, ino, name) then Present(Rec(child, name, kind)) else Absent
  {
    hide Owned, Lookup, FirstFit, Listing, DirBytes, AddEntry, Visible, Taller, DirReady, Geometry.Sizes, LookIn, HangOffset, Hangs,
         Entries, BlockCount, Beyond;
    CreatedIsFound(v, ino, name, child, kind);
  }

  /** A whole directory with room: an add changes nothing else, and its record shows. */
  lemma RoomAddsOnly(v: Vol, ino: nat, name: seq<Byte>)
    requires HasRoom(v, ino) && Nameable(name) && v.geo.Sizes() && InodeNumber(v, ino) && DirLookup(v, ino, name) == Absent
    ensures AddsOnly(v, ino, name) && (Shows(v, ino, name) || FitOf(v, ino, name) == Hole)
  {
    hide Owned, Lookup, Tiled, FirstFit, Listing, Untouched, BlocksTiled, DirBytes, Visible, RoundUp, Editing, Taller, Append, LookIn,
         Padded, NameLen, RecLen, Slack, HoleFree, Aligned, Visits, Split, Base, InsertedAt, Before, LiveAt;
    var n, bs := GetInode(v, ino), v.geo.blockSize;
    OwnedSizes(v, ino);
    SelfPut(v, ino);
    WholeDir(v, n);
    match FitOf(v, ino, name)
    case Hole =>
    case Slot(p) =>
      SlotWritten(v, ino, name, 1, 1, p);
      SlotEnds(DirBytes(v, n), p, |name|);
    case AtEnd(p) =>
      AppendFacts(v, ino, name, p);
      TallerShows(v, ino, n);
      CountOfWhole(v, ino);
      NothingBeyond(DirBytes(v, Taller(v, n)), n.size + bs);
  }

  lemma NothingBeyond(t: seq<Byte>, p: nat)
    requires |t| <= p
    ensures Listing(Beyond(t, p), 0) == []
  {}

  // ---------------------------------------------------------------- a removal seen up to the size

  /** The records in front of p, and those behind the record at p, in the first s bytes. */
  lemma ErasedSeen(d: seq<Byte>, p: nat, prev: int, s: nat, r: nat, bs: nat)
    requires BlockSize(bs) && Tiled(d, 0, bs) && Visits(d, 0, p) && p < |d| && p + HEADER <= |d|
    requires prev >= 0 ==> Precedes(d, prev, p) && Visits(d, 0, prev)
    requires prev >= 0 && prev / bs == p / bs ==> RecLen(d, prev) + RecLen(d, p) < 0x1_0000
    requires p + RecLen(d, p) <= s <= |d| && (r == s || (r == p && p + RecLen(d, p) == s))
    ensures var x, y, next := Erase(d, p, prev, bs)[..r], d[..s], p + RecLen(d, p);
            Listing(y, 0) == Before(d, 0, p) + LiveAt(d, p) + Listing(y, next) && Listing(x, 0) == Before(d, 0, p) + Listing(y, next)
  {
    hide Listing, LiveAt, Ino, RecLen, NameLen, Name, InBlock, Merge, Tombstone, Before, Padded, Tiled, Visits;
    var e, next := Erase(d, p, prev, bs), p + RecLen(d, p);
    var x, y := e[..r], d[..s];
    NamesFit(d, p, bs);
    PrefixRecord(d, p, s);
    ListingStep(y, p);
    CutWalk(d, 0, p, s, bs);
    Regroup(Before(d, 0, p), LiveAt(d, p), Listing(y, next));
    EraseTiled(d, p, prev, bs);
    if r == s { SuffixOfCut(d, e, next, s); } else { NothingAfter(y); ShortListing(x, next); }
    if prev >= 0 && prev / bs == p / bs {
      MergedSeen(d, p, prev, r, bs);
      BeforeNext(d, prev, p, bs);
      Regroup(Before(d, 0, prev), LiveAt(d, prev), Listing(x, next));
    } else {
      CutWalk(e, 0, p, r, bs);
      BeforeSame(d, e, 0, p, bs);
      TombstoneSeen(d, p, r);
    }
  }

  /** A record ends behind its name. */
  lemma NamesFit(d: seq<Byte>, p: nat, bs: nat)
    requires BlockSize(bs) && Tiled(d, 0, bs) && Visits(d, 0, p) && p < |d|
    ensures p + HEADER <= |d| && p + HEADER + NameLen(d, p) <= p + RecLen(d, p) <= |d| && RecLen(d, p) >= HEADER
  {
    hide InBlock, Ino;
    TiledFrom(d, 0, p, bs);
    RecordBasics(d, p, bs);
  }

  /** The erased bytes are tiled, walked to the record changed, and as before up to it and behind the record gone. */
  lemma EraseTiled(d: seq<Byte>, p: nat, prev: int, bs: nat)
    requires BlockSize(bs) && Tiled(d, 0, bs) && Visits(d, 0, p) && p < |d| && p + HEADER <= |d|
    requires prev >= 0 ==> Precedes(d, prev, p) && Visits(d, 0, prev)
    requires prev >= 0 && prev / bs == p / bs ==> RecLen(d, prev) + RecLen(d, p) < 0x1_0000
    ensures var e, at := Erase(d, p, prev, bs), if prev >= 0 && prev / bs == p / bs then prev else p;
            Tiled(e, 0, bs) && Visits(e, 0, at) && SameBetween(d, e, 0, at) && SameFrom(d, e, p + RecLen(d, p))
  {
    hide Tiled, RecLen, Visits, Listing, LiveAt, NameLen, Before, Ino, Name, Merge, Tombstone;
    NamesFit(d, p, bs);
    EraseListing(d, p, prev, bs);
    var e := Erase(d, p, prev, bs);
    if prev >= 0 && prev / bs == p / bs {
      NamesFit(d, prev, bs);
      MergeRemoves(d, prev, bs);
      MergeBytes(d, prev, p);
    } else {
      TombstoneBytes(d, p);
      VisitsSame(d, e, 0, p, bs);
    }
  }

  /** A walk only depends on the bytes in front of where it leads. */
  lemma {:induction false} VisitsSame(d: seq<Byte>, e: seq<Byte>, p: nat, q: nat, bs: nat)
    requires BlockSize(bs) && SameBetween(d, e, 0, q) && Tiled(d, p, bs) && Visits(d, p, q)
    ensures Visits(e, p, q)
    decreases |d| - p
  {
    hide InBlock, LiveAt, RecLen, NameLen, Ino, Le16, Le32, Name;
    if p != q {
      TiledFrom(d, p + RecLen(d, p), q, bs);
      SameRecord(d, e, p) by {
        SameSlices(d, e, 0, q, p, p + HEADER);
        SameSlices(d, e, 0, q, p + HEADER, p + HEADER + NameLen(d, p));
      }
      VisitsSame(d, e, p + RecLen(d, p), q, bs);
    }
  }

  lemma MergedSeen(d: seq<Byte>, p: nat, prev: nat, r: nat, bs: nat)
    requires BlockSize(bs) && Tiled(d, 0, bs) && Visits(d, 0, p) && p < |d| && p + HEADER <= |d| && p <= r <= |d|
    requires Precedes(d, prev, p) && Visits(d, 0, prev) && prev / bs == p / bs && RecLen(d, prev) + RecLen(d, p) < 0x1_0000
    ensures var x := Erase(d, p, prev, bs)[..r];
            Listing(x, 0) == Before(d, 0, prev) + (LiveAt(d, prev) + Listing(x, p + RecLen(d, p)))
  {
    hide Listing, LiveAt, Ino, RecLen, NameLen, Name, InBlock, Before, Padded, Tiled, Visits, Merge;
    var e := Erase(d, p, prev, bs);
    EraseTiled(d, p, prev, bs);
    NamesFit(d, prev, bs);
    MergeRemoves(d, prev, bs);
    MergeBytes(d, prev, p);
    CutWalk(e, 0, prev, r, bs);
    BeforeSame(d, e, 0, prev, bs);
    PrefixRecord(e, prev, r);
    ListingStep(e[..r], prev);
  }

  lemma TombstoneSeen(d: seq<Byte>, p: nat, r: nat)
    requires p + HEADER <= |d| && RecLen(d, p) >= HEADER && p <= r <= |d|
    ensures var x := Tombstone(d, p)[..r]; Listing(x, p) == Listing(x, p + RecLen(d, p))
  {
    hide Listing, RecLen, NameLen, Name, Tombstone;
    TombstoneBytes(d, p);
    var e := Tombstone(d, p);
    if p + HEADER <= r {
      HeaderOfCut(e, p, r);
      ListingStep(e[..r], p);
      assert LiveAt(e[..r], p) == [];
    } else {
      ShortListing(e[..r], p);
      ShortListing(e[..r], p + RecLen(d, p));
    }
  }

  /**
   * A removal can change the listing by one record only, as far as can be told before the call: the first record of the name
   * is live, and the size does not cut it in two.
   */
  predicate RemovesOnly(v: Vol, ino: nat, name: seq<Byte>)
    requires v.geo.Sizes() && InodeNumber(v, ino)
  {
    var n := GetInode(v, ino);
    var d := DirBytes(v, n);
    match FindPos(d, n.size, name, 0, -1)
    case Missing => true
    case At(p, _) => p + HEADER <= |d| && Ino(d, p) != 0 && p + RecLen(d, p) <= n.size
  }

  /** A whole directory, where no deleted record of the name comes first. */
  lemma WholeRemovesOnly(v: Vol, ino: nat, name: seq<Byte>)
    requires WellFormedDir(v, ino) && v.geo.Sizes() && InodeNumber(v, ino) && NoTombstoneFirst(v, ino, name)
    ensures RemovesOnly(v, ino, name)
  {
    hide Owned, Lookup, Tiled, BlocksTiled, DirBytes, Visits, FindPos, RecLen, Before, Ino, ReadEnd, Name, Precedes, HoleFree, Aligned,
         Visible;
    WholeDir(v, GetInode(v, ino));
    match FindPos(DirBytes(v, GetInode(v, ino)), GetInode(v, ino).size, name, 0, -1)
    case Missing =>
    case At(p, prev) => PickedRecord(v, ino, name, p, prev);
  }

  /** Such a removal takes the entry found under the name out of the ordered listing, and nothing else. */
  lemma RemoveLists(v: Vol, ino: nat, name: seq<Byte>, p: nat, prev: int)
    requires DirReady(v, ino) && v.geo.Sizes() && InodeNumber(v, ino) && IsDir(GetInode(v, ino)) && RemoveEntry(v, ino, name).ok
    requires RemovesOnly(v, ino, name)
    requires FindPos(DirBytes(v, GetInode(v, ino)), GetInode(v, ino).size, name, 0, -1) == At(p, prev)
    ensures var w, n := RemoveEntry(v, ino, name).v, GetInode(v, ino);
            w.geo == v.geo && InodeNumber(w, ino) &&
            RemovedAt(Entries(v, n), Entries(w, GetInode(w, ino)), FindName(Entries(v, n), name))
  {
    hide Owned, Lookup, Tiled, Untouched, BlocksTiled, DirBytes, Visits, Listing, Erase, FindPos, RecLen, LiveAt, Before, RemovedAt,
         FindName, Base, Ino, ReadEnd, Name, Precedes, Aligned, Visible;
    var n, bs := GetInode(v, ino), v.geo.blockSize;
    var d, u, w := DirBytes(v, n), EraseAt(v, ino, name, p, prev), RemoveEntry(v, ino, name).v;
    var m := GetInode(w, ino);
    PickedRecord(v, ino, name, p, prev);
    EraseWritten(v, ino, name, p, prev);
    RemoveKeeps(v, ino, name);
    if p + RecLen(d, p) >= n.size { ShrunkTo(n.size, RecLen(d, p), p); }
    SameDataDir(u, w, n);
    VisibleCut(w, n, m);
    VisibleIsPrefix(v, n);
    ErasedSeen(d, p, prev, Least(n.size, |d|), Least(m.size, |d|), bs);
    PickedAt(Before(d, 0, p), LiveAt(d, p), Listing(d[..Least(n.size, |d|)], p + RecLen(d, p)), name) by { hide *; LiveIsOne(d, p); }
  }

  lemma LiveIsOne(d: seq<Byte>, p: nat)
    requires p + HEADER <= |d| && Ino(d, p) != 0
    ensures LiveAt(d, p) == [Rec(Ino(d, p), Name(d, p), d[p + 7])]
  {}

  /** The first record of a name, taken out. */
  lemma PickedAt(a: seq<Rec>, r: seq<Rec>, b: seq<Rec>, name: seq<Byte>)
    requires Unnamed(a, name) && |r| == 1 && r[0].name == name
    ensures RemovedAt(a + r + b, a + b, FindName(a + r + b, name))
  {
    var l := a + r + b;
    assert l[..|a|] == a && l[|a|] == r[0] && l[|a| + 1..] == b;
    FirstNameIsUnique(l, name, |a|);
  }

  /** A lower size shows the first of the bytes that a higher one maps. */
  lemma VisibleCut(v: Vol, n: Inode, m: Inode)
    requires v.geo.Sizes() && m.block == n.block && m.size <= n.size
    ensures Visible(v, m) == DirBytes(v, n)[..Least(m.size, |DirBytes(v, n)|)]
  {
    hide ReadEnd, RoundUp;
    assert forall x: nat :: MappedAt(v, m, x) == MappedAt(v, n, x) && ByteAt(v, m, x) == ByteAt(v, n, x);
    hide Lookup, MappedAt, ByteAt, DirBytes;
    var bs := v.geo.blockSize;
    RoundUpAligned(n.size, bs);
    RoundUpAligned(m.size, bs);
    RoundUpGrows(m.size, n.size, bs);
    ReadEndIsFirstHole(v, n, 0, RoundUp(n.size, bs));
    ReadEndIsFirstHole(v, m, 0, RoundUp(m.size, bs));
    VisibleIsPrefix(v, m);
    var x, y := Visible(v, m), DirBytes(v, n)[..Least(m.size, |DirBytes(v, n)|)];
    assert |x| == |y|;
    forall i: nat | i < |y| ensures x[i] == y[i] {
      DirShows(v, m, i);
      DirShows(v, n, i);
    }
    SameIndexed(x, y);
  }

  lemma RoundUpGrows(x: nat, y: nat, bs: nat)
    requires BlockSize(bs) && x <= y
    ensures RoundUp(x, bs) <= RoundUp(y, bs)
  {}
}
