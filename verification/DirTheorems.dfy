/** What adding to and removing from a directory means for its name map, and where the kernel's directories fall short. */
module DirTheorems {
  import opened Bytes
  import opened InodeCodec
  import opened VolumeState
  import opened BlockMap
  import opened FileData
  import opened FileTheorems
  import opened DirRecords
  import opened DirData
  import opened DirOps
  import opened DirRemoval

  /** A directory with room in its map for one more block. */
  ghost predicate HasRoom(v: Vol, ino: nat) {
    && WellFormedDir(v, ino) && BlockCount(v, GetInode(v, ino)) < DIRECT + PerTable(v)
    && GetInode(v, ino).size + v.geo.blockSize < 0x1_0000_0000
  }

  lemma RoomReady(v: Vol, ino: nat)
    requires HasRoom(v, ino)
    ensures DirReady(v, ino) && v.geo.Sizes() && InodeNumber(v, ino) && IsDir(GetInode(v, ino))
    ensures BlockCount(v, GetInode(v, ino)) < DIRECT + TABLE_BUFFER
  {}

  /** In the split and in both append cases the listing gains exactly the new record. */
  lemma AddInserts(v: Vol, ino: nat, name: seq<Byte>, child: Word32, kind: Byte) returns (k: nat)
    requires HasRoom(v, ino) && Nameable(name) && child != 0 && DirReady(v, ino)
    requires BlockCount(v, GetInode(v, ino)) < DIRECT + TABLE_BUFFER && AddEntry(v, ino, name, child, kind).ok
    ensures var r := AddEntry(v, ino, name, child, kind);
            WellFormedDir(r.v, ino) && r.v.geo == v.geo &&
            InsertedAt(Entries(v, GetInode(v, ino)), Entries(r.v, GetInode(r.v, ino)), k, Rec(child, name, kind))
  {
    hide Owned, Untouched, Lookup, WellFormedDir, FirstFit, DirBytes, Append, WriteDirBlock, Split, BlocksTiled, Entries,
         Before, LiveAt;
    RoomReady(v, ino);
    k := 0;
    AddKeeps(v, ino, name, child, kind);
    var n, r := GetInode(v, ino), AddEntry(v, ino, name, child, kind);
    match FitOf(v, ino, name)
    case Hole =>
    case Slot(p) =>
      AddBySplitInserts(v, ino, name, child, kind, p);
      k := |Before(DirBytes(v, n), 0, p)| + |LiveAt(DirBytes(v, n), p)|;
    case AtEnd(p) =>
      AddByAppendInserts(v, ino, name, child, kind, p);
      k := |Entries(v, n)|;
      InsertedLast(Entries(v, n), Rec(child, name, kind));
  }

  lemma InsertedLast(l: seq<Rec>, r: Rec)
    ensures InsertedAt(l, l + [r], |l|, r)
  {}

  /** A name is absent from the lookup exactly when no record bears it. */
  lemma AbsentIsUnnamed(l: seq<Rec>, name: seq<Byte>)
    ensures LookIn(l, name) == Absent <==> Unnamed(l, name)
  {
    var k := FindName(l, name);
    if k == |l| { assert l[..k] == l; }
  }

  /** Insertion: the new name is found, every other name is found as before. */
  lemma InsertionLookups(v: Vol, ino: nat, name: seq<Byte>, child: Word32, kind: Byte, other: seq<Byte>)
    requires HasRoom(v, ino) && Nameable(name) && child != 0 && DirReady(v, ino)
    requires BlockCount(v, GetInode(v, ino)) < DIRECT + TABLE_BUFFER && AddEntry(v, ino, name, child, kind).ok
    requires DirLookup(v, ino, name) == Absent && other != name
    ensures var w := AddEntry(v, ino, name, child, kind).v;
            w.geo == v.geo && DirLookup(w, ino, name) == Present(Rec(child, name, kind))
            && DirLookup(w, ino, other) == DirLookup(v, ino, other)
  {
    hide Owned, AddEntry, LookIn, Entries, HasRoom, BlocksTiled, InsertedAt;
    RoomReady(v, ino);
    var k := AddInserts(v, ino, name, child, kind);
    var r := AddEntry(v, ino, name, child, kind);
    AddKeeps(v, ino, name, child, kind);
    var l, m := Entries(v, GetInode(v, ino)), Entries(r.v, GetInode(r.v, ino));
    AbsentIsUnnamed(l, name);
    InsertFinds(l, m, k, Rec(child, name, kind), other);
    InsertFinds(l, m, k, Rec(child, name, kind), name);
  }

  lemma WellFormedBasics(v: Vol, ino: nat)
    requires WellFormedDir(v, ino)
    ensures DirReady(v, ino) && v.geo.Sizes() && InodeNumber(v, ino) && IsDir(GetInode(v, ino))
  {}

  /** The position a successful removal acts on. */
  lemma RemovalFound(v: Vol, ino: nat, name: seq<Byte>) returns (p: nat, prev: int)
    requires DirReady(v, ino) && RemoveEntry(v, ino, name).ok
    ensures v.geo.Sizes() && InodeNumber(v, ino) && IsDir(GetInode(v, ino)) && name != DOT && name != DOTDOT
    ensures FindPos(DirBytes(v, GetInode(v, ino)), GetInode(v, ino).size, name, 0, -1) == At(p, prev)
    ensures DirLookup(v, ino, name) != Absent
  {
    hide Owned, BlocksTiled, FindPos, DirBytes, RemoveAt, LookIn, Entries;
    OwnedSizes(v, ino);
    p, prev := 0, -1;
    match FindPos(DirBytes(v, GetInode(v, ino)), GetInode(v, ino).size, name, 0, -1)
    case At(q, r) => p, prev := q, r;
    case Missing =>
  }

  /** Removal: the entry found under the name leaves the listing, and every other name is found as before. */
  lemma RemovalLookups(v: Vol, ino: nat, name: seq<Byte>, other: seq<Byte>)
    requires WellFormedDir(v, ino) && DirReady(v, ino) && RemoveEntry(v, ino, name).ok
    requires v.geo.Sizes() && InodeNumber(v, ino) && NoTombstoneFirst(v, ino, name) && other != name
    ensures var w, n := RemoveEntry(v, ino, name).v, GetInode(v, ino);
            w.geo == v.geo && InodeNumber(w, ino)
            && RemovedAt(Entries(v, n), Entries(w, GetInode(w, ino)), FindName(Entries(v, n), name))
            && DirLookup(w, ino, other) == DirLookup(v, ino, other)
  {
    hide Owned, RemoveEntry, LookIn, Entries, BlocksTiled, RemovedAt, FindPos, DirBytes, NoTombstoneFirst, FindName, RecLen;
    var p, prev := RemovalFound(v, ino, name);
    RemoveIsExact(v, ino, name, p, prev);
    RemoveKeeps(v, ino, name);
    var w, n := RemoveEntry(v, ino, name).v, GetInode(v, ino);
    FoundAt(Entries(v, n), name);
    RemoveFinds(Entries(v, n), Entries(w, GetInode(w, ino)), FindName(Entries(v, n), name), other);
  }

  lemma FoundAt(l: seq<Rec>, name: seq<Byte>)
    ensures FindName(l, name) < |l| ==> l[FindName(l, name)].name == name && LookIn(l, name) == Present(l[FindName(l, name)])
    ensures FindName(l, name) >= |l| ==> LookIn(l, name) == Absent
  {}

  // ---------------------------------------------------------------- a size inside a record hides what is added behind it

  /** A walk over bytes cut at s passes the same records as over the whole, up to any boundary not past s. */
  lemma {:induction false} CutWalk(d: seq<Byte>, p: nat, q: nat, s: nat, bs: nat)
    requires BlockSize(bs) && Tiled(d, p, bs) && Visits(d, p, q) && q <= s <= |d|
    ensures Listing(d[..s], p) == Before(d, p, q) + Listing(d[..s], q)
    decreases |d| - p
  {
    hide LiveAt, InBlock, Padded, Ino, Name;
    if p != q {
      var n := p + RecLen(d, p);
      TiledFrom(d, n, q, bs);
      PrefixRecord(d, p, s);
      CutWalk(d, n, q, s, bs);
      Regroup(LiveAt(d, p), Before(d, n, q), Listing(d[..s], q));
    }
  }

  /** A record whose name reaches past the cut is not listed under that name. */
  lemma CutName(e: seq<Byte>, q: nat, s: nat, name: seq<Byte>)
    requires q + HEADER <= |e| && s <= |e| && NameLen(e, q) == |name| && RecLen(e, q) > 0
    requires s < q + HEADER + |name| && s <= q + RecLen(e, q)
    ensures Unnamed(Listing(e[..s], q), name)
  {
    var c := e[..s];
    if q + HEADER <= s {
      HeaderOfCut(e, q, s);
      assert |Name(c, q)| < |name|;
      assert Listing(c, q + RecLen(c, q)) == [];
    }
  }

  lemma HeaderOfCut(e: seq<Byte>, q: nat, s: nat)
    requires q + HEADER <= s <= |e|
    ensures RecLen(e[..s], q) == RecLen(e, q) && NameLen(e[..s], q) == NameLen(e, q) && Ino(e[..s], q) == Ino(e, q)
  {}

  /** What the cut does to a record of which it shows the header: equal bytes, equal records. */
  lemma CutSame(d: seq<Byte>, e: seq<Byte>, p: nat, s: nat)
    requires p + HEADER <= s <= |d| && |e| == |d|
    requires forall i :: p <= i < s && !(p + 4 <= i < p + 6) ==> e[i] == d[i]
    ensures LiveAt(e[..s], p) == LiveAt(d[..s], p)
  {
    var x, y := e[..s], d[..s];
    assert forall i :: p <= i < s && !(p + 4 <= i < p + 6) ==> x[i] == y[i];
    var hi := if p + HEADER + NameLen(x, p) <= s then p + HEADER + NameLen(x, p) else s;
    assert x[p] == y[p] && x[p + 1] == y[p + 1] && x[p + 2] == y[p + 2] && x[p + 3] == y[p + 3];
    assert x[p + 6] == y[p + 6] && x[p + 7] == y[p + 7];
    assert x[p + HEADER..hi] == y[p + HEADER..hi];
    assert x[p + HEADER..] == y[p + HEADER..];
  }

  lemma SplitKeepsName(d: seq<Byte>, p: nat, child: Word32, name: seq<Byte>, kind: Byte)
    requires p + HEADER <= |d| && p + RecLen(d, p) <= |d| && Nameable(name) && Slack(d, p) >= Padded(|name|)
    ensures var e := Split(d, p, child, name, kind);
            forall i :: p <= i < p + Padded(NameLen(d, p)) && i < |d| && !(p + 4 <= i < p + 6) ==> e[i] == d[i]
  {
    hide Record, Padded, RecLen, NameLen;
  }

  lemma {:induction false} BeforeSame(d: seq<Byte>, e: seq<Byte>, p: nat, q: nat, bs: nat)
    requires BlockSize(bs) && SameBetween(d, e, 0, q) && Tiled(d, p, bs) && Visits(d, p, q)
    ensures Before(e, p, q) == Before(d, p, q)
    decreases |d| - p
  {
    hide InBlock, LiveAt, RecLen, NameLen, Ino, Le16, Le32, Name;
    if p != q {
      TiledFrom(d, p + RecLen(d, p), q, bs);
      SameRecord(d, e, p) by {
        SameSlices(d, e, 0, q, p, p + HEADER);
        SameSlices(d, e, 0, q, p + HEADER, p + HEADER + NameLen(d, p));
      }
      BeforeSame(d, e, p + RecLen(d, p), q, bs);
    }
  }

  lemma UnnamedParts(a: seq<Rec>, b: seq<Rec>, name: seq<Byte>)
    ensures Unnamed(a + b, name) <==> Unnamed(a, name) && Unnamed(b, name)
  {
    var l := a + b;
    if Unnamed(l, name) {
      forall i | 0 <= i < |a| ensures a[i].name != name { assert l[i] == a[i]; }
      forall i | 0 <= i < |b| ensures b[i].name != name { assert l[|a| + i] == b[i]; }
    }
  }

  lemma {:induction false} LookBehind(a: seq<Rec>, b: seq<Rec>, name: seq<Byte>)
    requires Unnamed(a, name)
    ensures LookIn(a + b, name) == LookIn(b, name)
  {
    if a == [] {
      assert a + b == b;
    } else {
      assert a[0].name != name && forall i :: 0 <= i < |a| - 1 ==> a[1..][i] == a[i + 1];
      LookBehind(a[1..], b, name);
      assert (a + b)[1..] == a[1..] + b && (a + b)[0] == a[0];
    }
  }

  /** The records from the split one on, cut at s. */
  lemma SplitTail(d: seq<Byte>, p: nat, s: nat, child: Word32, name: seq<Byte>, kind: Byte)
    requires p + HEADER <= |d| && p + RecLen(d, p) <= |d| && p < s <= |d| && RecLen(d, p) > 0
    requires Nameable(name) && child != 0 && Slack(d, p) >= Padded(|name|) && Unnamed(Listing(d[..s], p), name)
    ensures LookIn(Listing(Split(d, p, child, name, kind)[..s], p), name) ==
              if p + Padded(NameLen(d, p)) + HEADER + |name| <= s then Present(Rec(child, name, kind)) else Absent
  {
    hide Listing, LiveAt, LookIn, Ino, RecLen, NameLen, Name, Split;
    SplitBytes(d, p, child, name, kind);
    SplitKeepsName(d, p, child, name, kind);
    var e, q := Split(d, p, child, name, kind), p + Padded(NameLen(d, p));
    var x, y := e[..s], d[..s];
    if p + HEADER > s {
      AbsentIsUnnamed([], name);
      ShortListing(x, p);
    } else {
      HeaderOfCut(e, p, s);
      HeaderOfCut(d, p, s);
      ListingStep(x, p);
      ListingStep(y, p);
      UnnamedParts(LiveAt(y, p), Listing(y, p + RecLen(d, p)), name);
      if q + HEADER + |name| <= s {
        PrefixRecord(e, p, s);
        PrefixRecord(d, p, s);
        PrefixRecord(e, q, s);
        ListingStep(x, q);
        LookBehind(LiveAt(x, p), Listing(x, q), name);
        LookFirst(Rec(child, name, kind), Listing(x, q + RecLen(x, q)));
      } else {
        if q <= s {
          PrefixRecord(e, p, s);
          PrefixRecord(d, p, s);
          CutName(e, q, s, name);
        } else {
          CutSame(d, e, p, s);
          ShortListing(x, q);
        }
        UnnamedParts(LiveAt(x, p), Listing(x, q), name);
        AbsentIsUnnamed(Listing(x, p), name);
      }
    }
  }

  lemma ShortListing(d: seq<Byte>, p: nat)
    requires p + HEADER > |d|
    ensures Listing(d, p) == []
  {}

  /**
   * A record split off behind p, looked up in the first s bytes: it is found exactly when its whole name lies below s.
   */
  lemma SplitVisible(d: seq<Byte>, p: nat, s: nat, bs: nat, child: Word32, name: seq<Byte>, kind: Byte)
    requires BlockSize(bs) && Tiled(d, 0, bs) && Visits(d, 0, p) && p < s <= |d| && p + HEADER <= |d|
    requires Nameable(name) && child != 0 && Slack(d, p) >= Padded(|name|)
    requires LookIn(Listing(d[..s], 0), name) == Absent
    ensures p + RecLen(d, p) <= |d|
    ensures LookIn(Listing(Split(d, p, child, name, kind)[..s], 0), name) ==
              if p + Padded(NameLen(d, p)) + HEADER + |name| <= s then Present(Rec(child, name, kind)) else Absent
  {
    hide Listing, LiveAt, LookIn, Ino, RecLen, NameLen, Name, InBlock, Split, Before, Padded, RecordAt, Tiled, Visits;
    TiledFrom(d, 0, p, bs);
    RecordBasics(d, p, bs);
    SplitInserts(d, p, bs, child, name, kind);
    var e := Split(d, p, child, name, kind);
    SplitBytes(d, p, child, name, kind);
    WalkOfSplit(d, p, bs, child, name, kind);
    CutWalk(d, 0, p, s, bs);
    CutWalk(e, 0, p, s, bs);
    BeforeSame(d, e, 0, p, bs);
    AbsentIsUnnamed(Listing(d[..s], 0), name);
    UnnamedParts(Before(d, 0, p), Listing(d[..s], p), name);
    SplitTail(d, p, s, child, name, kind);
    LookBehind(Before(d, 0, p), Listing(e[..s], p), name);
  }

  lemma WalkOfSplit(d: seq<Byte>, p: nat, bs: nat, child: Word32, name: seq<Byte>, kind: Byte)
    requires BlockSize(bs) && Tiled(d, 0, bs) && Visits(d, 0, p) && p < |d| && p + HEADER <= |d|
    requires Nameable(name) && child != 0 && Slack(d, p) >= Padded(|name|) && p + RecLen(d, p) <= |d|
    ensures Visits(Split(d, p, child, name, kind), 0, p) && Tiled(Split(d, p, child, name, kind), 0, bs)
  {
    hide Listing, LiveAt, Ino, RecLen, NameLen, Name, InBlock, Split, Before, Padded, Tiled, Visits;
    TiledFrom(d, 0, p, bs);
    TiledStep(d, p, bs);
    SplitRecords(d, p, bs, child, name, kind);
    WalkToChange(d, Split(d, p, child, name, kind), 0, p, bs);
  }

  function Least(a: nat, b: nat): nat {
    if a < b then a else b
  }

  /** Readers see the mapped bytes, as far as the size goes. */
  lemma VisibleIsPrefix(v: Vol, n: Inode)
    requires v.geo.Sizes()
    ensures Visible(v, n) == DirBytes(v, n)[..Least(n.size, |DirBytes(v, n)|)]
  {
    if n.size >= |DirBytes(v, n)| { assert DirBytes(v, n)[..|DirBytes(v, n)|] == DirBytes(v, n); }
  }

  /**
   * Creation after the size went down: when the entry goes into the slack of the record at p, success is reported,
   * but the name is found afterwards exactly when it ends below the size, which the kernel does not raise.
   */
  lemma CreatedButHidden(v: Vol, ino: nat, name: seq<Byte>, child: Word32, kind: Byte, p: nat)
    requires DirReady(v, ino) && v.geo.Sizes() && InodeNumber(v, ino) && IsDir(GetInode(v, ino)) && Nameable(name) && child != 0
    requires BlockCount(v, GetInode(v, ino)) < DIRECT + TABLE_BUFFER
    requires FitOf(v, ino, name) == Slot(p)
    requires DirLookup(v, ino, name) == Absent
    ensures p + HEADER <= |DirBytes(v, GetInode(v, ino))|
    ensures var r, n := AddEntry(v, ino, name, child, kind), GetInode(v, ino);
            r.ok && r.v.geo == v.geo &&
            DirLookup(r.v, ino, name) ==
              if p + Padded(NameLen(DirBytes(v, n), p)) + HEADER + |name| <= n.size then Present(Rec(child, name, kind)) else Absent
  {
    hide Owned, Lookup, FirstFit, DirBytes, Visible, Append, Split, BlocksTiled, Before, LiveAt, Tiled, Padded, NameLen, LookIn,
         Listing, Visits, RecLen, Slack, Untouched, Base, InsertedAt, HEADER;
    var n, bs := GetInode(v, ino), v.geo.blockSize;
    OwnedSizes(v, ino);
    SelfPut(v, ino);
    SlotWritten(v, ino, name, child, kind, p);
    var d, w := DirBytes(v, n), AddEntry(v, ino, name, child, kind).v;
    VisibleIsPrefix(v, n);
    VisibleIsPrefix(w, n);
    SplitVisible(d, p, Least(n.size, |d|), bs, child, name, kind);
    SlotEnds(d, p, |name|);
  }

  /** Room in a record is room below the end of the bytes. */
  lemma SlotEnds(d: seq<Byte>, p: nat, len: nat)
    requires p + HEADER <= |d| && p + RecLen(d, p) <= |d| && Slack(d, p) >= Padded(len)
    ensures p + Padded(NameLen(d, p)) + HEADER + len <= |d|
  {}

  // ---------------------------------------------------------------- two more limits

  lemma SameView(v: Vol, n: Inode, w: Vol, m: Inode)
    requires v.geo.Sizes() && w.geo == v.geo && HoleFree(v, n) && Aligned(n.size, v.geo.blockSize) && !MappedAt(v, n, n.size)
    requires m.size == n.size + v.geo.blockSize && forall l: nat :: Lookup(w, m, l) == Lookup(v, n, l)
    requires forall l: nat :: Lookup(v, n, l) != 0 ==> Content(w, Lookup(v, n, l)) == Content(v, Lookup(v, n, l))
    ensures Visible(w, m) == Visible(v, n)
  {
    hide Lookup, ReadEnd, Aligned;
    WholeDir(v, n);
    AlignedEnd(n.size, v.geo.blockSize);
    RoundUpAligned(m.size, v.geo.blockSize);
    forall x: nat ensures MappedAt(w, m, x) == MappedAt(v, n, x) {}
    ReadEndIsFirstHole(w, m, 0, RoundUp(m.size, v.geo.blockSize));
    assert DirEnd(w, m) == n.size;
    forall x: nat | x < n.size ensures ByteAt(w, m, x) == ByteAt(v, n, x) {
      assert MappedAt(v, n, x);
    }
    assert DirBytes(w, m) == DirBytes(v, n);
  }

  /**
   * With twelve direct blocks and a full single-indirect table an appending add still reports success, takes a block
   * and raises the size, but the directory lists what it listed before; below that limit the name is listed last.
   */
  lemma FullTableLoses(v: Vol, ino: nat, name: seq<Byte>, child: Word32, kind: Byte, p: nat)
    requires WellFormedDir(v, ino) && v.geo.Sizes() && InodeNumber(v, ino) && Nameable(name) && child != 0 && DirReady(v, ino)
    requires FitOf(v, ino, name) == AtEnd(p) && BlockCount(v, GetInode(v, ino)) < DIRECT + TABLE_BUFFER
    requires GetInode(v, ino).size + v.geo.blockSize < 0x1_0000_0000 && !MappedAt(v, GetInode(v, ino), GetInode(v, ino).size)
    requires AddEntry(v, ino, name, child, kind).ok
    ensures var r, n := AddEntry(v, ino, name, child, kind), GetInode(v, ino);
            r.v.geo == v.geo && InodeNumber(r.v, ino) &&
            Entries(r.v, GetInode(r.v, ino)) ==
              if BlockCount(v, n) < DIRECT + PerTable(v) then Entries(v, n) + [Rec(child, name, kind)] else Entries(v, n)
  {
    hide Allocated, Exclusive, Chained, Geometry.MetaReserved, Geometry.MetaApart, Geometry.Totals, Append, Tiled,
         FirstFit, Untouched, BlocksTiled, MetaUsed, BlocksSized, Slack, RecLen, Visits, Listing, AddEntry,
         Before, LiveAt, ReadEnd, Lookup, FreshBlock, RoundUp, DirBytes, Visible;
    var n, bs := GetInode(v, ino), v.geo.blockSize;
    if BlockCount(v, n) < DIRECT + PerTable(v) {
      AddByAppendInserts(v, ino, name, child, kind, p);
      AddKeeps(v, ino, name, child, kind);
    } else {
      SelfPut(v, ino);
      SizesBlock(v, ino, n);
      WholeDir(v, n);
      DirTiled(v, ino, n);
      FirstFitFinds(DirBytes(v, n), n.size, Padded(|name|), 0, bs);
      RoundUpAligned(p, bs);
      AddEndKeeps(v, ino, name, child, kind, p);
      var r := AddEntry(v, ino, name, child, kind);
      SameView(v, n, r.v, GetInode(r.v, ino));
    }
  }

  /**
   * The size after a removal. It becomes the offset of the record removed exactly when that record ends at the size;
   * a record that reaches past it takes more than there is, and below zero the size wraps to nearly 4 GiB.
   */
  lemma SizeAfterRemoval(v: Vol, ino: nat, name: seq<Byte>, p: nat, prev: int)
    requires DirReady(v, ino) && v.geo.Sizes() && InodeNumber(v, ino) && IsDir(GetInode(v, ino)) && RemoveEntry(v, ino, name).ok
    requires FindPos(DirBytes(v, GetInode(v, ino)), GetInode(v, ino).size, name, 0, -1) == At(p, prev)
    ensures p + HEADER <= |DirBytes(v, GetInode(v, ino))| && InodeNumber(RemoveEntry(v, ino, name).v, ino)
    ensures var n, len := GetInode(v, ino), RecLen(DirBytes(v, GetInode(v, ino)), p) as int;
            var size := GetInode(RemoveEntry(v, ino, name).v, ino).size;
            p < n.size &&
            size == (if p + len < n.size then n.size as int
                     else if len <= n.size then n.size - len
                     else n.size - len + 0x1_0000_0000) &&
            (p + len >= n.size ==> (size == p <==> p + len == n.size))
  {
    hide Owned, Tiled, FindPos, DirBytes, RecLen, LookIn, Entries, BlocksTiled, EraseAt, Untouched, Visits, Before, Unnamed,
         Name, Aligned, Precedes, DirReady;
    PickedRecord(v, ino, name, p, prev);
    RemoveKeeps(v, ino, name);
  }
}
