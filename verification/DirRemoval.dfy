/** Looking a name up and removing it: ext2_dir_lookup and ext2_remove_dir_entry. */
module DirRemoval {
  import opened Bytes
  import opened InodeCodec
  import opened VolumeState
  import opened BlockMap
  import opened FileData
  import opened FileTheorems
  import opened DirRecords
  import opened DirData
  import opened DirOps

  datatype Looked = Present(rec: Rec) | Absent

  function LookIn(l: seq<Rec>, name: seq<Byte>): Looked {
    var k := FindName(l, name);
    if k < |l| then Present(l[k]) else Absent
  }

  lemma LookFirst(r: Rec, l: seq<Rec>)
    ensures LookIn([r] + l, r.name) == Present(r)
  {}

  /** The first live entry of that name; nothing when ino is no directory. */
  function DirLookup(v: Vol, ino: nat, name: seq<Byte>): Looked
    requires v.geo.Sizes()
  {
    if InodeNumber(v, ino) && IsDir(GetInode(v, ino)) then LookIn(Entries(v, GetInode(v, ino)), name) else Absent
  }

  /** The directory bytes with record p gone: merged into prev when both share a block, else marked deleted. */
  function Erase(d: seq<Byte>, p: nat, prev: int, bs: nat): (r: seq<Byte>)
    requires bs > 0 && p + HEADER <= |d|
    requires prev >= 0 && prev / bs == p / bs ==> prev + HEADER <= |d| && RecLen(d, prev) + RecLen(d, p) < 0x1_0000
    ensures |r| == |d|
  {
    if prev >= 0 && prev / bs == p / bs then Merge(d, prev, p) else Tombstone(d, p)
  }

  /** dir.size after the record of length len is gone from its end, in 32 bits. */
  function ShrunkSize(size: Word32, len: nat): Word32 {
    (size as int - len) % 0x1_0000_0000
  }

  /** Facts about the record a removal picks. */
  lemma PickedRecord(v: Vol, ino: nat, name: seq<Byte>, p: nat, prev: int)
    requires DirReady(v, ino) && IsDir(GetInode(v, ino))
    requires FindPos(DirBytes(v, GetInode(v, ino)), GetInode(v, ino).size, name, 0, -1) == At(p, prev)
    ensures var d, bs := DirBytes(v, GetInode(v, ino)), v.geo.blockSize;
            BlockSize(bs) && Tiled(d, 0, bs) && Aligned(|d|, bs) && Visits(d, 0, p) && p < |d|
            && p + HEADER <= |d| && p + RecLen(d, p) <= |d| && Name(d, p) == name && Unnamed(Before(d, 0, p), name)
            && p < GetInode(v, ino).size
            && (prev >= 0 ==> Precedes(d, prev, p) && Visits(d, 0, prev))
            && (prev >= 0 && prev / bs == p / bs ==> RecLen(d, prev) + RecLen(d, p) < 0x1_0000)
            && (prev < 0 ==> p == 0)
  {
    hide Owned, Tiled, RecLen, Visits, Aligned, Lookup, ReadEnd, Name, Before, BlocksTiled, FindPos, DirBytes;
    var n, bs := GetInode(v, ino), v.geo.blockSize;
    OwnedSizes(v, ino);
    SelfPut(v, ino);
    var d := DirBytes(v, n);
    DirTiled(v, ino, n);
    FindPosFinds(d, n.size, name, 0, -1, bs);
    TiledFrom(d, 0, p, bs);
    RecordBasics(d, p, bs);
    if prev >= 0 && prev / bs == p / bs {
      TiledFrom(d, 0, prev, bs);
      TwoInBlock(d, prev, p, bs);
    }
  }

  lemma OwnedSizes(v: Vol, ino: nat)
    requires Owned(v) && Live(v, ino)
    ensures v.geo.Sizes() && BlockSize(v.geo.blockSize) && InodeNumber(v, ino)
  {}

  lemma TwoInBlock(d: seq<Byte>, q: nat, p: nat, bs: nat)
    requires BlockSize(bs) && Tiled(d, q, bs) && Precedes(d, q, p) && p < |d| && q / bs == p / bs && q < |d|
    ensures p + HEADER <= |d| && RecLen(d, q) + RecLen(d, p) <= bs
  {
    SameBlock(q, p, bs);
    TiledStep(d, q, bs);
    TiledStep(d, p, bs);
  }

  /** The directory's block rewritten with the record erased. */
  function EraseAt(v: Vol, ino: nat, name: seq<Byte>, p: nat, prev: int): (w: Vol)
    requires DirReady(v, ino) && IsDir(GetInode(v, ino))
    requires FindPos(DirBytes(v, GetInode(v, ino)), GetInode(v, ino).size, name, 0, -1) == At(p, prev)
    ensures w.inodes == v.inodes && p + HEADER <= |DirBytes(v, GetInode(v, ino))|
  {
    EraseWritten(v, ino, name, p, prev);
    WriteDirBlock(v, GetInode(v, ino), Erase(DirBytes(v, GetInode(v, ino)), p, prev, v.geo.blockSize), p)
  }

  /** The size is lowered when the record erased was the last one below it. */
  function RemoveAt(v: Vol, ino: nat, name: seq<Byte>, p: nat, prev: int): Vol
    requires DirReady(v, ino) && IsDir(GetInode(v, ino))
    requires FindPos(DirBytes(v, GetInode(v, ino)), GetInode(v, ino).size, name, 0, -1) == At(p, prev)
  {
    var w := EraseAt(v, ino, name, p, prev);
    var len := RecLen(DirBytes(v, GetInode(v, ino)), p);
    if p + len >= GetInode(v, ino).size then
      PutInode(w, ino, GetInode(v, ino).(size := ShrunkSize(GetInode(v, ino).size, len)))
    else w
  }

  function RemoveEntry(v: Vol, ino: nat, name: seq<Byte>): Done
    requires DirReady(v, ino)
  {
    if name == DOT || name == DOTDOT || DirLookup(v, ino, name) == Absent then Done(false, v)
    else
      match FindPos(DirBytes(v, GetInode(v, ino)), GetInode(v, ino).size, name, 0, -1)
      case Missing => Done(false, v)
      case At(p, prev) => Done(true, RemoveAt(v, ino, name, p, prev))
  }

  lemma EraseIsOneBlock(d: seq<Byte>, p: nat, prev: int, bs: nat)
    requires BlockSize(bs) && Tiled(d, 0, bs) && p < |d| && p + HEADER <= |d| && p + RecLen(d, p) <= |d|
    requires Tiled(d, p, bs)
    requires prev >= 0 ==> Precedes(d, prev, p) && prev + RecLen(d, prev) == p && Tiled(d, prev, bs)
    requires prev >= 0 && prev / bs == p / bs ==> RecLen(d, prev) + RecLen(d, p) < 0x1_0000
    ensures OneBlockEdit(d, Erase(d, p, prev, bs), p, bs)
  {
    TiledStep(d, p, bs);
    SpanInBlock(p, RecLen(d, p), bs);
    if prev >= 0 && prev / bs == p / bs {
      TiledStep(d, prev, bs);
      SpanInBlock(prev, RecLen(d, prev), bs);
      assert Base(prev, bs) == Base(p, bs);
    }
  }

  /** Erasing keeps the tiling; the listing loses the record if it was live and nothing otherwise. */
  lemma EraseListing(d: seq<Byte>, p: nat, prev: int, bs: nat)
    requires BlockSize(bs) && Tiled(d, 0, bs) && Visits(d, 0, p) && p < |d| && p + HEADER <= |d|
    requires prev >= 0 ==> Precedes(d, prev, p) && Visits(d, 0, prev)
    requires prev >= 0 && prev / bs == p / bs ==> RecLen(d, prev) + RecLen(d, p) < 0x1_0000
    ensures var e := Erase(d, p, prev, bs);
            Tiled(e, 0, bs) &&
            Listing(d, 0) == Before(d, 0, p) + LiveAt(d, p) + Listing(d, p + RecLen(d, p)) &&
            Listing(e, 0) == Before(d, 0, p) + Listing(d, p + RecLen(d, p))
  {
    hide Tiled, RecLen, Visits, Listing, LiveAt, Merge, Tombstone, NameLen, Before;
    TombstoneRemoves(d, p, bs);
    if prev >= 0 && prev / bs == p / bs {
      MergeRemoves(d, prev, bs);
      BeforeNext(d, prev, p, bs);
    }
  }

  /** What comes before p is what comes before its predecessor, and the predecessor. */
  lemma BeforeNext(d: seq<Byte>, q: nat, p: nat, bs: nat)
    requires BlockSize(bs) && Tiled(d, 0, bs) && Visits(d, 0, q) && q < p && q + HEADER <= |d| && q + RecLen(d, q) == p
    ensures Before(d, 0, p) == Before(d, 0, q) + LiveAt(d, q)
  {
    BeforeNextFrom(d, 0, q, p, bs);
  }

  lemma {:induction false} BeforeNextFrom(d: seq<Byte>, s: nat, q: nat, p: nat, bs: nat)
    requires BlockSize(bs) && Tiled(d, s, bs) && Visits(d, s, q) && q < p && q + HEADER <= |d| && q + RecLen(d, q) == p
    ensures Before(d, s, p) == Before(d, s, q) + LiveAt(d, q)
    decreases |d| - s
  {
    hide LiveAt, RecordAt;
    TiledFrom(d, s, q, bs);
    if s != q {
      TiledStep(d, s, bs);
      TiledFrom(d, s + RecLen(d, s), q, bs);
      BeforeNextFrom(d, s + RecLen(d, s), q, p, bs);
      Regroup(LiveAt(d, s), Before(d, s + RecLen(d, s), q), LiveAt(d, q));
    } else {
      assert Before(d, p, p) == [];
    }
  }

  lemma EraseWritten(v: Vol, ino: nat, name: seq<Byte>, p: nat, prev: int)
    requires DirReady(v, ino) && IsDir(GetInode(v, ino))
    requires FindPos(DirBytes(v, GetInode(v, ino)), GetInode(v, ino).size, name, 0, -1) == At(p, prev)
    ensures var d, n, bs := DirBytes(v, GetInode(v, ino)), GetInode(v, ino), v.geo.blockSize;
            p + HEADER <= |d| && bs > 0 && Base(p, bs) + bs <= |d| && Lookup(v, n, p / bs) < |v.data| &&
            (prev >= 0 && prev / bs == p / bs ==> prev + HEADER <= |d| && RecLen(d, prev) + RecLen(d, p) < 0x1_0000) &&
            var e := Erase(d, p, prev, bs);
            var w := WriteDirBlock(v, n, e, p);
            Owned(w) && Untouched(v, w, ino) && DirBytes(w, n) == e && BlocksTiled(w, n) && Tiled(e, 0, bs)
            && (forall l: nat :: Lookup(w, n, l) == Lookup(v, n, l))
  {
    hide Owned, Ptr, PlaceOf, Untouched, Lookup, ReadEnd, Tiled, ByteAt, Aligned, Base, Listing, Erase, Before, LiveAt,
         RecLen, OneBlockEdit, FindPos, Visits;
    PickedRecord(v, ino, name, p, prev);
    OwnedSizes(v, ino);
    SelfPut(v, ino);
    var d, n, bs := DirBytes(v, GetInode(v, ino)), GetInode(v, ino), v.geo.blockSize;
    TiledFrom(d, 0, p, bs);
    if prev >= 0 { TiledFrom(d, 0, prev, bs); }
    EraseIsOneBlock(d, p, prev, bs);
    EraseListing(d, p, prev, bs);
    DirWritten(v, ino, n, Erase(d, p, prev, bs), p);
    SelfPut(WriteDirBlock(v, n, Erase(d, p, prev, bs), p), ino);
  }

  /** Removal, successful or not, keeps ownership, tiling and every other inode. */
  lemma RemoveKeeps(v: Vol, ino: nat, name: seq<Byte>)
    requires DirReady(v, ino)
    ensures var r := RemoveEntry(v, ino, name); DirKeeps(v, r.v, ino) && DirReady(r.v, ino) && r.v.used == v.used
  {
    hide Allocated, Exclusive, Chained, Geometry.MetaReserved, Geometry.MetaApart, Geometry.Totals, Lookup, Tiled,
         FindPos, Untouched, BlocksTiled, MetaUsed, BlocksSized, DirBytes, RecLen, EraseAt, LookIn, Entries, FindName;
    UntouchedSelf(v, ino);
    assert v.inodes[ino - 1 := GetInode(v, ino)] == v.inodes;
    if IsDir(GetInode(v, ino)) {
      match FindPos(DirBytes(v, GetInode(v, ino)), GetInode(v, ino).size, name, 0, -1)
      case Missing =>
      case At(p, prev) => RemoveAtKeeps(v, ino, name, p, prev);
    }
  }

  lemma RemoveAtKeeps(v: Vol, ino: nat, name: seq<Byte>, p: nat, prev: int)
    requires DirReady(v, ino) && IsDir(GetInode(v, ino))
    requires FindPos(DirBytes(v, GetInode(v, ino)), GetInode(v, ino).size, name, 0, -1) == At(p, prev)
    ensures var w := RemoveAt(v, ino, name, p, prev);
            DirKeeps(v, w, ino) && DirReady(w, ino) && w.used == v.used
  {
    hide Allocated, Exclusive, Chained, Geometry.MetaReserved, Geometry.MetaApart, Geometry.Totals, Lookup, Tiled,
         FindPos, Untouched, BlocksTiled, MetaUsed, BlocksSized, DirBytes, RecLen, Erase, Base;
    EraseWritten(v, ino, name, p, prev);
    var u, w, n := EraseAt(v, ino, name, p, prev), RemoveAt(v, ino, name, p, prev), GetInode(v, ino);
    var m := GetInode(w, ino);
    SelfPut(u, ino);
    SameMapOwned(u, ino, n, m);
    UntouchedSize(v, u, ino, n, m);
    assert PutInode(u, ino, m) == w;
    TiledAnySize(u, w, n, m);
  }

  lemma TiledAnySize(v: Vol, w: Vol, n: Inode, m: Inode)
    requires v.geo.Sizes() && w.geo == v.geo && w.data == v.data && m.block == n.block && BlocksTiled(v, n)
    ensures BlocksTiled(w, m)
  {
    forall l: nat ensures Lookup(w, m, l) == Lookup(v, n, l) {}
  }

  // ---------------------------------------------------------------- what removing means for the listing

  lemma VisibleIsFile(v: Vol, n: Inode)
    requires v.geo.Sizes() && HoleFree(v, n)
    ensures Visible(v, n) == FileBytes(v, n)
  {
    RoundUpAligned(n.size, v.geo.blockSize);
    ReadEndIsFirstHole(v, n, 0, RoundUp(n.size, v.geo.blockSize));
  }

  lemma FileCut(v: Vol, w: Vol, n: Inode, m: Inode)
    requires v.geo.Sizes() && w.geo == v.geo && w.data == v.data && m.block == n.block && m.size <= n.size && HoleFree(v, n)
    ensures HoleFree(w, m) && FileBytes(w, m) == FileBytes(v, n)[..m.size]
  {
    SameDataBytes(v, w, n);
    SameMapBytes(w, n, m);
  }

  /** The erased bytes cut where the last record began list the same as the whole erased bytes. */
  lemma EraseLast(d: seq<Byte>, p: nat, prev: int, bs: nat)
    requires BlockSize(bs) && Tiled(d, 0, bs) && Visits(d, 0, p) && p < |d| && p + HEADER <= |d|
    requires prev >= 0 ==> Precedes(d, prev, p) && Visits(d, 0, prev)
    requires prev >= 0 && prev / bs == p / bs ==> RecLen(d, prev) + RecLen(d, p) < 0x1_0000
    requires p + RecLen(d, p) == |d|
    ensures Listing(Erase(d, p, prev, bs)[..p], 0) == Listing(Erase(d, p, prev, bs), 0)
  {
    hide Tiled, RecLen, Visits, Listing, LiveAt, Merge, Tombstone, NameLen, Before;
    var e := Erase(d, p, prev, bs);
    EraseListing(d, p, prev, bs);
    if prev >= 0 && prev / bs == p / bs {
      MergeRemoves(d, prev, bs);
      TiledFrom(d, 0, prev, bs);
      TiledStep(d, prev, bs);
      CutInsideLast(e, 0, prev, p, bs);
    } else {
      TombstoneRemoves(d, p, bs);
      CutAtBoundary(d, 0, p, bs);
      assert e[..p] == d[..p];
      NothingAfter(d);
    }
  }

  lemma NothingAfter(d: seq<Byte>)
    ensures Listing(d, |d|) == []
  {}

  /** The first record of that name, which is what removal acts on, is not a tombstone. */
  ghost predicate NoTombstoneFirst(v: Vol, ino: nat, name: seq<Byte>)
    requires v.geo.Sizes() && InodeNumber(v, ino)
  {
    var d := DirBytes(v, GetInode(v, ino));
    match FindPos(d, GetInode(v, ino).size, name, 0, -1)
    case At(p, prev) => p + HEADER <= |d| && Ino(d, p) != 0
    case Missing => true
  }

  /** A removal succeeds exactly for the listed names other than the dot names. */
  lemma RemoveSucceeds(v: Vol, ino: nat, name: seq<Byte>)
    requires WellFormedDir(v, ino)
    ensures RemoveEntry(v, ino, name).ok <==>
              name != DOT && name != DOTDOT && DirLookup(v, ino, name) != Absent
  {
    hide Allocated, Exclusive, Chained, Geometry.MetaReserved, Geometry.MetaApart, Geometry.Totals, Lookup, Tiled,
         Untouched, BlocksTiled, MetaUsed, BlocksSized, DirBytes, RecLen, RemoveAt, Visits, Listing;
    OwnedSizes(v, ino);
    SelfPut(v, ino);
    var n := GetInode(v, ino);
    WholeDir(v, n);
    DirTiled(v, ino, n);
    FindPosFinds(DirBytes(v, n), n.size, name, 0, -1, v.geo.blockSize);
  }

  /** Where the removed name stands in the listing. */
  lemma PickedListing(d: seq<Byte>, p: nat, name: seq<Byte>, rest: seq<Rec>)
    requires p + HEADER <= |d| && Name(d, p) == name && Unnamed(Before(d, 0, p), name)
    requires Listing(d, 0) == Before(d, 0, p) + LiveAt(d, p) + rest
    ensures Ino(d, p) != 0 ==>
      FindName(Listing(d, 0), name) == |Before(d, 0, p)| &&
      RemovedAt(Listing(d, 0), Before(d, 0, p) + rest, |Before(d, 0, p)|)
    ensures Ino(d, p) == 0 ==> Before(d, 0, p) + rest == Listing(d, 0)
  {
    hide Listing, Before;
    var l, k := Listing(d, 0), |Before(d, 0, p)|;
    if Ino(d, p) != 0 {
      assert l[..k] == Before(d, 0, p) && l[k] == LiveAt(d, p)[0] && l[k + 1..] == rest;
      FirstNameIsUnique(l, name, k);
    }
  }

  /**
   * Removal from a well-formed directory. If the first record of the name is live, exactly that entry leaves the
   * ordered listing; if it is a tombstone, success is reported and nothing leaves. A directory whose last record
   * stays remains well formed; otherwise its size becomes the offset of the record erased.
   */
  lemma RemoveIsExact(v: Vol, ino: nat, name: seq<Byte>, p: nat, prev: int)
    requires WellFormedDir(v, ino) && RemoveEntry(v, ino, name).ok
    requires FindPos(DirBytes(v, GetInode(v, ino)), GetInode(v, ino).size, name, 0, -1) == At(p, prev)
    ensures var w, n, d := RemoveEntry(v, ino, name).v, GetInode(v, ino), DirBytes(v, GetInode(v, ino));
            w.geo == v.geo && InodeNumber(w, ino) && p + HEADER <= |d| &&
            var m := GetInode(w, ino);
            (NoTombstoneFirst(v, ino, name) ==>
               RemovedAt(Entries(v, n), Entries(w, m), FindName(Entries(v, n), name))) &&
            (!NoTombstoneFirst(v, ino, name) ==> Entries(w, m) == Entries(v, n)) &&
            (if p + RecLen(d, p) < n.size then WellFormedDir(w, ino) else m.size == p && HoleFree(w, m))
  {
    hide Allocated, Exclusive, Chained, Geometry.MetaReserved, Geometry.MetaApart, Geometry.Totals, Lookup, Tiled,
         Untouched, BlocksTiled, MetaUsed, BlocksSized, DirBytes, Visits, Listing, Erase, FindPos, RecLen, LiveAt, Before,
         RemovedAt, FindName, Base, Ino, ReadEnd;
    OwnedSizes(v, ino);
    var n, bs := GetInode(v, ino), v.geo.blockSize;
    var d, u, w := DirBytes(v, n), EraseAt(v, ino, name, p, prev), RemoveEntry(v, ino, name).v;
    var m := GetInode(w, ino);
    WholeDir(v, n);
    PickedRecord(v, ino, name, p, prev);
    EraseWritten(v, ino, name, p, prev);
    EraseListing(d, p, prev, bs);
    PickedListing(d, p, name, Listing(d, p + RecLen(d, p)));
    SameMapped(v, u, n);
    WholeDir(u, n);
    RemoveKeeps(v, ino, name);
    if p + RecLen(d, p) >= n.size {
      ShrunkTo(n.size, RecLen(d, p), p);
      EraseLast(d, p, prev, bs);
      VisibleIsFile(u, n);
      FileCut(u, w, n, m);
      VisibleIsFile(w, m);
    }
  }

  lemma ShrunkTo(size: Word32, len: nat, p: nat)
    requires p + len == size
    ensures ShrunkSize(size, len) == p
  {}

  // ---------------------------------------------------------------- lookups

  /** An inserted new name is found, and every other name is found as before. */
  lemma InsertFinds(l: seq<Rec>, m: seq<Rec>, k: nat, r: Rec, name: seq<Byte>)
    requires InsertedAt(l, m, k, r) && Unnamed(l, r.name)
    ensures LookIn(m, r.name) == Present(r)
    ensures name != r.name ==> LookIn(m, name) == LookIn(l, name)
  {
    assert m[..k] == l[..k] && m[k] == r && m[k + 1..] == l[k..];
    forall i | 0 <= i < k ensures m[i].name != r.name { assert m[i] == l[i]; }
    FirstNameIsUnique(m, r.name, k);
    if name != r.name {
      var j := FindName(l, name);
      var i := if j < k then j else j + 1;
      forall x | 0 <= x < i ensures m[..i][x].name != name {
        if x < k { assert m[x] == l[x] && l[..j][x] == l[x]; } else if x > k { assert m[x] == l[x - 1] && l[..j][x - 1] == l[x - 1]; }
      }
      assert i < |m| ==> m[i] == l[j];
      FirstNameIsUnique(m, name, i);
    }
  }

  /** Removing the first entry of a name changes no other name's lookup. */
  lemma RemoveFinds(l: seq<Rec>, m: seq<Rec>, k: nat, name: seq<Byte>)
    requires RemovedAt(l, m, k) && l[k].name != name
    ensures LookIn(m, name) == LookIn(l, name)
  {
    var j := FindName(l, name);
    var i := if j < k then j else j - 1;
    assert m[..k] == l[..k] && m[k..] == l[k + 1..];
    forall x | 0 <= x < i ensures m[..i][x].name != name {
      if x < k { assert m[x] == l[x] && l[..j][x] == l[x]; } else { assert m[x] == l[x + 1] && l[..j][x + 1] == l[x + 1]; }
    }
    assert i < |m| ==> m[i] == l[j];
    FirstNameIsUnique(m, name, i);
  }
}
