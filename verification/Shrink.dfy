/** Giving blocks back: ext2_free_inode_blocks and ext2_truncate_file on the block map. */
module Shrink {
  import opened Bytes
  import opened InodeCodec
  import opened VolumeState
  import opened BlockMap
  import opened FileMap
  import opened FileData
  import opened FileTheorems

  /** Which places an operation gives up: all of them, or what lies past the first nb blocks of a file. */
  datatype Cut = Everything | Past(nb: nat)

  /** The places given up. Past the direct range the single-indirect table itself stays. */
  predicate GivenUp(c: Cut, loc: Loc) {
    match c
    case Everything => true
    case Past(nb) =>
      if nb <= DIRECT then !(loc.Direct? && loc.i < nb)
      else loc == Double || loc == Triple || (loc.Ind? && loc.i >= nb - DIRECT)
  }

  ghost predicate Behind(v: Vol, n: Inode, c: Cut, b: nat) {
    exists loc :: GivenUp(c, loc) && Ptr(v, n, loc) == b
  }

  /** The blocks stored at the places given up. */
  ghost function Dropped(v: Vol, n: Inode, c: Cut): set<nat> {
    set b: nat | b < |v.data| && b != 0 && Behind(v, n, c, b)
  }

  /** Everything an inode reaches: its data, its pointer tables, and what they point to. */
  ghost function Reached(v: Vol, n: Inode): set<nat> {
    Dropped(v, n, Everything)
  }

  /** An inode that reaches nothing. */
  function Unmapped(n: Inode): Inode {
    n.(block := NO_BLOCKS, blocks := 0)
  }

  /** ext2_free_inode_blocks: every reached block is released, the map is emptied. */
  ghost function FreeAll(v: Vol, n: Inode): Vol {
    Release(v, Reached(v, n))
  }

  lemma UnmappedPtr(v: Vol, n: Inode, loc: Loc)
    requires n.block == NO_BLOCKS
    ensures Ptr(v, n, loc) == 0
  {}

  /** What is released was in use, and is data: no bit of the metadata is touched. */
  lemma DroppedInUse(v: Vol, ino: nat, n: Inode, c: Cut)
    requires Editing(v, ino, n)
    ensures forall b :: b in Dropped(v, n, c) ==> b in v.used && v.geo.IsData(b)
    ensures forall loc :: Ptr(v, n, loc) != 0 ==> (Ptr(v, n, loc) in Dropped(v, n, c) <==> GivenUp(c, loc))
  {
    var u := PutInode(v, ino, n);
    forall loc ensures P(u, ino, loc) == Ptr(v, n, loc) { PtrOfData(v, u, n, loc); }
    forall b | b in Dropped(v, n, c) ensures b in v.used && v.geo.IsData(b) {
      var at :| GivenUp(c, at) && Ptr(v, n, at) == b;
      assert P(u, ino, at) == b;
    }
    forall loc | Ptr(v, n, loc) != 0 ensures Ptr(v, n, loc) in Dropped(v, n, c) <==> GivenUp(c, loc) {
      assert P(u, ino, loc) != 0;
      if Ptr(v, n, loc) in Dropped(v, n, c) {
        var at :| GivenUp(c, at) && Ptr(v, n, at) == Ptr(v, n, loc);
        assert P(u, ino, at) == P(u, ino, loc);
      }
    }
  }

  /** No other inode's block is among those given up. */
  lemma DroppedIsOwn(v: Vol, ino: nat, n: Inode, c: Cut, i: nat, loc: Loc)
    requires Editing(v, ino, n) && Live(v, i) && i != ino && P(v, i, loc) != 0
    ensures P(v, i, loc) !in Dropped(v, n, c)
  {
    var u := PutInode(v, ino, n);
    PtrOfData(v, u, GetInode(v, i), loc);
    forall at ensures Ptr(v, n, at) != P(v, i, loc) {
      PtrOfData(v, u, n, at);
      assert P(u, ino, at) != P(u, i, loc);
    }
  }

  /** The emptied inode may be stored; nobody else loses a block. */
  lemma FreeAllOwned(v: Vol, ino: nat, n: Inode, m: Inode)
    requires Editing(v, ino, n) && m.block == NO_BLOCKS
    ensures Owned(PutInode(FreeAll(v, n), ino, m))
    ensures Untouched(PutInode(v, ino, n), PutInode(FreeAll(v, n), ino, m), ino)
  {
    var u, w := PutInode(v, ino, n), PutInode(FreeAll(v, n), ino, m);
    DroppedInUse(v, ino, n, Everything);
    forall i, loc | Live(u, i) ensures P(w, i, loc) == if i == ino then 0 else P(u, i, loc) {
      if i == ino { UnmappedPtr(w, m, loc); } else { PtrOfData(u, w, GetInode(u, i), loc); }
    }
    forall i, loc | Live(w, i) && P(w, i, loc) != 0 ensures P(w, i, loc) in w.used {
      assert P(w, i, loc) == P(u, i, loc) && i != ino;
      PtrOfData(v, u, GetInode(v, i), loc);
      DroppedIsOwn(v, ino, n, Everything, i, loc);
    }
    forall i | Live(w, i) && i !in w.geo.reserved && P(w, i, Single) == 0 ensures P(w, i, Double) == 0 && P(w, i, Triple) == 0 {
      assert i != ino ==> P(u, i, Single) == 0;
    }
    assert forall i, loc :: Live(w, i) ==> Moved(u, w, 0, Single, 0, i, loc);
    OwnedAfter(u, w, 0, Single, 0);
  }

  // ---------------------------------------------------------------- truncation

  datatype Truncated = Truncated(ok: bool, v: Vol)

  /** Entries from kept on cleared. */
  function CutTable(p: seq<Word32>, kept: nat): (r: seq<Word32>)
    ensures |r| == |p|
    ensures forall i {:trigger r[i]} :: 0 <= i < |p| ==> r[i] == if i < kept then p[i] else 0
  {
    seq<Word32>(|p|, i requires 0 <= i < |p| => if i < kept then p[i] else 0)
  }

  /** block[] after a cut to nb blocks: the direct range cut, the tables dropped that can no longer be needed. */
  function CutMap(block: seq<Word32>, nb: nat): (r: seq<Word32>)
    requires |block| == 15
    ensures |r| == 15
    ensures forall i {:trigger r[i]} :: 0 <= i < 15 ==> r[i] == if i < nb && (i < DIRECT || i == 12) then block[i] else 0
  {
    seq<Word32>(15, i requires 0 <= i < 15 => if i < nb && (i < DIRECT || i == 12) then block[i] else 0)
  }

  /** Number of set pointers among the first k. */
  function CountSet(block: seq<Word32>, k: nat): (r: nat)
    requires k <= |block|
    ensures r <= k
  {
    if k == 0 then 0 else CountSet(block, k - 1) + if block[k - 1] != 0 then 1 else 0
  }

  /** inode->blocks as truncation recomputes it: the direct blocks kept, and one block for a kept table. */
  function CutCount(v: Vol, block: seq<Word32>, nb: nat): nat
    requires |block| == 15
  {
    SectorsPerBlock(v) * CountSet(block, if nb < DIRECT then nb else DIRECT)
    + if nb > DIRECT && block[12] != 0 then SectorsPerBlock(v) else 0
  }

  function CutInode(v: Vol, n: Inode, nb: nat, size: Word32): Inode
    requires v.geo.Sizes()
  {
    n.(block := CutMap(n.block, nb), size := size, blocks := CutCount(v, CutMap(n.block, nb), nb))
  }

  function BlocksFor(v: Vol, size: nat): nat
    requires v.geo.Sizes()
  {
    (size + v.geo.blockSize - 1) / v.geo.blockSize
  }

  /** The double and triple tables of an inode. */
  function UpperTables(n: Inode): set<nat> {
    (if n.block[13] == 0 then {} else {n.block[13] as nat}) + (if n.block[14] == 0 then {} else {n.block[14] as nat})
  }

  /** ext2_truncate_file on a live inode. Growing only records the size; shrinking gives up whole blocks. */
  ghost function Truncate(v: Vol, ino: nat, size: Word32): Truncated
    requires Owned(v) && Live(v, ino) && size + v.geo.blockSize < 0x1_0000_0000
  {
    var n, nb := GetInode(v, ino), BlocksFor(v, size);
    if size >= n.size then Truncated(true, PutInode(v, ino, n.(size := size)))
    else if nb <= DIRECT then
      Truncated(true, PutInode(Release(v, Dropped(v, n, Past(nb))), ino, CutInode(v, n, nb, size)))
    else if nb <= DIRECT + PerTable(v) && n.block[12] != 0 then
      assert P(v, ino, Single) == n.block[12];
      var w := PutBlock(v, n.block[12], FromPtrs(CutTable(AsPtrs(v.data[n.block[12]]), nb - DIRECT)));
      Truncated(true, PutInode(Release(w, Dropped(v, n, Past(nb))), ino, CutInode(v, n, nb, size)))
    else if nb <= DIRECT + PerTable(v) then Truncated(false, Release(v, UpperTables(n)))
    else Truncated(false, v)
  }

  /** The data blocks after a cut: only a kept pointer table is rewritten. */
  predicate CutData(v: Vol, n: Inode, nb: nat, w: Vol) {
    var t := n.block[12];
    if nb <= DIRECT then w.data == v.data
    else t != 0 && t < |v.data| && w.data == v.data[t := FromPtrs(CutTable(AsPtrs(v.data[t]), nb - DIRECT))]
  }

  /** Where the cut inode points: nowhere at the places given up, unchanged elsewhere. */
  lemma CutPtr(v: Vol, ino: nat, nb: nat, w: Vol, m: Inode, loc: Loc)
    requires Owned(v) && Live(v, ino) && |w.data| == |v.data|
    requires nb <= DIRECT + PerTable(v) && m.block == CutMap(GetInode(v, ino).block, nb)
    requires CutData(v, GetInode(v, ino), nb, w)
    ensures Ptr(w, m, loc) == if GivenUp(Past(nb), loc) || loc.Leaf? || loc.Mid? then 0 else P(v, ino, loc)
  {
    var n := GetInode(v, ino);
    if nb > DIRECT && loc.Ind? {
      assert w.data[n.block[12]] == FromPtrs(CutTable(AsPtrs(v.data[n.block[12]]), nb - DIRECT));
    }
  }

  /** What a shrinking truncation that succeeds has done, in terms of its parts. */
  lemma TruncateParts(v: Vol, ino: nat, size: Word32)
    requires Owned(v) && Live(v, ino) && size + v.geo.blockSize < 0x1_0000_0000 && size < GetInode(v, ino).size
    ensures var r, n, nb := Truncate(v, ino, size), GetInode(v, ino), BlocksFor(v, size);
            if r.ok then
              r.v.geo == v.geo && r.v.live == v.live && |r.v.data| == |v.data| && Shape(r.v)
              && r.v.inodes == v.inodes[ino - 1 := CutInode(v, n, nb, size)]
              && r.v.used == v.used - Dropped(v, n, Past(nb))
              && nb <= DIRECT + PerTable(v) && CutData(v, n, nb, r.v)
            else nb > DIRECT && (nb > DIRECT + PerTable(v) || n.block[12] == 0) &&
                 r.v == (if nb > DIRECT + PerTable(v) then v else Release(v, UpperTables(n)))
  {
    SelfPut(v, ino);
    DroppedInUse(v, ino, GetInode(v, ino), Past(BlocksFor(v, size)));
    assert P(v, ino, Single) == GetInode(v, ino).block[12];
  }

  lemma CutOthers(v: Vol, ino: nat, nb: nat, w: Vol, i: nat, loc: Loc)
    requires Owned(v) && Live(v, ino) && Live(v, i) && i != ino && CutData(v, GetInode(v, ino), nb, w)
    requires |w.inodes| == |v.inodes| && w.inodes == v.inodes[ino - 1 := GetInode(w, ino)]
    ensures P(w, i, loc) == P(v, i, loc)
  {
    var t := P(v, ino, Single);
    if nb > DIRECT { TableIsOwn(v, ino, i); }
    PtrFrame(v, w, GetInode(v, i), if nb > DIRECT then t else 0, loc);
  }

  /** Files have no upper tables to release when the single-indirect table is missing. */
  lemma NothingAbove(v: Vol, ino: nat)
    requires Owned(v) && Live(v, ino) && ino !in v.geo.reserved && GetInode(v, ino).block[12] == 0
    ensures Release(v, UpperTables(GetInode(v, ino))) == v
  {
    assert P(v, ino, Single) == 0 ==> P(v, ino, Double) == 0 && P(v, ino, Triple) == 0;
    assert v.used - {} == v.used;
  }

  /**
   * A reserved inode that has an upper table and no single-indirect one is refused a cut into the single-indirect range,
   * but only after the table was freed: the inode is left pointing to a free block.
   */
  lemma RefusedCutDangles(v: Vol, ino: nat, size: Word32)
    requires Owned(v) && Live(v, ino) && size + v.geo.blockSize < 0x1_0000_0000 && size < GetInode(v, ino).size
    requires DIRECT < BlocksFor(v, size) <= DIRECT + PerTable(v) && GetInode(v, ino).block[12] == 0
    ensures var r := Truncate(v, ino, size);
            !r.ok && r.v.inodes == v.inodes && (Owned(r.v) <==> UpperTables(GetInode(v, ino)) == {})
  {
    var n, r := GetInode(v, ino), Truncate(v, ino, size);
    TruncateParts(v, ino, size);
    if UpperTables(n) == {} {
      assert v.used - {} == v.used;
    } else {
      var at := if n.block[13] != 0 then Double else Triple;
      assert P(r.v, ino, at) in UpperTables(n) && Live(r.v, ino);
    }
  }

  /** Ownership survives every truncation of a file, shrinking, growing or refused. */
  lemma TruncateOwned(v: Vol, ino: nat, size: Word32)
    requires Owned(v) && Live(v, ino) && size + v.geo.blockSize < 0x1_0000_0000 && ino !in v.geo.reserved
    ensures var r := Truncate(v, ino, size); Owned(r.v) && r.v.live == v.live
  {
    SelfPut(v, ino);
    var n, nb, r := GetInode(v, ino), BlocksFor(v, size), Truncate(v, ino, size);
    if size >= n.size {
      SameMapOwned(v, ino, n, n.(size := size));
    } else {
      TruncateParts(v, ino, size);
      if r.ok { CutOwned(v, ino, nb, r.v); } else if n.block[12] == 0 { NothingAbove(v, ino); }
    }
  }

  lemma CutOwned(v: Vol, ino: nat, nb: nat, w: Vol)
    requires Owned(v) && Live(v, ino) && Shape(w) && w.geo == v.geo && w.live == v.live && |w.data| == |v.data|
    requires nb <= DIRECT + PerTable(v) && CutData(v, GetInode(v, ino), nb, w)
    requires |w.inodes| == |v.inodes| && w.inodes == v.inodes[ino - 1 := GetInode(w, ino)]
    requires GetInode(w, ino).block == CutMap(GetInode(v, ino).block, nb)
    requires w.used == v.used - Dropped(v, GetInode(v, ino), Past(nb))
    ensures Owned(w)
  {
    var n := GetInode(v, ino);
    SelfPut(v, ino);
    DroppedInUse(v, ino, n, Past(nb));
    forall i, loc | Live(w, i)
      ensures P(w, i, loc) == 0 || P(w, i, loc) == P(v, i, loc)
      ensures P(w, i, loc) != 0 ==> P(w, i, loc) in w.used
    {
      if i == ino {
        CutPtr(v, ino, nb, w, GetInode(w, ino), loc);
      } else {
        CutOthers(v, ino, nb, w, i, loc);
        if P(v, i, loc) != 0 { DroppedIsOwn(v, ino, n, Past(nb), i, loc); }
      }
    }
    forall i | Live(w, i) && i !in w.geo.reserved && P(w, i, Single) == 0 ensures P(w, i, Double) == 0 && P(w, i, Triple) == 0 {
      if i != ino { CutOthers(v, ino, nb, w, i, Single); assert P(v, i, Single) == 0; }
    }
    assert forall i, loc :: Live(w, i) ==> Moved(v, w, 0, Single, 0, i, loc);
    OwnedAfter(v, w, 0, Single, 0);
  }

  /** Below the cut the mapping is unchanged, from the cut on there is none; the kept bytes are the old ones. */
  lemma TruncateKeeps(v: Vol, ino: nat, size: Word32)
    requires Owned(v) && Live(v, ino) && size + v.geo.blockSize < 0x1_0000_0000
    requires size < GetInode(v, ino).size && Truncate(v, ino, size).ok
    ensures var w, n := Truncate(v, ino, size).v, GetInode(v, ino);
            w.geo == v.geo && Live(w, ino) &&
            var m := GetInode(w, ino);
            m.size == size &&
            (forall l: nat :: Lookup(w, m, l) == if l < BlocksFor(v, size) then Lookup(v, n, l) else 0) &&
            FileBytes(w, m) == FileBytes(v, n)[..size] &&
            (HoleFree(v, n) ==> HoleFree(w, m))
  {
    TruncateParts(v, ino, size);
    var w, n, nb := Truncate(v, ino, size).v, GetInode(v, ino), BlocksFor(v, size);
    var m := GetInode(w, ino);
    hide Truncate;
    forall l: nat ensures Lookup(w, m, l) == if l < nb then Lookup(v, n, l) else 0 {
      CutPtr(v, ino, nb, w, m, PlaceOf(PerTable(v), l));
    }
    forall x: nat | x < size ensures ByteAt(w, m, x) == ByteAt(v, n, x) && MappedAt(w, m, x) == MappedAt(v, n, x) {
      CutByte(v, ino, nb, w, size, x);
    }
  }

  lemma CutByte(v: Vol, ino: nat, nb: nat, w: Vol, size: nat, x: nat)
    requires Owned(v) && Live(v, ino) && CutData(v, GetInode(v, ino), nb, w) && w.geo == v.geo
    requires x < size && nb == BlocksFor(v, size) && InodeNumber(w, ino)
    requires forall l: nat :: l < nb ==> Lookup(w, GetInode(w, ino), l) == Lookup(v, GetInode(v, ino), l)
    ensures ByteAt(w, GetInode(w, ino), x) == ByteAt(v, GetInode(v, ino), x)
    ensures MappedAt(w, GetInode(w, ino), x) == MappedAt(v, GetInode(v, ino), x)
  {
    var l := x / v.geo.blockSize;
    assert l < nb;
    var at := PlaceOf(PerTable(v), l);
    assert P(v, ino, at) == Lookup(v, GetInode(v, ino), l);
    DataPlace(PerTable(v), l);
    if P(v, ino, at) != 0 { assert P(v, ino, at) != P(v, ino, Single); }
  }

  /** Block b is mapped at or past logical block nb. */
  ghost predicate MappedPast(v: Vol, n: Inode, nb: nat, b: nat)
    requires v.geo.Sizes()
  {
    exists l: nat :: l >= nb && Lookup(v, n, l) == b
  }

  /** Block b is a pointer table of the inode. */
  ghost predicate IsTable(v: Vol, n: Inode, b: nat) {
    b == n.block[12] || b == n.block[13] || b == n.block[14] || exists i :: Entry(v, n.block[13], i) == b
  }

  /** Block b is mapped at or past logical block nb, by the direct pointers or the single-indirect table. */
  ghost predicate MappedNear(v: Vol, n: Inode, nb: nat, b: nat)
    requires v.geo.Sizes()
  {
    exists l: nat :: nb <= l < DIRECT + PerTable(v) && Lookup(v, n, l) == b
  }

  /**
   * Exactly these blocks become free: with at most twelve blocks kept, everything past the cut and every table; with
   * more, what the single-indirect table maps past the cut, and the double and triple tables themselves.
   */
  lemma TruncateFrees(v: Vol, ino: nat, size: Word32)
    requires Owned(v) && Live(v, ino) && size + v.geo.blockSize < 0x1_0000_0000
    requires size < GetInode(v, ino).size && Truncate(v, ino, size).ok
    ensures var w, n, nb := Truncate(v, ino, size).v, GetInode(v, ino), BlocksFor(v, size);
            forall b: nat :: b in v.used && b !in w.used <==>
              b != 0 && if nb <= DIRECT then MappedPast(v, n, nb, b) || IsTable(v, n, b)
                        else MappedNear(v, n, nb, b) || b == n.block[13] || b == n.block[14]
    ensures Truncate(v, ino, size).v.used <= v.used
  {
    TruncateParts(v, ino, size);
    var n, nb := GetInode(v, ino), BlocksFor(v, size);
    hide Truncate;
    SelfPut(v, ino);
    DroppedInUse(v, ino, n, Past(nb));
    forall b: nat ensures b in Dropped(v, n, Past(nb)) <==>
        b != 0 && if nb <= DIRECT then MappedPast(v, n, nb, b) || IsTable(v, n, b)
                  else MappedNear(v, n, nb, b) || b == n.block[13] || b == n.block[14]
    {
      if nb <= DIRECT { DroppedAll(v, ino, nb, b); } else { DroppedNear(v, ino, nb, b); }
    }
  }

  /** A block is given up exactly when some place given up holds it. */
  lemma DroppedAt(v: Vol, ino: nat, c: Cut, b: nat)
    requires Owned(v) && Live(v, ino)
    ensures v.geo.Sizes()
    ensures b in Dropped(v, GetInode(v, ino), c) <==> b != 0 && Behind(v, GetInode(v, ino), c, b)
  {
    SelfPut(v, ino);
    DroppedInUse(v, ino, GetInode(v, ino), c);
  }

  lemma DroppedAll(v: Vol, ino: nat, nb: nat, b: nat)
    requires Owned(v) && Live(v, ino) && nb <= DIRECT && v.geo.Sizes()
    ensures b in Dropped(v, GetInode(v, ino), Past(nb)) <==>
              b != 0 && (MappedPast(v, GetInode(v, ino), nb, b) || IsTable(v, GetInode(v, ino), b))
  {
    hide Owned, Dropped, Geometry.Sizes, IsTable, MappedPast;
    var n := GetInode(v, ino);
    DroppedAt(v, ino, Past(nb), b);
    if b != 0 && Behind(v, n, Past(nb), b) {
      var loc :| GivenUp(Past(nb), loc) && Ptr(v, n, loc) == b;
      PlaceOrTable(v, ino, nb, loc);
    }
    if b != 0 && (MappedPast(v, n, nb, b) || IsTable(v, n, b)) {
      TableOrPlace(v, n, nb, b);
    }
  }

  lemma PlaceOrTable(v: Vol, ino: nat, nb: nat, loc: Loc)
    requires Owned(v) && Live(v, ino) && nb <= DIRECT && v.geo.Sizes() && GivenUp(Past(nb), loc) && P(v, ino, loc) != 0
    ensures MappedPast(v, GetInode(v, ino), nb, P(v, ino, loc)) || IsTable(v, GetInode(v, ino), P(v, ino, loc))
  {
    hide Owned, Geometry.Sizes;
    if HoldsData(loc) {
      var l := PlaceIndex(v, ino, loc);
      assert l >= nb && Lookup(v, GetInode(v, ino), l) == P(v, ino, loc);
    }
  }

  lemma TableOrPlace(v: Vol, n: Inode, nb: nat, b: nat)
    requires v.geo.Sizes() && nb <= DIRECT && (MappedPast(v, n, nb, b) || IsTable(v, n, b))
    ensures Behind(v, n, Past(nb), b)
  {
    if MappedPast(v, n, nb, b) {
      var l: nat :| l >= nb && Lookup(v, n, l) == b;
      assert GivenUp(Past(nb), PlaceOf(PerTable(v), l));
    } else {
      assert Ptr(v, n, Single) == n.block[12] && Ptr(v, n, Double) == n.block[13] && Ptr(v, n, Triple) == n.block[14];
      if b != n.block[12] && b != n.block[13] && b != n.block[14] {
        var i :| Entry(v, n.block[13], i) == b;
        assert Ptr(v, n, Mid(i)) == b;
      }
    }
  }

  lemma DroppedNear(v: Vol, ino: nat, nb: nat, b: nat)
    requires Owned(v) && Live(v, ino) && DIRECT < nb && v.geo.Sizes()
    ensures b in Dropped(v, GetInode(v, ino), Past(nb)) <==>
              b != 0 && (MappedNear(v, GetInode(v, ino), nb, b) || b == GetInode(v, ino).block[13] || b == GetInode(v, ino).block[14])
  {
    hide Owned, Dropped;
    var n, ppb := GetInode(v, ino), PerTable(v);
    DroppedAt(v, ino, Past(nb), b);
    assert Ptr(v, n, Double) == n.block[13] && Ptr(v, n, Triple) == n.block[14];
    if b != 0 && Behind(v, n, Past(nb), b) {
      var loc :| GivenUp(Past(nb), loc) && Ptr(v, n, loc) == b;
      if loc.Ind? {
        var l := PlaceIndex(v, ino, loc);
        assert nb <= l < DIRECT + ppb && Lookup(v, n, l) == b;
      }
    }
    if b != 0 && MappedNear(v, n, nb, b) {
      var l: nat :| nb <= l < DIRECT + ppb && Lookup(v, n, l) == b;
      assert GivenUp(Past(nb), PlaceOf(ppb, l));
    }
  }

  /** The logical block a data place maps. */
  lemma PlaceIndex(v: Vol, ino: nat, loc: Loc) returns (l: nat)
    requires Owned(v) && Live(v, ino) && HoldsData(loc) && P(v, ino, loc) != 0
    ensures PlaceOf(PerTable(v), l) == loc && Lookup(v, GetInode(v, ino), l) == P(v, ino, loc)
    ensures loc.Ind? ==> l == DIRECT + loc.i && loc.i < PerTable(v)
    ensures loc.Direct? ==> l == loc.i
    ensures !loc.Direct? ==> l >= DIRECT
  {
    match loc
    case Direct(i) => l := i;
    case Ind(i) =>
      IndInTable(v, ino, i);
      l := DIRECT + i;
    case Leaf(i, j) =>
      assert P(v, ino, Double) != 0 && P(v, ino, Mid(i)) != 0;
      l := DIRECT + PerTable(v) + i * PerTable(v) + j;
      LeafIndex(PerTable(v), i, j);
  }

  lemma LeafIndex(ppb: nat, i: nat, j: nat)
    requires (ppb == 256 || ppb == 512) && j < ppb
    ensures (i * ppb + j) / ppb == i && (i * ppb + j) % ppb == j
  {
    if ppb == 256 { assert (i * 256 + j) / 256 == i; } else { assert (i * 512 + j) / 512 == i; }
  }

  /**
   * A cut into the single-indirect range does not follow the double table it frees: every block past the cut becomes free
   * exactly when at most twelve blocks are kept or the double table mapped none. Otherwise the others stay marked in use.
   */
  lemma TruncateLosesNone(v: Vol, ino: nat, size: Word32)
    requires Owned(v) && Live(v, ino) && size + v.geo.blockSize < 0x1_0000_0000 && v.geo.Sizes()
    requires size < GetInode(v, ino).size && Truncate(v, ino, size).ok
    ensures var w, n, nb := Truncate(v, ino, size).v, GetInode(v, ino), BlocksFor(v, size);
            (forall l: nat :: l >= nb && Lookup(v, n, l) != 0 ==> Lookup(v, n, l) !in w.used) <==>
            (nb <= DIRECT || forall l: nat :: l >= DIRECT + PerTable(v) ==> Lookup(v, n, l) == 0)
  {
    TruncateParts(v, ino, size);
    SelfPut(v, ino);
    var w, n, nb := Truncate(v, ino, size).v, GetInode(v, ino), BlocksFor(v, size);
    hide Truncate, CutData;
    DroppedInUse(v, ino, n, Past(nb));
    forall l: nat | l >= nb && Lookup(v, n, l) != 0
      ensures Lookup(v, n, l) !in w.used <==> nb <= DIRECT || l < DIRECT + PerTable(v)
    {
      assert P(v, ino, PlaceOf(PerTable(v), l)) in v.used;
    }
  }

  lemma IndInTable(v: Vol, ino: nat, i: nat)
    requires Owned(v) && Live(v, ino) && P(v, ino, Ind(i)) != 0
    ensures i < PerTable(v) && Lookup(v, GetInode(v, ino), DIRECT + i) == P(v, ino, Ind(i))
  {
    assert P(v, ino, Single) != 0;
  }

  /** No other live inode loses or changes anything. */
  lemma TruncateLeavesOthers(v: Vol, ino: nat, size: Word32, j: nat)
    requires Owned(v) && Live(v, ino) && size + v.geo.blockSize < 0x1_0000_0000 && Live(v, j) && j != ino
    ensures var w := Truncate(v, ino, size).v;
            w.geo == v.geo && Live(w, j) && GetInode(w, j) == GetInode(v, j) && SameFile(v, w, j)
  {
    var n, nb, r := GetInode(v, ino), BlocksFor(v, size), Truncate(v, ino, size);
    if size < n.size { TruncateParts(v, ino, size); }
    if size < n.size && r.ok {
      CutUntouched(v, ino, nb, r.v);
    } else if size >= n.size {
      UntouchedSize(v, v, ino, n, n.(size := size)) by { SelfPut(v, ino); }
    } else {
      ReleaseUntouched(v, UpperTables(n), ino);
    }
    UntouchedIsSame(v, r.v, ino, j);
  }

  lemma ReleaseUntouched(v: Vol, s: set<nat>, ino: nat)
    ensures Untouched(v, Release(v, s), ino)
  {
    forall i, loc | Live(v, i) && i != ino ensures P(Release(v, s), i, loc) == P(v, i, loc) {
      PtrOfData(v, Release(v, s), GetInode(v, i), loc);
    }
  }

  lemma CutUntouched(v: Vol, ino: nat, nb: nat, w: Vol)
    requires Owned(v) && Live(v, ino) && w.geo == v.geo && w.live == v.live && CutData(v, GetInode(v, ino), nb, w)
    requires |w.inodes| == |v.inodes| && w.inodes == v.inodes[ino - 1 := GetInode(w, ino)]
    ensures Untouched(v, w, ino)
  {
    forall i, loc | Live(v, i) && i != ino ensures P(w, i, loc) == P(v, i, loc) {
      CutOthers(v, ino, nb, w, i, loc);
    }
    forall i, loc | Live(v, i) && i != ino && HoldsData(loc) && P(v, i, loc) != 0
      ensures Content(w, P(v, i, loc)) == Content(v, P(v, i, loc))
    {
      assert P(v, i, loc) != P(v, ino, Single);
    }
  }
}
