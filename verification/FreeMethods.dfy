/** Giving blocks back on the disk: ext2_free_inode_blocks and ext2_truncate_file, loop by loop. */
module FreeMethods {
  import opened Bytes
  import opened InodeCodec
  import opened VolumeState
  import opened BlockMap
  import opened FileMap
  import opened FileData
  import opened FileTheorems
  import opened Shrink
  import opened Ext2Volume
  import opened FileMethods

  /** How far the walk over an inode's places has come. */
  datatype Stage =
    | Directs(i: nat) | Inds(i: nat) | Singles | Leaves(i: nat, j: nat) | Doubles | All
    | Cutting(triple: bool, kept: nat, i: nat)

  /**
   * The places behind the walk. The walk over everything starts at direct block lo; the one that cuts a
   * single-indirect table takes the double and triple tables first, then the entries from kept on.
   */
  predicate Passed(lo: nat, st: Stage, loc: Loc) {
    if st.Cutting? then loc == Double || (loc == Triple && st.triple) || (loc.Ind? && st.kept <= loc.i < st.i)
    else match loc
    case Direct(k) => lo <= k && (st.Directs? ==> k < st.i)
    case Ind(k) => !st.Directs? && (st.Inds? ==> k < st.i)
    case Single => !st.Directs? && !st.Inds?
    case Leaf(a, b) => st.Doubles? || st.All? || (st.Leaves? && (a < st.i || (a == st.i && b < st.j)))
    case Mid(a) => st.Doubles? || st.All? || (st.Leaves? && a < st.i)
    case Double => st.Doubles? || st.All?
    case Triple => st.All?
  }

  ghost predicate PassedBlock(v: Vol, n: Inode, lo: nat, st: Stage, b: nat) {
    exists loc :: Passed(lo, st, loc) && Ptr(v, n, loc) == b
  }

  /** The blocks stored at the places behind the walk. */
  ghost function Freed(v: Vol, n: Inode, lo: nat, st: Stage): set<nat> {
    set b: nat | b < |v.data| && b != 0 && PassedBlock(v, n, lo, st, b)
  }

  /** From st to to the walk passes place loc and, besides, only places that hold nothing. */
  ghost predicate StepsOver(v: Vol, n: Inode, lo: nat, st: Stage, to: Stage, loc: Loc) {
    forall x :: Ptr(v, n, x) != 0 ==> (Passed(lo, to, x) <==> Passed(lo, st, x) || x == loc)
  }

  /** The next place: its block, if any, is in use, is data, and was not freed before. */
  lemma Advance(v: Vol, ino: nat, n: Inode, lo: nat, st: Stage, to: Stage, loc: Loc)
    requires Editing(v, ino, n) && !Passed(lo, st, loc) && StepsOver(v, n, lo, st, to, loc)
    ensures var b := Ptr(v, n, loc);
            if b == 0 then Freed(v, n, lo, to) == Freed(v, n, lo, st)
            else b in v.used && v.geo.IsData(b) && b !in Freed(v, n, lo, st) && Freed(v, n, lo, to) == Freed(v, n, lo, st) + {b as nat}
  {
    hide Passed, Ptr, Editing;
    var b := Ptr(v, n, loc);
    if b != 0 {
      OwnBlock(v, ino, n, loc);
      assert !PassedBlock(v, n, lo, st, b);
      assert Passed(lo, to, loc) && PassedBlock(v, n, lo, to, b);
    }
    forall c: nat | c != 0 && c != b ensures PassedBlock(v, n, lo, to, c) <==> PassedBlock(v, n, lo, st, c) {
      if PassedBlock(v, n, lo, to, c) {
        var x :| Passed(lo, to, x) && Ptr(v, n, x) == c;
        assert Passed(lo, st, x);
      }
      if PassedBlock(v, n, lo, st, c) {
        var x :| Passed(lo, st, x) && Ptr(v, n, x) == c;
        assert Passed(lo, to, x);
      }
    }
  }

  /** What an edited inode points to is data in use, and no other place of it leads there. */
  lemma OwnBlock(v: Vol, ino: nat, n: Inode, loc: Loc)
    requires Editing(v, ino, n) && Ptr(v, n, loc) != 0
    ensures var b := Ptr(v, n, loc); b in v.used && v.geo.IsData(b) && b < |v.data|
    ensures forall x :: Ptr(v, n, x) == Ptr(v, n, loc) ==> x == loc
  {
    hide Ptr, Geometry.MetaReserved, Geometry.MetaApart, Geometry.Totals, Chained;
    var u := PutInode(v, ino, n);
    forall x ensures P(u, ino, x) == Ptr(v, n, x) { PtrOfData(v, u, n, x); }
    assert P(u, ino, loc) != 0;
  }

  /** Places that hold nothing may be passed over. */
  lemma Skip(v: Vol, n: Inode, lo: nat, st: Stage, to: Stage)
    requires forall x :: Passed(lo, st, x) ==> Passed(lo, to, x)
    requires forall x :: Passed(lo, to, x) && !Passed(lo, st, x) ==> Ptr(v, n, x) == 0
    ensures Freed(v, n, lo, to) == Freed(v, n, lo, st)
  {
    forall c: nat | c != 0 ensures PassedBlock(v, n, lo, to, c) <==> PassedBlock(v, n, lo, st, c) {
      if PassedBlock(v, n, lo, to, c) {
        var x :| Passed(lo, to, x) && Ptr(v, n, x) == c;
        assert Passed(lo, st, x);
      }
      if PassedBlock(v, n, lo, st, c) {
        var x :| Passed(lo, st, x) && Ptr(v, n, x) == c;
        assert Passed(lo, to, x);
      }
    }
  }

  /** The volume with the blocks behind the walk released. */
  ghost function At(v: Vol, n: Inode, lo: nat, st: Stage): Vol {
    Release(v, Freed(v, n, lo, st))
  }

  /** The walk moves on by one place: the block there, if there is one, is freed. */
  method FreeNext(fs: Volume, ghost v: Vol, ghost ino: nat, ghost n: Inode, ghost lo: nat, ghost st: Stage, ghost to: Stage,
                  ghost loc: Loc, b: Word32)
    requires fs.Valid() && fs.View() == At(v, n, lo, st) && v.geo == fs.geo
    requires Editing(v, ino, n) && !Passed(lo, st, loc) && Ptr(v, n, loc) == b && StepsOver(v, n, lo, st, to, loc)
    modifies fs
    ensures fs.Valid() && fs.View() == At(v, n, lo, to)
    ensures fs.free.blocks == old(fs.free.blocks) + |Freed(v, n, lo, to)| - |Freed(v, n, lo, st)|
    ensures fs.free.inodes == old(fs.free.inodes)
  {
    hide Volume.View, Volume.Valid, Passed, Freed, Ptr, Editing, StepsOver;
    Advance(v, ino, n, lo, st, to, loc);
    if b != 0 {
      fs.FreeBlock(b);
      ReleaseMore(v, Freed(v, n, lo, st), b);
    }
  }

  lemma ReleaseMore(v: Vol, s: set<nat>, b: nat)
    ensures Release(Release(v, s), {b}) == Release(v, s + {b})
  {
    assert (v.used - s) - {b} == v.used - (s + {b});
  }

  method FreeDirects(fs: Volume, ghost v: Vol, ghost ino: nat, n: Inode, lo: nat) returns (m: Inode)
    requires fs.Valid() && fs.View() == At(v, n, lo, Directs(lo)) && v.geo == fs.geo && Editing(v, ino, n) && lo <= DIRECT
    modifies fs
    ensures fs.Valid() && fs.View() == At(v, n, lo, Inds(0))
    ensures fs.free.blocks == old(fs.free.blocks) + |Freed(v, n, lo, Inds(0))| - |Freed(v, n, lo, Directs(lo))|
    ensures fs.free.inodes == old(fs.free.inodes)
    ensures m == n.(block := m.block)
    ensures forall k {:trigger m.block[k]} :: 0 <= k < 15 ==> m.block[k] == if lo <= k < DIRECT then 0 else n.block[k]
  {
    hide Volume.View, Volume.Valid, Freed, Editing, At;
    var i := lo;
    m := n;
    while i < 12
      invariant lo <= i <= 12 && fs.Valid() && fs.View() == At(v, n, lo, Directs(i))
      invariant fs.free.blocks == old(fs.free.blocks) + |Freed(v, n, lo, Directs(i))| - |Freed(v, n, lo, Directs(lo))|
      invariant fs.free.inodes == old(fs.free.inodes)
      invariant m == n.(block := m.block)
      invariant forall k {:trigger m.block[k]} :: 0 <= k < 15 ==> m.block[k] == if lo <= k < i then 0 else n.block[k]
    {
      FreeNext(fs, v, ino, n, lo, Directs(i), Directs(i + 1), Direct(i), m.block[i]);
      m := m.(block := m.block[i := 0]);
      i := i + 1;
    }
    Skip(v, n, lo, Directs(12), Inds(0));
    SameStage(v, n, lo, Directs(12), Inds(0));
  }

  lemma SameStage(v: Vol, n: Inode, lo: nat, st: Stage, to: Stage)
    requires Freed(v, n, lo, to) == Freed(v, n, lo, st)
    ensures At(v, n, lo, to) == At(v, n, lo, st)
  {}

  /** The single-indirect table: its entries, then the table itself. */
  method FreeSingle(fs: Volume, ghost v: Vol, ghost ino: nat, ghost n: Inode, ghost lo: nat, ind: Word32)
    requires fs.Valid() && fs.View() == At(v, n, lo, Inds(0)) && v.geo == fs.geo && Editing(v, ino, n) && ind == n.block[12]
    modifies fs
    ensures fs.Valid() && fs.View() == At(v, n, lo, Singles)
    ensures fs.free.blocks == old(fs.free.blocks) + |Freed(v, n, lo, Singles)| - |Freed(v, n, lo, Inds(0))|
    ensures fs.free.inodes == old(fs.free.inodes)
  {
    hide Volume.View, Volume.Valid, Freed, Editing, At;
    TableRead(v, ino, n, lo, Inds(0), Single);
    if ind == 0 {
      Skip(v, n, lo, Inds(0), Singles);
      SameStage(v, n, lo, Inds(0), Singles);
      return;
    }
    var ppb, i := fs.geo.blockSize / 4, 0;
    var _, buf := fs.ReadBlock(ind);
    var ptrs := AsPtrs(buf);
    while i < ppb
      invariant i <= ppb && fs.Valid() && fs.View() == At(v, n, lo, Inds(i))
      invariant fs.free.blocks == old(fs.free.blocks) + |Freed(v, n, lo, Inds(i))| - |Freed(v, n, lo, Inds(0))|
      invariant fs.free.inodes == old(fs.free.inodes)
    {
      FreeNext(fs, v, ino, n, lo, Inds(i), Inds(i + 1), Ind(i), ptrs[i]);
      i := i + 1;
    }
    FreeNext(fs, v, ino, n, lo, Inds(ppb), Singles, Single, ind);
  }

  /** A pointer table is read the same while the blocks behind it are freed. */
  lemma TableRead(v: Vol, ino: nat, n: Inode, lo: nat, st: Stage, at: Loc)
    requires Editing(v, ino, n)
    ensures v.geo.Sizes() && Shape(v) && At(v, n, lo, st).data == v.data && At(v, n, lo, st).geo == v.geo
    ensures var t := Ptr(v, n, at);
            t != 0 ==> v.geo.IsData(t) && t < |v.data| && |v.data[t]| == v.geo.blockSize
    ensures forall i :: i >= PerTable(v) ==> Entry(v, Ptr(v, n, at), i) == 0
  {
    EditingPoints(v, ino, n);
    assert Ptr(v, n, at) == 0 || v.geo.IsData(Ptr(v, n, at));
  }

  /** Table i behind the double-indirect table: its entries, then the table. */
  method FreeInner(fs: Volume, ghost v: Vol, ghost ino: nat, ghost n: Inode, ghost lo: nat, ghost i: nat, t: Word32)
    requires fs.Valid() && fs.View() == At(v, n, lo, Leaves(i, 0)) && v.geo == fs.geo && Editing(v, ino, n)
    requires t == Ptr(v, n, Mid(i))
    modifies fs
    ensures fs.Valid() && fs.View() == At(v, n, lo, Leaves(i + 1, 0))
    ensures fs.free.blocks == old(fs.free.blocks) + |Freed(v, n, lo, Leaves(i + 1, 0))| - |Freed(v, n, lo, Leaves(i, 0))|
    ensures fs.free.inodes == old(fs.free.inodes)
  {
    hide Volume.View, Volume.Valid, Freed, Editing, At;
    TableRead(v, ino, n, lo, Leaves(i, 0), Mid(i));
    if t == 0 {
      Skip(v, n, lo, Leaves(i, 0), Leaves(i + 1, 0));
      SameStage(v, n, lo, Leaves(i, 0), Leaves(i + 1, 0));
      return;
    }
    var ppb, j := fs.geo.blockSize / 4, 0;
    var _, buf := fs.ReadBlock(t);
    var inner := AsPtrs(buf);
    while j < ppb
      invariant j <= ppb && fs.Valid() && fs.View() == At(v, n, lo, Leaves(i, j))
      invariant fs.free.blocks == old(fs.free.blocks) + |Freed(v, n, lo, Leaves(i, j))| - |Freed(v, n, lo, Leaves(i, 0))|
      invariant fs.free.inodes == old(fs.free.inodes)
    {
      FreeNext(fs, v, ino, n, lo, Leaves(i, j), Leaves(i, j + 1), Leaf(i, j), inner[j]);
      j := j + 1;
    }
    FreeNext(fs, v, ino, n, lo, Leaves(i, ppb), Leaves(i + 1, 0), Mid(i), t);
  }

  /** The double-indirect table: every table behind it, then the table itself. */
  method FreeDouble(fs: Volume, ghost v: Vol, ghost ino: nat, ghost n: Inode, ghost lo: nat, dbl: Word32)
    requires fs.Valid() && fs.View() == At(v, n, lo, Singles) && v.geo == fs.geo && Editing(v, ino, n) && dbl == n.block[13]
    modifies fs
    ensures fs.Valid() && fs.View() == At(v, n, lo, Doubles)
    ensures fs.free.blocks == old(fs.free.blocks) + |Freed(v, n, lo, Doubles)| - |Freed(v, n, lo, Singles)|
    ensures fs.free.inodes == old(fs.free.inodes)
  {
    hide Volume.View, Volume.Valid, Freed, Editing, At;
    TableRead(v, ino, n, lo, Singles, Double);
    if dbl == 0 {
      Skip(v, n, lo, Singles, Doubles);
      SameStage(v, n, lo, Singles, Doubles);
      return;
    }
    var ppb, i := fs.geo.blockSize / 4, 0;
    var _, buf := fs.ReadBlock(dbl);
    var ptrs := AsPtrs(buf);
    Skip(v, n, lo, Singles, Leaves(0, 0));
    SameStage(v, n, lo, Singles, Leaves(0, 0));
    while i < ppb
      invariant i <= ppb && fs.Valid() && fs.View() == At(v, n, lo, Leaves(i, 0))
      invariant fs.free.blocks == old(fs.free.blocks) + |Freed(v, n, lo, Leaves(i, 0))| - |Freed(v, n, lo, Singles)|
      invariant fs.free.inodes == old(fs.free.inodes)
    {
      FreeInner(fs, v, ino, n, lo, i, ptrs[i]);
      i := i + 1;
    }
    FreeNext(fs, v, ino, n, lo, Leaves(ppb, 0), Doubles, Double, dbl);
  }

  /** ext2_free_indirect_chains: single, double and triple tables; of the triple table only the block itself. */
  method FreeIndirectChains(fs: Volume, ghost v: Vol, ghost ino: nat, ghost n: Inode, ghost lo: nat, m: Inode) returns (r: Inode)
    requires fs.Valid() && fs.View() == At(v, n, lo, Inds(0)) && v.geo == fs.geo && Editing(v, ino, n)
    requires m.block[12] == n.block[12] && m.block[13] == n.block[13] && m.block[14] == n.block[14]
    modifies fs
    ensures fs.Valid() && fs.View() == At(v, n, lo, All)
    ensures fs.free.blocks == old(fs.free.blocks) + |Freed(v, n, lo, All)| - |Freed(v, n, lo, Inds(0))|
    ensures fs.free.inodes == old(fs.free.inodes)
    ensures r == m.(block := m.block[12 := 0][13 := 0][14 := 0])
  {
    hide Volume.View, Volume.Valid, Freed, Editing, At;
    FreeSingle(fs, v, ino, n, lo, m.block[12]);
    FreeDouble(fs, v, ino, n, lo, m.block[13]);
    FreeNext(fs, v, ino, n, lo, Doubles, All, Triple, m.block[14]);
    return m.(block := m.block[12 := 0][13 := 0][14 := 0]);
  }

  /** A walk over everything from direct block lo on frees what a cut to lo blocks gives up. */
  lemma FreedIsDropped(v: Vol, n: Inode, lo: nat, c: Cut)
    requires if lo == 0 then c == Everything || c == Past(0) else c == Past(lo) && lo <= DIRECT
    ensures Freed(v, n, lo, All) == Dropped(v, n, c)
    ensures Freed(v, n, lo, Directs(lo)) == {}
  {
    forall b: nat ensures PassedBlock(v, n, lo, All, b) <==> Behind(v, n, c, b) {
      if PassedBlock(v, n, lo, All, b) {
        var x :| Passed(lo, All, x) && Ptr(v, n, x) == b;
        assert GivenUp(c, x);
      }
      if Behind(v, n, c, b) {
        var x :| GivenUp(c, x) && Ptr(v, n, x) == b;
        assert Passed(lo, All, x);
      }
    }
  }

  lemma StartsHere(v: Vol, n: Inode, lo: nat)
    requires Freed(v, n, lo, Directs(lo)) == {}
    ensures At(v, n, lo, Directs(lo)) == v
  {
    assert v.used - {} == v.used;
  }

  /**
   * Every reached block is freed exactly once: the free count rises by the number of reached blocks, and exactly
   * their bits are cleared.
   */
  method FreeInodeBlocks(fs: Volume, ghost ino: nat, n: Inode) returns (m: Inode)
    requires fs.Valid() && Editing(fs.View(), ino, n)
    modifies fs
    ensures fs.Valid() && fs.View() == FreeAll(old(fs.View()), n) && m == Unmapped(n)
    ensures fs.free.blocks == old(fs.free.blocks) + |Reached(old(fs.View()), n)|
    ensures fs.free.inodes == old(fs.free.inodes)
  {
    hide Volume.View, Volume.Valid, Freed, Editing, Dropped;
    ghost var v := fs.View();
    FreedIsDropped(v, n, 0, Everything);
    StartsHere(v, n, 0);
    m := FreeDirects(fs, v, ino, n, 0);
    m := FreeIndirectChains(fs, v, ino, n, 0, m);
    assert m.block == NO_BLOCKS;
    m := m.(blocks := 0);
  }

  // ---------------------------------------------------------------- ext2_truncate_file

  /** The entries from kept on freed and cleared, after the double and triple tables. */
  method FreeTail(fs: Volume, ghost v: Vol, ghost ino: nat, n: Inode, kept: nat)
    requires fs.Valid() && fs.View() == v && v.geo == fs.geo && Editing(v, ino, n)
    requires n.block[12] != 0 && 0 < kept <= PerTable(v)
    modifies fs
    ensures n.block[12] < |v.data| && v.geo.IsData(n.block[12])
    ensures fs.Valid() && fs.View() == Release(PutBlock(v, n.block[12], FromPtrs(CutTable(AsPtrs(v.data[n.block[12]]), kept))),
                                               Dropped(v, n, Past(DIRECT + kept)))
  {
    hide Volume.View, Volume.Valid, Freed, Editing, At, Dropped, CutTable, FromPtrs;
    TableRead(v, ino, n, 0, Directs(0), Single);
    TailStart(v, n, kept);
    FreeNext(fs, v, ino, n, 0, Directs(0), Cutting(false, kept, kept), Double, n.block[13]);
    FreeNext(fs, v, ino, n, 0, Cutting(false, kept, kept), Cutting(true, kept, kept), Triple, n.block[14]);
    var ppb, i := fs.geo.blockSize / 4, kept;
    TableRead(v, ino, n, 0, Cutting(true, kept, kept), Single);
    var _, buf := fs.ReadBlock(n.block[12]);
    ghost var ptrs := AsPtrs(buf);
    var ind := AsPtrs(buf);
    while i < ppb
      invariant kept <= i <= ppb && fs.Valid() && fs.View() == At(v, n, 0, Cutting(true, kept, i))
      invariant |ind| == ppb && forall k {:trigger ind[k]} :: 0 <= k < ppb ==> ind[k] == if kept <= k < i then 0 else ptrs[k]
    {
      FreeNext(fs, v, ino, n, 0, Cutting(true, kept, i), Cutting(true, kept, i + 1), Ind(i), ind[i]);
      ind := ind[i := 0];
      i := i + 1;
    }
    assert ind == CutTable(ptrs, kept);
    TableRead(v, ino, n, 0, Cutting(true, kept, ppb), Single);
    var _ := fs.WriteBlock(n.block[12], FromPtrs(ind));
    TailEnd(v, n, kept, ppb);
  }

  lemma TailStart(v: Vol, n: Inode, kept: nat)
    ensures At(v, n, 0, Directs(0)) == v
    ensures StepsOver(v, n, 0, Directs(0), Cutting(false, kept, kept), Double)
  {
    FreedIsDropped(v, n, 0, Everything);
    StartsHere(v, n, 0);
  }

  lemma TailEnd(v: Vol, n: Inode, kept: nat, ppb: nat)
    requires v.geo.Sizes() && ppb == PerTable(v) && kept > 0
    requires forall i :: i >= ppb ==> Entry(v, n.block[12], i) == 0
    ensures At(v, n, 0, Cutting(true, kept, ppb)) == Release(v, Dropped(v, n, Past(DIRECT + kept)))
  {
    var c, st := Past(DIRECT + kept), Cutting(true, kept, ppb);
    forall b: nat | b != 0 ensures PassedBlock(v, n, 0, st, b) <==> Behind(v, n, c, b) {
      if PassedBlock(v, n, 0, st, b) {
        var x :| Passed(0, st, x) && Ptr(v, n, x) == b;
        assert GivenUp(c, x);
      }
      if Behind(v, n, c, b) {
        var x :| GivenUp(c, x) && Ptr(v, n, x) == b;
        assert x.Ind? ==> Ptr(v, n, x) == Entry(v, n.block[12], x.i);
        assert Passed(0, st, x);
      }
    }
    assert Freed(v, n, 0, st) == Dropped(v, n, c);
  }

  /** inode.blocks recomputed after a cut: the kept direct blocks, and one for a kept table. */
  method CountKept(block: seq<Word32>, nb: nat, spb: nat) returns (blocks: nat)
    requires |block| == 15
    ensures blocks == spb * CountSet(block, if nb < DIRECT then nb else DIRECT) + if nb > DIRECT && block[12] != 0 then spb else 0
  {
    blocks := 0;
    var i := 0;
    while i < 12 && i < nb
      invariant i <= 12 && i <= nb && blocks == spb * CountSet(block, i)
    {
      OneMore(spb, CountSet(block, i));
      if block[i] != 0 {
        blocks := blocks + spb;
      }
      i := i + 1;
    }
    if nb > 12 && block[12] != 0 {
      blocks := blocks + spb;
    }
  }

  lemma OneMore(a: nat, c: nat)
    ensures a * (c + 1) == a * c + a
  {}

  /** The double and triple tables are released; their inode is not written. */
  method FreeUpperTables(fs: Volume, ghost ino: nat, n: Inode)
    requires fs.Valid() && Owned(fs.View()) && Live(fs.View(), ino) && n == GetInode(fs.View(), ino)
    modifies fs
    ensures fs.Valid() && fs.View() == Release(old(fs.View()), UpperTables(n))
  {
    ghost var v := fs.View();
    UpperOwned(v, ino);
    UpperReleased(v, n);
    hide *;
    fs.FreeBlock(n.block[13]);
    fs.FreeBlock(n.block[14]);
  }

  lemma UpperReleased(v: Vol, n: Inode)
    ensures var u := if n.block[13] == 0 then v else Release(v, {n.block[13]});
            u.geo == v.geo && (n.block[14] in v.used && n.block[14] != n.block[13] ==> n.block[14] in u.used) &&
            Release(v, UpperTables(n)) == if n.block[14] == 0 then u else Release(u, {n.block[14]})
  {
    assert v.used - {} == v.used;
    var a, b := n.block[13] as nat, n.block[14] as nat;
    assert v.used - {a} - {b} == v.used - {a, b};
    assert {a} + {b} == {a, b} && {a} + {} == {a} && {} + {b} == {b};
  }

  lemma UpperOwned(v: Vol, ino: nat)
    requires Owned(v) && Live(v, ino)
    ensures var n := GetInode(v, ino);
            (n.block[13] != 0 ==> v.geo.IsData(n.block[13]) && n.block[13] in v.used) &&
            (n.block[14] != 0 ==> v.geo.IsData(n.block[14]) && n.block[14] in v.used && n.block[14] != n.block[13])
  {
    var n := GetInode(v, ino);
    assert P(v, ino, Double) == n.block[13] && P(v, ino, Triple) == n.block[14];
  }

  method TruncateFile(fs: Volume, ino: nat, size: Word32) returns (ok: bool)
    requires fs.Valid() && Owned(fs.View()) && Live(fs.View(), ino) && size + fs.geo.blockSize < 0x1_0000_0000
    modifies fs
    ensures fs.Valid() && Truncated(ok, fs.View()) == Truncate(old(fs.View()), ino, size)
  {
    hide Volume.View, Volume.Valid, Owned, Dropped, CutTable, FromPtrs, CutCount, CountSet, AsPtrs;
    ghost var v := fs.View();
    SelfPut(v, ino);
    InodeFits(v, ino);
    var _, n := fs.ReadInode(ino);
    EditingPoints(v, ino, n);
    SizesOf(v);
    var nb, m := (size + fs.geo.blockSize - 1) / fs.geo.blockSize, n;
    if size >= n.size {
      var _ := fs.WriteInode(ino, n.(size := size));
      return true;
    }
    if nb <= 12 {
      FreedIsDropped(v, n, nb, Past(nb));
      StartsHere(v, n, nb);
      m := FreeDirects(fs, v, ino, n, nb);
      m := FreeIndirectChains(fs, v, ino, n, nb, m);
    } else if nb <= 12 + fs.geo.blockSize / 4 {
      if n.block[12] == 0 {
        FreeUpperTables(fs, ino, n);
        return false;
      }
      FreeTail(fs, v, ino, n, nb - 12);
      m := m.(block := m.block[13 := 0][14 := 0]);
    } else {
      return false;
    }
    assert m.block == CutMap(n.block, nb);
    var blocks := CountKept(m.block, nb, fs.geo.blockSize / 512);
    CutCounted(v, m.block, nb, blocks);
    var _ := fs.WriteInode(ino, m.(size := size, blocks := blocks));
    return true;
  }

  lemma CutCounted(v: Vol, block: seq<Word32>, nb: nat, blocks: nat)
    requires v.geo.Sizes() && |block| == 15
    requires blocks == SectorsPerBlock(v) * CountSet(block, if nb < DIRECT then nb else DIRECT)
                       + if nb > DIRECT && block[12] != 0 then SectorsPerBlock(v) else 0
    ensures blocks == CutCount(v, block, nb) && blocks < 0x1_0000_0000
  {}
}
