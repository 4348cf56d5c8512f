/** Growing a file by one block: ext2_file_alloc_block and what it does to the block map. */
module FileMap {
  import opened Bytes
  import opened InodeCodec
  import opened VolumeState
  import opened BlockMap

  /** Result of an operation on an in-memory inode: volume, inode and the block it concerns (0 on failure). */
  datatype Grown = Grown(v: Vol, n: Inode, phys: Word32)

  function SectorsPerBlock(v: Vol): nat {
    v.geo.blockSize / 512
  }

  function ZeroBlock(size: nat): Block {
    seq(size, _ => 0)
  }

  /** The inode with block number b at index i of block[]. */
  function WithPtr(n: Inode, i: nat, b: Word32): Inode
    requires i < 15
  {
    n.(block := n.block[i := b])
  }

  /** inode->blocks counts sectors in 32 bits. */
  function Counted(v: Vol, n: Inode): Inode {
    n.(blocks := (n.blocks + SectorsPerBlock(v)) % 0x1_0000_0000)
  }

  /** Pointer table t with entry i set to b. */
  function SetEntry(v: Vol, t: nat, i: nat, b: Word32): Vol
    requires t < |v.data| && i < |v.data[t]| / 4
  {
    PutBlock(v, t, FromPtrs(AsPtrs(v.data[t])[i := b]))
  }

  ghost predicate TableReady(v: Vol, n: Inode) {
    Shape(v) && (n.block[12] == 0 || v.geo.IsData(n.block[12]))
  }

  /** Makes sure there is a single-indirect table, zeroed when new. */
  function EnsureTable(v: Vol, n: Inode): Grown
    requires Shape(v)
  {
    if n.block[12] != 0 then Grown(v, n, n.block[12])
    else
      LowestFreeIsData(v);
      var b := LowestFree(v);
      if b == 0 then Grown(v, n, 0)
      else Grown(PutBlock(Take(v, b), b, ZeroBlock(v.geo.blockSize)), WithPtr(n, 12, b), b)
  }

  lemma TableAfter(v: Vol, n: Inode)
    requires TableReady(v, n)
    ensures var t := EnsureTable(v, n);
            Shape(t.v) && TableReady(t.v, t.n) && t.v.geo == v.geo && t.v.inodes == v.inodes && t.v.live == v.live
            && (t.phys != 0 ==> t.n.block[12] == t.phys && v.geo.IsData(t.phys))
  {
    LowestFreeIsData(v);
  }

  /** The block behind entry k of the existing table of n, allocated if the entry is empty. */
  function EntryAlloc(v: Vol, n: Inode, k: nat): Grown
    requires TableReady(v, n) && n.block[12] != 0 && k < PerTable(v)
  {
    if Entry(v, n.block[12], k) != 0 then Grown(v, n, Entry(v, n.block[12], k))
    else
      LowestFreeIsData(v);
      var b := LowestFree(v);
      if b == 0 then Grown(v, n, 0)
      else Grown(SetEntry(Take(v, b), n.block[12], k, b), Counted(v, n), b)
  }

  /** The block for logical index l of a file, allocated (and counted) if it has none yet. */
  function FileAlloc(v: Vol, n: Inode, l: nat): Grown
    requires TableReady(v, n)
  {
    LowestFreeIsData(v);
    if l < DIRECT then
      if n.block[l] != 0 then Grown(v, n, n.block[l])
      else
        var b := LowestFree(v);
        if b == 0 then Grown(v, n, 0) else Grown(Take(v, b), Counted(v, WithPtr(n, l, b)), b)
    else if l < DIRECT + PerTable(v) then
      TableAfter(v, n);
      var t := EnsureTable(v, n);
      if t.phys == 0 then Grown(v, n, 0) else EntryAlloc(t.v, t.n, l - DIRECT)
    else Grown(v, n, 0)
  }

  // ---------------------------------------------------------------- the three elementary attachments

  /** Pointer loc of inode ino became x; all other pointers of all live inodes are as before. */
  ghost predicate OnlyMoved(v: Vol, w: Vol, ino: nat, at: Loc, x: nat) {
    && w.live == v.live && |w.inodes| == |v.inodes| && w.geo == v.geo && v.used <= w.used
    && forall i, loc :: Live(v, i) ==> P(w, i, loc) == if i == ino && loc == at then x else P(v, i, loc)
  }

  lemma OnlyMovedOwned(v: Vol, w: Vol, ino: nat, at: Loc, b: nat)
    requires Owned(v) && Shape(w) && OnlyMoved(v, w, ino, at, b) && Live(v, ino)
    requires b != 0 && v.geo.IsData(b) && Unowned(v, b) && b in w.used
    requires at == Single || HoldsData(at)
    ensures Owned(w)
  {
    forall i, loc | Live(w, i) ensures Moved(v, w, ino, at, b, i, loc) {
      assert P(w, i, loc) == if i == ino && loc == at then b else P(v, i, loc);
    }
    forall i | Live(w, i) && i !in w.geo.reserved && P(w, i, Single) == 0 ensures P(w, i, Double) == 0 && P(w, i, Triple) == 0 {
      assert P(v, i, Single) == 0;
    }
    OwnedAfter(v, w, ino, at, b);
  }

  lemma AttachDirect(v: Vol, ino: nat, l: nat, b: nat, n: Inode)
    requires Owned(v) && Live(v, ino) && l < DIRECT && b != 0 && v.geo.IsData(b) && Unowned(v, b)
    requires b < 0x1_0000_0000 && n.block == GetInode(v, ino).block[l := b]
    ensures var w := PutInode(Take(v, b), ino, n);
            Shape(w) && OnlyMoved(v, w, ino, Direct(l), b) && Owned(w)
  {
    hide Allocated, Exclusive, Chained, Geometry.MetaReserved, Geometry.MetaApart, Geometry.Totals, Unowned;
    var w := PutInode(Take(v, b), ino, n);
    forall i, loc | Live(v, i) ensures P(w, i, loc) == if i == ino && loc == Direct(l) then b else P(v, i, loc) {
      PtrOfData(v, w, GetInode(v, i), loc);
    }
    OnlyMovedOwned(v, w, ino, Direct(l), b);
  }

  lemma ZeroEntries(size: nat, i: nat)
    requires i < size / 4
    ensures AsPtrs(ZeroBlock(size))[i] == 0
  {}

  lemma AttachTable(v: Vol, ino: nat, b: nat)
    requires Owned(v) && Live(v, ino) && b != 0 && v.geo.IsData(b) && Unowned(v, b) && b < 0x1_0000_0000
    requires GetInode(v, ino).block[12] == 0
    ensures var w := PutInode(PutBlock(Take(v, b), b, ZeroBlock(v.geo.blockSize)), ino, WithPtr(GetInode(v, ino), 12, b));
            Shape(w) && OnlyMoved(v, w, ino, Single, b) && Owned(w)
  {
    var n := GetInode(v, ino);
    var w := PutInode(PutBlock(Take(v, b), b, ZeroBlock(v.geo.blockSize)), ino, WithPtr(n, 12, b));
    forall i, loc | Live(v, i)
      ensures P(w, i, loc) == if i == ino && loc == Single then b else P(v, i, loc)
    {
      UnownedIsNoTable(v, b, i);
      PtrFrame(v, w, GetInode(v, i), b, loc);
      if i == ino && loc.Ind? && loc.i < v.geo.blockSize / 4 {
        ZeroEntries(v.geo.blockSize, loc.i);
      }
    }
    OnlyMovedOwned(v, w, ino, Single, b);
  }

  lemma AttachEntry(v: Vol, ino: nat, k: nat, b: nat, n: Inode)
    requires Owned(v) && Live(v, ino) && b != 0 && v.geo.IsData(b) && Unowned(v, b) && b < 0x1_0000_0000
    requires var t := GetInode(v, ino).block[12]; t != 0 && k < PerTable(v)
    requires n.block == GetInode(v, ino).block
    ensures v.geo.IsData(GetInode(v, ino).block[12])
    ensures var w := PutInode(SetEntry(Take(v, b), GetInode(v, ino).block[12], k, b), ino, n);
            Shape(w) && OnlyMoved(v, w, ino, Ind(k), b) && Owned(w)
  {
    var t := P(v, ino, Single);
    assert t == GetInode(v, ino).block[12];
    var w := PutInode(SetEntry(Take(v, b), t, k, b), ino, n);
    forall i, loc | Live(v, i)
      ensures P(w, i, loc) == if i == ino && loc == Ind(k) then b else P(v, i, loc)
    {
      TableIsOwn(v, ino, i);
      if i == ino && loc.Ind? {
      } else if i == ino {
        EntryFrame(v, w, GetInode(v, i), t, loc);
      } else {
        PtrFrame(v, w, GetInode(v, i), t, loc);
      }
    }
    OnlyMovedOwned(v, w, ino, Ind(k), b);
  }

  /** A single-indirect table is no other inode's table, and not behind its own inode's double table either. */
  lemma TableIsOwn(v: Vol, ino: nat, i: nat)
    requires Owned(v) && Live(v, ino) && Live(v, i) && P(v, ino, Single) != 0
    ensures i != ino ==> NotTable(v, GetInode(v, i), P(v, ino, Single))
    ensures P(v, ino, Double) != P(v, ino, Single)
    ensures forall k :: Entry(v, GetInode(v, ino).block[13], k) != P(v, ino, Single)
  {
    var t := P(v, ino, Single);
    if i != ino {
      assert P(v, i, Single) != t && P(v, i, Double) != t;
      forall k ensures Entry(v, GetInode(v, i).block[13], k) != t { assert P(v, i, Mid(k)) != t; }
    }
    forall k ensures Entry(v, GetInode(v, ino).block[13], k) != t { assert P(v, ino, Mid(k)) != t; }
  }

  lemma EntryFrame(v: Vol, w: Vol, n: Inode, t: nat, loc: Loc)
    requires |w.data| == |v.data| && !loc.Ind? && t != n.block[13]
    requires forall k :: Entry(v, n.block[13], k) != t
    requires forall c :: 0 <= c < |v.data| && c != t ==> w.data[c] == v.data[c]
    ensures Ptr(w, n, loc) == Ptr(v, n, loc)
  {
    if loc.Leaf? {
      assert Entry(w, n.block[13], loc.i) == Entry(v, n.block[13], loc.i);
    }
  }

  // ---------------------------------------------------------------- the whole operation

  /** Every pointer stored in m is also stored, at the same place, in n. */
  predicate Within(m: Inode, n: Inode) {
    forall i :: 0 <= i < 15 ==> m.block[i] == 0 || m.block[i] == n.block[i]
  }

  /** m and n differ at most in block[] and blocks. */
  predicate SameButMap(m: Inode, n: Inode) {
    n == m.(block := n.block, blocks := n.blocks)
  }

  /** What growing inode ino leaves alone: other inodes, and the contents of everybody's data blocks. */
  ghost predicate GrownFrom(v: Vol, w: Vol, ino: nat) {
    && w.live == v.live && |w.inodes| == |v.inodes| && w.geo == v.geo && v.used <= w.used
    && (forall i, loc :: Live(v, i) && i != ino ==> P(w, i, loc) == P(v, i, loc))
    && (forall i, loc :: Live(v, i) && HoldsData(loc) && P(v, i, loc) != 0 ==>
          Content(w, P(v, i, loc)) == Content(v, P(v, i, loc)))
  }

  /** Only the table pointer and the place at may differ for inode ino itself. */
  ghost predicate GrowsAt(v: Vol, w: Vol, ino: nat, at: Loc) {
    GrownFrom(v, w, ino) && Live(v, ino) && forall loc :: loc != Single && loc != at ==> P(w, ino, loc) == P(v, ino, loc)
  }

  /** The outcome of asking for the block at a place: phys is what the place maps to, or 0 and nothing moved. */
  ghost predicate Obtained(u: Vol, w: Vol, ino: nat, at: Loc, phys: nat) {
    && Owned(w) && GrowsAt(u, w, ino, at)
    && (phys != 0 ==> P(w, ino, at) == phys)
    && (phys == 0 || P(u, ino, at) != 0 ==> P(w, ino, at) == P(u, ino, at))
  }

  lemma ObtainedAfterTable(u: Vol, m: Vol, w: Vol, ino: nat, at: Loc, phys: nat)
    requires GrowsAt(u, m, ino, Single) && Obtained(m, w, ino, at, phys) && HoldsData(at)
    ensures Obtained(u, w, ino, at, phys)
  {
    assert P(m, ino, at) == P(u, ino, at);
    GrowsTwice(u, m, w, ino, at);
  }

  lemma WithinTwice(a: Inode, b: Inode, c: Inode)
    requires Within(a, b) && Within(b, c) && SameButMap(a, b) && SameButMap(b, c)
    ensures Within(a, c) && SameButMap(a, c)
  {}

  lemma GrowsTwice(u: Vol, m: Vol, w: Vol, ino: nat, at: Loc)
    requires GrowsAt(u, m, ino, Single) && GrowsAt(m, w, ino, at) && HoldsData(at)
    requires P(u, ino, at) == 0 || P(w, ino, at) == P(u, ino, at)
    ensures GrowsAt(u, w, ino, at)
  {
    forall i, loc | Live(u, i) && HoldsData(loc) && P(u, i, loc) != 0
      ensures Content(w, P(u, i, loc)) == Content(u, P(u, i, loc))
    {
      assert P(m, i, loc) == P(u, i, loc);
    }
  }

  lemma TableGrown(v: Vol, n: Inode, ino: nat)
    requires Live(v, ino) && Owned(PutInode(v, ino, n))
    ensures TableReady(v, n)
    ensures var t, u := EnsureTable(v, n), PutInode(v, ino, n);
            var w := PutInode(t.v, ino, t.n);
            Owned(w) && GrowsAt(u, w, ino, Single) && Within(n, t.n) && SameButMap(n, t.n) &&
            (t.phys == 0 ==> t.v == v && t.n == n && n.block[12] == 0)
  {
    var u := PutInode(v, ino, n);
    assert P(u, ino, Single) == n.block[12];
    var t := EnsureTable(v, n);
    LowestFreeIsData(v);
    if n.block[12] == 0 && t.phys != 0 {
      FreeIsUnowned(u, t.phys);
      AttachTable(u, ino, t.phys);
      assert PutInode(t.v, ino, t.n) == PutInode(PutBlock(Take(u, t.phys), t.phys, ZeroBlock(v.geo.blockSize)), ino, t.n);
    }
  }

  /**
   * Block map update. A returned block is what the logical index now maps to; every other data place keeps its
   * block, also when a fresh table was installed; a failure changes no mapping at all.
   */
  lemma FileAllocGrows(v: Vol, n: Inode, ino: nat, l: nat)
    requires Live(v, ino) && Owned(PutInode(v, ino, n))
    ensures TableReady(v, n)
    ensures var g, u := FileAlloc(v, n, l), PutInode(v, ino, n);
            var w, at := PutInode(g.v, ino, g.n), PlaceOf(PerTable(v), l);
            Obtained(u, w, ino, at, g.phys) && Within(n, g.n) && SameButMap(n, g.n) &&
            (g.phys != 0 ==> l < DIRECT + PerTable(v))
  {
    TableGrown(v, n, ino);
    hide FileAlloc, EnsureTable, Owned, Shape, TableReady, Within, SameButMap, Ptr, GrowsAt;
    if l < DIRECT {
      DirectGrown(v, n, ino, l);
    } else if l < DIRECT + PerTable(v) {
      EntryGrown(v, n, ino, l);
    } else {
      PastTheTable(v, n, ino, l);
    }
  }

  lemma DirectGrown(v: Vol, n: Inode, ino: nat, l: nat)
    requires Live(v, ino) && Owned(PutInode(v, ino, n)) && l < DIRECT
    ensures TableReady(v, n)
    ensures InodeNumber(FileAlloc(v, n, l).v, ino)
    ensures var g, u := FileAlloc(v, n, l), PutInode(v, ino, n);
            Obtained(u, PutInode(g.v, ino, g.n), ino, Direct(l), g.phys) && Within(n, g.n) && SameButMap(n, g.n)
  {
    TableGrown(v, n, ino);
    LowestFreeIsData(v);
    var u, g := PutInode(v, ino, n), FileAlloc(v, n, l);
    if n.block[l] == 0 && g.phys != 0 {
      DirectAttached(v, n, ino, l, g.phys);
    } else {
      assert PutInode(g.v, ino, g.n) == u;
      hide Owned, Ptr, Shape, TableReady, FileAlloc;
      assert P(u, ino, Direct(l)) == n.block[l] by { DirectPtr(u, ino, l); }
    }
  }

  lemma DirectPtr(v: Vol, ino: nat, l: nat)
    requires InodeNumber(v, ino) && l < DIRECT
    ensures P(v, ino, Direct(l)) == GetInode(v, ino).block[l]
  {}

  lemma DirectAttached(v: Vol, n: Inode, ino: nat, l: nat, b: Word32)
    requires Live(v, ino) && Owned(PutInode(v, ino, n)) && l < DIRECT && n.block[l] == 0
    requires b != 0 && b == LowestFree(v) && v.geo.IsData(b) && b !in v.used
    ensures var m, u := Counted(v, WithPtr(n, l, b)), PutInode(v, ino, n);
            Obtained(u, PutInode(Take(v, b), ino, m), ino, Direct(l), b) && Within(n, m) && SameButMap(n, m)
  {
    var m, u := Counted(v, WithPtr(n, l, b)), PutInode(v, ino, n);
    var w := PutInode(Take(v, b), ino, m);
    assert w == PutInode(Take(u, b), ino, m);
    FreeIsUnowned(u, b);
    AttachDirect(u, ino, l, b, m);
    DirectPtr(u, ino, l);
    hide Owned, Ptr, Shape, Unowned;
    assert GrowsAt(u, w, ino, Direct(l));
  }

  lemma PastTheTable(v: Vol, n: Inode, ino: nat, l: nat)
    requires Live(v, ino) && Owned(PutInode(v, ino, n)) && TableReady(v, n) && l >= DIRECT + PerTable(v)
    ensures FileAlloc(v, n, l) == Grown(v, n, 0) && Within(n, n) && SameButMap(n, n)
    ensures var u := PutInode(v, ino, n); Obtained(u, u, ino, PlaceOf(PerTable(v), l), 0)
  {
    hide Owned, Ptr;
  }

  /** Past the direct blocks the work is EnsureTable followed by EntryAlloc. */
  lemma FileAllocIndirect(v: Vol, n: Inode, l: nat)
    requires TableReady(v, n) && DIRECT <= l < DIRECT + PerTable(v)
    ensures TableReady(EnsureTable(v, n).v, EnsureTable(v, n).n)
    ensures var t := EnsureTable(v, n);
            if t.phys == 0 then FileAlloc(v, n, l) == Grown(v, n, 0)
            else t.n.block[12] != 0 && l - DIRECT < PerTable(t.v) && FileAlloc(v, n, l) == EntryAlloc(t.v, t.n, l - DIRECT)
  {
    TableAfter(v, n);
    hide EntryAlloc, EnsureTable, TableReady, LowestFree;
  }

  lemma EntryGrown(v: Vol, n: Inode, ino: nat, l: nat)
    requires Live(v, ino) && Owned(PutInode(v, ino, n)) && DIRECT <= l < DIRECT + PerTable(v)
    ensures TableReady(v, n)
    ensures InodeNumber(FileAlloc(v, n, l).v, ino)
    ensures var g, u := FileAlloc(v, n, l), PutInode(v, ino, n);
            var w := PutInode(g.v, ino, g.n);
            Obtained(u, w, ino, Ind(l - DIRECT), g.phys) && Within(n, g.n) && SameButMap(n, g.n)
  {
    TableGrown(v, n, ino);
    TableAfter(v, n);
    FileAllocIndirect(v, n, l);
    TableStep(v, n, ino);
    var t, g, u, k := EnsureTable(v, n), FileAlloc(v, n, l), PutInode(v, ino, n), l - DIRECT;
    assert HoldsData(Ind(k));
    hide *;
    if t.phys != 0 {
      EntryAllocGrows(t.v, t.n, ino, k);
      ObtainedAfterTable(u, PutInode(t.v, ino, t.n), PutInode(g.v, ino, g.n), ino, Ind(k), g.phys);
      WithinTwice(n, t.n, g.n);
    } else {
      SingleAlone(u, ino, Ind(k));
    }
  }

  lemma TableStep(v: Vol, n: Inode, ino: nat)
    requires TableReady(v, n) && Live(v, ino)
    ensures var t := EnsureTable(v, n); InodeNumber(t.v, ino) && Live(t.v, ino)
  {
    TableAfter(v, n);
  }

  /** Nothing at all changed. */
  lemma SingleAlone(u: Vol, ino: nat, at: Loc)
    requires GrowsAt(u, u, ino, Single) && Owned(u) && at != Single
    ensures Obtained(u, u, ino, at, 0)
  {
    hide Owned, Ptr;
  }

  lemma EntryAllocGrows(v: Vol, n: Inode, ino: nat, k: nat)
    requires Live(v, ino) && Owned(PutInode(v, ino, n)) && TableReady(v, n) && n.block[12] != 0 && k < PerTable(v)
    ensures InodeNumber(EntryAlloc(v, n, k).v, ino)
    ensures var g, u := EntryAlloc(v, n, k), PutInode(v, ino, n);
            var w := PutInode(g.v, ino, g.n);
            Obtained(u, w, ino, Ind(k), g.phys) && Within(n, g.n) && SameButMap(n, g.n)
  {
    LowestFreeIsData(v);
    PtrOfData(v, PutInode(v, ino, n), n, Ind(k));
    if Entry(v, n.block[12], k) == 0 && LowestFree(v) != 0 {
      EntryAttached(v, n, ino, k);
    }
  }

  lemma EntryAttached(v: Vol, n: Inode, ino: nat, k: nat)
    requires Live(v, ino) && Owned(PutInode(v, ino, n)) && TableReady(v, n) && n.block[12] != 0 && k < PerTable(v)
    requires LowestFree(v) != 0 && LowestFree(v) !in v.used && v.geo.IsData(LowestFree(v)) && LowestFree(v) < 0x1_0000_0000
    requires Entry(v, n.block[12], k) == 0
    ensures var b, m := LowestFree(v), PutInode(v, ino, n);
            var w := PutInode(SetEntry(Take(v, b), n.block[12], k, b), ino, Counted(v, n));
            Owned(w) && GrowsAt(m, w, ino, Ind(k)) && P(w, ino, Ind(k)) == b
  {
    var b, m := LowestFree(v), PutInode(v, ino, n);
    var w := PutInode(SetEntry(Take(v, b), n.block[12], k, b), ino, Counted(v, n));
    FreeIsUnowned(m, b);
    AttachEntry(m, ino, k, b, Counted(v, n));
    assert w == PutInode(SetEntry(Take(m, b), n.block[12], k, b), ino, Counted(v, n));
    hide AsPtrs, FromPtrs, Shape, Ptr;
    assert P(m, ino, Single) == n.block[12] by { SinglePtr(m, ino); }
    DataUnchanged(m, w, ino);
  }

  lemma SinglePtr(v: Vol, ino: nat)
    requires InodeNumber(v, ino)
    ensures P(v, ino, Single) == GetInode(v, ino).block[12]
  {}

  /** A table rewrite touches no data block. */
  lemma DataUnchanged(v: Vol, w: Vol, ino: nat)
    requires Owned(v) && Live(v, ino) && P(v, ino, Single) != 0 && |w.data| == |v.data|
    requires forall c :: 0 <= c < |v.data| && c != P(v, ino, Single) ==> w.data[c] == v.data[c]
    ensures forall i, loc :: Live(v, i) && HoldsData(loc) && P(v, i, loc) != 0 ==>
              Content(w, P(v, i, loc)) == Content(v, P(v, i, loc))
  {
    forall i, loc | Live(v, i) && HoldsData(loc) && P(v, i, loc) != 0
      ensures Content(w, P(v, i, loc)) == Content(v, P(v, i, loc))
    {
      assert P(v, i, loc) != P(v, ino, Single);
    }
  }

  /** The same in the terms of the lookup: ext2_file_alloc_block against ext2_block_lookup. */
  lemma FileAllocLookup(v: Vol, n: Inode, ino: nat, l: nat)
    requires Live(v, ino) && Owned(PutInode(v, ino, n))
    ensures TableReady(v, n)
    ensures var g := FileAlloc(v, n, l);
            (g.phys != 0 ==> Lookup(g.v, g.n, l) == g.phys) &&
            (forall k: nat :: k != l || g.phys == 0 ==> Lookup(g.v, g.n, k) == Lookup(v, n, k))
  {
    FileAllocGrows(v, n, ino, l);
    var g, u := FileAlloc(v, n, l), PutInode(v, ino, n);
    var w := PutInode(g.v, ino, g.n);
    hide FileAlloc, Owned, Shape, GrownFrom, Ptr, PlaceOf;
    forall k: nat ensures Lookup(u, n, k) == Lookup(v, n, k) && Lookup(w, g.n, k) == Lookup(g.v, g.n, k) {
      PtrOfData(v, u, n, PlaceOf(PerTable(v), k));
      PtrOfData(g.v, w, g.n, PlaceOf(PerTable(v), k));
    }
    forall k: nat | k != l || g.phys == 0 ensures Lookup(w, g.n, k) == Lookup(u, n, k) {
      if k != l {
        PlacesDistinct(PerTable(v), k, l);
        DataPlace(PerTable(v), k);
      }
      assert P(w, ino, PlaceOf(PerTable(v), k)) == P(u, ino, PlaceOf(PerTable(v), k));
    }
  }

  lemma DataPlace(ppb: nat, l: nat)
    requires ppb > 0
    ensures HoldsData(PlaceOf(ppb, l))
  {}

  /** If the grown inode is never written back, the inode on the disk is still consistent. */
  lemma StaleInodeOwned(v: Vol, n: Inode, ino: nat)
    requires Live(v, ino) && Owned(PutInode(v, ino, n)) && Within(GetInode(v, ino), n)
    requires ino !in v.geo.reserved && GetInode(v, ino).block[12] == 0 ==>
               GetInode(v, ino).block[13] == 0 && GetInode(v, ino).block[14] == 0
    ensures Owned(v)
  {
    var u, m := PutInode(v, ino, n), GetInode(v, ino);
    forall i, loc | Live(v, i) ensures Moved(u, v, 0, Single, 0, i, loc) {
      assert i == ino ==> Ptr(v, m, loc) == 0 || Ptr(v, m, loc) == Ptr(v, n, loc);
    }
    forall i | Live(v, i) && i !in v.geo.reserved && P(v, i, Single) == 0 ensures P(v, i, Double) == 0 && P(v, i, Triple) == 0 {
      assert i != ino ==> P(u, i, Single) == 0;
    }
    forall i, loc | Live(v, i) && P(v, i, loc) != 0 ensures P(v, i, loc) in v.used {
      assert Moved(u, v, 0, Single, 0, i, loc);
      assert Live(u, i) && P(u, i, loc) in u.used;
    }
    OwnedAfter(u, v, 0, Single, 0);
  }
}
