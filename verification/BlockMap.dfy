/** The block map of an inode: where each pointer to a block lives, and who owns which block. */
module BlockMap {
  import opened Bytes
  import opened InodeCodec
  import opened VolumeState

  const DIRECT: nat := 12

  /** Every place a block number can be stored on behalf of an inode. */
  datatype Loc =
    | Direct(i: nat)          // block[i]
    | Single                  // block[12], a pointer table
    | Ind(i: nat)             // entry i of that table
    | Double                  // block[13], a table of tables
    | Mid(i: nat)             // entry i of that table
    | Leaf(i: nat, j: nat)    // entry j of table i
    | Triple                  // block[14]

  /** Entry i of pointer table t; nothing is behind block 0. */
  function Entry(v: Vol, t: nat, i: nat): Word32 {
    if t != 0 && t < |v.data| && i < |v.data[t]| / 4 then AsPtrs(v.data[t])[i] else 0
  }

  /** The block number stored at a place, 0 for none. */
  function Ptr(v: Vol, n: Inode, loc: Loc): Word32 {
    match loc
    case Direct(i) => if i < DIRECT then n.block[i] else 0
    case Single => n.block[12]
    case Ind(i) => Entry(v, n.block[12], i)
    case Double => n.block[13]
    case Mid(i) => Entry(v, n.block[13], i)
    case Leaf(i, j) => Entry(v, Entry(v, n.block[13], i), j)
    case Triple => n.block[14]
  }

  /** Places that hold file contents, as opposed to pointer tables. */
  predicate HoldsData(loc: Loc) {
    loc.Direct? || loc.Ind? || loc.Leaf?
  }

  function PerTable(v: Vol): nat {
    v.geo.blockSize / 4
  }

  /** The place that maps logical block l of a file; beyond the double-indirect range there is none. */
  function PlaceOf(ppb: nat, l: nat): Loc
    requires ppb > 0
  {
    if l < DIRECT then Direct(l)
    else if l < DIRECT + ppb then Ind(l - DIRECT)
    else Leaf((l - DIRECT - ppb) / ppb, (l - DIRECT - ppb) % ppb)
  }

  /** Logical to physical block, as ext2_block_lookup computes it. */
  function Lookup(v: Vol, n: Inode, l: nat): Word32
    requires v.geo.Sizes()
  {
    Ptr(v, n, PlaceOf(PerTable(v), l))
  }

  /** Distinct logical blocks are mapped by distinct places. */
  lemma PlacesDistinct(ppb: nat, k: nat, l: nat)
    requires (ppb == 256 || ppb == 512) && k != l
    ensures PlaceOf(ppb, k) != PlaceOf(ppb, l)
  {}

  // ---------------------------------------------------------------- ownership

  /** Pointer of live inode ino. */
  function P(v: Vol, ino: nat, loc: Loc): Word32
    requires InodeNumber(v, ino)
  {
    Ptr(v, GetInode(v, ino), loc)
  }

  /** Whatever a live inode points to is an allocated data block. */
  ghost predicate Allocated(v: Vol) {
    forall i, loc :: Live(v, i) && P(v, i, loc) != 0 ==> P(v, i, loc) in v.used && v.geo.IsData(P(v, i, loc))
  }

  /** No block is reachable from two places, of one inode or of two. */
  ghost predicate Exclusive(v: Vol) {
    forall i, j, k, l :: Live(v, i) && Live(v, j) && P(v, i, k) != 0 && P(v, i, k) == P(v, j, l) ==> i == j && k == l
  }

  /** Files use the double and triple tables only behind a single-indirect table. */
  ghost predicate Chained(v: Vol) {
    forall i :: Live(v, i) && i !in v.geo.reserved && P(v, i, Single) == 0 ==> P(v, i, Double) == 0 && P(v, i, Triple) == 0
  }

  /** The ownership invariant of a volume. */
  ghost predicate Owned(v: Vol) {
    Shape(v) && Allocated(v) && Exclusive(v) && Chained(v)
  }

  /** A block no live inode points to. */
  ghost predicate Unowned(v: Vol, b: nat) {
    forall i, loc :: Live(v, i) ==> P(v, i, loc) != b || b == 0
  }

  /** A free block is not owned by anybody. */
  lemma FreeIsUnowned(v: Vol, b: nat)
    requires Allocated(v) && b !in v.used
    ensures Unowned(v, b)
  {}

  /**
   * The shape of every change made to the map: pointers stay, disappear, or one place of one inode
   * receives a block that nobody owned.
   */
  ghost predicate Moved(v: Vol, w: Vol, ino: nat, at: Loc, x: nat, i: nat, loc: Loc)
    requires Live(w, i)
  {
    || P(w, i, loc) == 0
    || (Live(v, i) && P(w, i, loc) == P(v, i, loc))
    || (i == ino && loc == at && P(w, i, loc) == x)
  }

  lemma OwnedAfter(v: Vol, w: Vol, ino: nat, at: Loc, x: nat)
    requires Owned(v) && Shape(w) && w.geo == v.geo && Chained(w)
    requires x == 0 || (w.geo.IsData(x) && Unowned(v, x))
    requires forall i, loc :: Live(w, i) ==> Moved(v, w, ino, at, x, i, loc)
    requires forall i, loc :: Live(w, i) && P(w, i, loc) != 0 ==> P(w, i, loc) in w.used
    ensures Owned(w)
  {
    forall i, loc | Live(w, i) && P(w, i, loc) != 0
      ensures w.geo.IsData(P(w, i, loc))
    {
      assert Moved(v, w, ino, at, x, i, loc);
    }
    forall i, j, k, l | Live(w, i) && Live(w, j) && P(w, i, k) != 0 && P(w, i, k) == P(w, j, l)
      ensures i == j && k == l
    {
      assert Moved(v, w, ino, at, x, i, k);
      assert Moved(v, w, ino, at, x, j, l);
    }
  }

  /** The contents of a block. */
  function Content(v: Vol, b: nat): Block {
    if b < |v.data| then v.data[b] else []
  }

  // ---------------------------------------------------------------- framing

  /** Pointers depend on the inode given and on the data blocks, not on the stored inodes or the maps. */
  lemma PtrOfData(v: Vol, w: Vol, n: Inode, loc: Loc)
    requires w.data == v.data
    ensures Ptr(w, n, loc) == Ptr(v, n, loc)
  {}

  /** A block that no pointer table of inode n lives in. */
  ghost predicate NotTable(v: Vol, n: Inode, b: nat) {
    b != n.block[12] && b != n.block[13] && forall i :: Entry(v, n.block[13], i) != b
  }

  /** Changing one block that is no pointer table of n changes no pointer of n. */
  lemma PtrFrame(v: Vol, w: Vol, n: Inode, b: nat, loc: Loc)
    requires |w.data| == |v.data| && (b == 0 || NotTable(v, n, b))
    requires forall c :: 0 <= c < |v.data| && c != b ==> w.data[c] == v.data[c]
    ensures Ptr(w, n, loc) == Ptr(v, n, loc)
  {
    if loc.Leaf? {
      assert Entry(w, n.block[13], loc.i) == Entry(v, n.block[13], loc.i);
    }
  }

  /** The data blocks of an owned inode are nobody's pointer table. */
  lemma DataIsNoTable(v: Vol, i: nat, loc: Loc, j: nat)
    requires Owned(v) && Live(v, i) && Live(v, j) && HoldsData(loc) && P(v, i, loc) != 0
    ensures NotTable(v, GetInode(v, j), P(v, i, loc))
  {
    var b := P(v, i, loc);
    assert P(v, j, Single) != b && P(v, j, Double) != b;
    forall k ensures Entry(v, GetInode(v, j).block[13], k) != b {
      assert P(v, j, Mid(k)) != b;
    }
  }

  lemma UnownedIsNoTable(v: Vol, b: nat, j: nat)
    requires Unowned(v, b) && Live(v, j) && b != 0
    ensures NotTable(v, GetInode(v, j), b)
  {
    assert P(v, j, Single) != b && P(v, j, Double) != b;
    forall k ensures Entry(v, GetInode(v, j).block[13], k) != b {
      assert P(v, j, Mid(k)) != b;
    }
  }

  /** Rewriting the contents of a data block, or of a block nobody owns, moves no pointer. */
  lemma WriteMovesNothing(v: Vol, b: nat, c: Block)
    requires Owned(v) && v.geo.IsData(b) && |c| == v.geo.blockSize
    requires Unowned(v, b) || exists i, loc :: Live(v, i) && HoldsData(loc) && P(v, i, loc) == b
    ensures forall i, loc :: Live(v, i) ==> P(PutBlock(v, b, c), i, loc) == P(v, i, loc)
    ensures Owned(PutBlock(v, b, c))
  {
    var w := PutBlock(v, b, c);
    forall i, loc | Live(v, i) ensures P(w, i, loc) == P(v, i, loc) {
      if Unowned(v, b) {
        UnownedIsNoTable(v, b, i);
      } else {
        var j, at :| Live(v, j) && HoldsData(at) && P(v, j, at) == b;
        DataIsNoTable(v, j, at, i);
      }
      PtrFrame(v, w, GetInode(v, i), b, loc);
    }
    assert Chained(w) by {
      forall i | Live(w, i) && i !in w.geo.reserved && P(w, i, Single) == 0 ensures P(w, i, Double) == 0 && P(w, i, Triple) == 0 {
        assert Live(v, i);
      }
    }
    OwnedAfter(v, w, 0, Single, 0);
  }
}
