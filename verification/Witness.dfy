/** A small volume with an empty root directory: runs can start, and the failing cases are reached from it by calls. */
module Witness {
  import opened Bytes
  import opened InodeCodec
  import opened VolumeState
  import opened BlockMap
  import opened FileMap
  import opened DirRecords
  import opened DirData
  import opened DirOps
  import opened DirRemoval
  import opened FsOps
  import opened FsSteps
  import opened FsRuns
  import opened DirTheorems
  import opened EntryListings
  import opened DirCells
  import opened CellSteps
  import opened Links
  import opened LinkTheorems
  import opened LinkRuns
  import opened FailedCalls

  const ROOT: nat := 2

  /** One group of 1 KiB blocks, 32 inodes, and spare blocks behind the ten the file system needs. */
  function SmallGeometry(spare: nat): Geometry {
    Geometry(1024, 1, 10 + spare, 8192, 32, 1, 128, [3], [4], [5], {0, 1, 2, 3, 4, 5, 6, 7, 8}, {7}, 8192, 32, 4)
  }

  /** As mkfs leaves it: the root directory in block 9, inodes 1 to 10 taken, the bits past the last block set. */
  function SmallVolume(spare: nat): Vol
    requires spare <= 80
  {
    var z := Vol(SmallGeometry(spare), Range(0, 10) + Range(10 + spare, 8193), Range(1, 11), seq<Inode>(32, _ => ZERO),
                 seq<Block>(10 + spare, i => if i == 9 then FirstBlock(1024, ROOT, ROOT) else ZeroBlock(1024)));
    PutInode(z, ROOT, NewDir(z, 9))
  }

  lemma SmallSizes(spare: nat)
    requires spare <= 80
    ensures SmallGeometry(spare).Sizes() && SmallGeometry(spare).Valid() && SmallGeometry(spare).SuperApart()
  {
    Bitmap.StartIsProduct(1, 8192);
    Bitmap.StartIsProduct(1, 32);
    Bitmap.StartIsProduct(32, 128);
    Bitmap.StartIsProduct(4, 1024);
  }

  lemma SmallShape(spare: nat)
    requires spare <= 80
    ensures Shape(SmallVolume(spare))
  {
    hide FirstBlock, Geometry.MetaReserved, Geometry.MetaApart, Geometry.Totals, ZERO;
    SmallSizes(spare);
    var v := SmallVolume(spare);
    forall b: nat | v.geo.IsData(b) ensures |v.data[b]| == v.geo.blockSize {
      SmallBlock(spare, b);
    }
    assert MetaUsed(v) by {
      forall b: nat | v.geo.firstData <= b < v.geo.firstData + v.geo.mapLength && b !in v.used ensures v.geo.IsData(b) {}
    }
  }

  lemma SmallBlock(spare: nat, b: nat)
    requires spare <= 80 && b < 10 + spare
    ensures |SmallVolume(spare).data| == 10 + spare
    ensures |SmallVolume(spare).data[b]| == 1024 && SmallVolume(spare).data[9] == FirstBlock(1024, ROOT, ROOT)
  {
    hide FirstBlock, Range;
    assert SmallVolume(spare).data[b] == if b == 9 then FirstBlock(1024, ROOT, ROOT) else ZeroBlock(1024);
    assert |ZeroBlock(1024)| == 1024;
  }

  /** Volumes to start from exist, with as many free blocks as one likes. */
  lemma FreshExists(spare: nat)
    requires spare <= 80
    ensures Fresh(SmallVolume(spare), ROOT, 9) && SmallVolume(spare).geo.SuperApart()
    ensures FreeSet(SmallVolume(spare)) == Range(10, 10 + spare)
  {
    hide FirstBlock, Shape, Geometry.Valid, Geometry.MetaReserved, Geometry.MetaApart, Geometry.Totals, ZeroBlock;
    SmallSizes(spare);
    SmallShape(spare);
    SmallBlock(spare, 9);
    assert !IsDir(ZERO);
  }

  // ---------------------------------------------------------------- following calls on the small volume

  /** The small volume with these records in its root, and these inodes taken: all but the first ten are empty files. */
  ghost predicate Scene(v: Vol, cells: seq<Cell>, live: set<nat>) {
    && v.geo == SmallGeometry(1) && Linked(v) && Shaped(v, ROOT, cells) && v.live == live && |v.inodes| == 32
    && forall i :: i in live && i > 10 && InodeNumber(v, i) ==> GetInode(v, i) == NewFile()
  }

  lemma SceneBasics(v: Vol, cells: seq<Cell>, live: set<nat>)
    requires Scene(v, cells, live)
    ensures Sound(v) && Shape(v) && Linked(v) && v.geo.Sizes() && v.geo.blockSize == 1024 && InodeNumber(v, ROOT) && Live(v, ROOT)
    ensures Parent(v, ROOT) && HasRoom(v, ROOT) && WellFormedDir(v, ROOT) && DirReady(v, ROOT) && GetInode(v, ROOT).size == Span(cells)
    ensures Entries(v, GetInode(v, ROOT)) == CellList(cells) && Shaped(v, ROOT, cells) && IsDir(GetInode(v, ROOT))
    ensures BlockCount(v, GetInode(v, ROOT)) == Span(cells) / 1024 && v.geo == SmallGeometry(1) && v.live == live
  {
    hide Linked, Sound, Laid, DirBytes, Entries, Span, HasRoom, DirReady;
    ShapedBasics(v, ROOT, cells);
    LaidSpan(DirBytes(v, GetInode(v, ROOT)), 0, cells);
    ShapedReads(v, ROOT, cells, DOT);
  }

  /** A successful creation in the root leads from v to w. */
  ghost predicate Created(v: Vol, name: seq<Byte>, w: Vol) {
    Sound(v) && Parent(v, ROOT) && Nameable(name) && CreateFile(v, ROOT, name).ok && w == CreateFile(v, ROOT, name).v
  }

  /** A successful removal from the root leads from v to w. */
  ghost predicate Removed(v: Vol, name: seq<Byte>, w: Vol) {
    && Sound(v) && Live(v, ROOT) && v.geo.Sizes() && NamesLive(v, ROOT, name) && DirReady(v, ROOT)
    && RemoveFile(v, ROOT, name).ok && w == RemoveFile(v, ROOT, name).v
  }

  /** The next inode handed out. */
  lemma NextInode(v: Vol, next: nat)
    requires v.geo.inodesCount == 32 && 1 <= next <= 32 && next !in v.live && forall i: nat :: 1 <= i < next ==> i in v.live
    ensures LowestFreeInode(v) == next
  {}

  /** A file created in the room of the last record of the root. */
  lemma FileGoesIn(v: Vol, pre: seq<Cell>, last: Cell, live: set<nat>, name: seq<Byte>, next: nat) returns (w: Vol)
    requires Scene(v, pre + [last], live) && Nameable(name) && NulFree(name) && AllFull(pre, Padded(|name|))
    requires last.ino != 0 && Room(last) >= Padded(|name|) && LookIn(CellList(pre + [last]), name) == Absent
    requires 1 <= next <= 32 && next !in live && forall i: nat :: 1 <= i < next ==> i in live
    ensures Created(v, name, w) && w.used == v.used && Padded(|last.name|) <= last.len
    ensures var own := Padded(|last.name|);
            Scene(w, pre + [last.(len := own), Cell(next, last.len - own, name, KIND_FILE)], live + {next})
  {
    hide Linked, Sound, Shaped, Parent, Padded, CellList, LookIn, HasRoom, Entries, CreateFile, SmallGeometry, NewFile, Shape,
         DirReady, WellFormedDir, Geometry.Sizes, LowestFreeInode;
    var cells := pre + [last];
    SceneBasics(v, cells, live);
    NextInode(v, next) by { SmallInodes(v); }
    SpanJoined(pre, [last]);
    FullNotEmpty(pre, Padded(|name|));
    FitSkips(pre, [last], Span(cells), Padded(|name|), 0);
    EditSkips(pre, [last], 0, Span(pre), next, name, KIND_FILE);
    LastCell(last, Span(pre), next, name, Padded(|name|));
    CreateInSlot(v, ROOT, cells, name, Span(pre));
    CreateFileInWhole(v, ROOT, name);
    w := CreateFile(v, ROOT, name).v;
  }

  lemma SmallInodes(v: Vol)
    requires v.geo == SmallGeometry(1)
    ensures v.geo.inodesCount == 32
  {}

  lemma FullNotEmpty(cells: seq<Cell>, need: nat)
    requires AllFull(cells, need)
    ensures NoneEmpty(cells)
  {}

  lemma LastCell(last: Cell, at: nat, ino: Word32, name: seq<Byte>, need: nat)
    requires last.ino != 0 && Room(last) >= need > 0
    ensures Span([last]) == last.len > 0 && CellFit([last], at + last.len, need, at) == Slot(at) && LiveCellAt([last], at, at)
    ensures Padded(|last.name|) <= last.len
    ensures SplitCells([last], at, at, ino, name, KIND_FILE) ==
              [last.(len := Padded(|last.name|)), Cell(ino, last.len - Padded(|last.name|), name, KIND_FILE)]
  {
    assert [last][1..] == [];
  }

  /** A file created when no record of the root has room, in a block of its own. */
  lemma FileGoesBehind(v: Vol, cells: seq<Cell>, live: set<nat>, name: seq<Byte>, next: nat) returns (w: Vol)
    requires Scene(v, cells, live) && Nameable(name) && NulFree(name) && AllFull(cells, Padded(|name|)) && LookIn(CellList(cells), name) == Absent
    requires 1 <= next <= 32 && next !in live && forall i: nat :: 1 <= i < next ==> i in live
    requires LowestFree(v) != 0 && Span(cells) == 1024
    ensures Created(v, name, w) && Scene(w, cells + [Cell(next, 1024, name, KIND_FILE)], live + {next})
  {
    hide Linked, Sound, Shaped, Parent, Padded, CellList, LookIn, HasRoom, Entries, CreateFile, SmallGeometry, NewFile, Shape,
         DirReady, WellFormedDir, Geometry.Sizes, LowestFreeInode, LowestFree, AllFull;
    SceneBasics(v, cells, live);
    NextInode(v, next) by { SmallInodes(v); }
    FitSkips(cells, [], 1024, Padded(|name|), 0);
    assert cells + [] == cells;
    CreateAtEnd(v, ROOT, cells, name);
    CreateFileInWhole(v, ROOT, name);
    w := CreateFile(v, ROOT, name).v;
  }

  /** The first of the records behind pre, a file's that begins a block, marked deleted by a removal. */
  lemma FileMarked(v: Vol, pre: seq<Cell>, x: Cell, post: seq<Cell>, live: set<nat>) returns (w: Vol)
    requires Scene(v, pre + [x] + post, live) && post != [] && x.kind == KIND_FILE && x.ino in live && 10 < x.ino <= 32
    requires NoneNamed(pre, x.name) && Nameable(x.name) && x.name != DOT && x.name != DOTDOT && x.len > 0
    requires LastStart(pre, 0, -1) < 0 || LastStart(pre, 0, -1) / 1024 != Span(pre) / 1024
    ensures Removed(v, x.name, w) && Scene(w, pre + [x.(ino := 0)] + post, live - {x.ino})
  {
    hide Linked, Sound, Shaped, Parent, Padded, CellList, LookIn, HasRoom, Entries, RemoveFile, SmallGeometry, NewFile, Shape,
         DirReady, WellFormedDir, Geometry.Sizes, NoneNamed, NoTombstoneFirst, DirBytes;
    var cells, rec := pre + [x] + post, Rec(x.ino, x.name, x.kind);
    SceneBasics(v, cells, live);
    FoundBehind(pre, x, post);
    ShapedReads(v, ROOT, cells, x.name);
    ShapedFirst(v, cells, pre, x, post);
    FileIsNamed(v, x.name, rec);
    RemoveMarks(v, ROOT, cells, x.name, Span(pre), LastStart(pre, 0, -1), rec);
    LiveFirst(v, ROOT, x.name, Span(pre), LastStart(pre, 0, -1));
    WholeRemovesOnly(v, ROOT, x.name);
    RemoveFileLinked(v, ROOT, x.name);
    w := RemoveFile(v, ROOT, x.name).v;
  }

  lemma FileIsNamed(v: Vol, name: seq<Byte>, rec: Rec)
    requires v.geo.Sizes() && DirLookup(v, ROOT, name) == Present(rec) && Live(v, rec.ino) && GetInode(v, rec.ino) == NewFile()
    ensures NamesLive(v, ROOT, name)
  {
    hide DirLookup;
  }

  /** The record behind pre is what searches find, in the bytes as in the listing. */
  lemma FoundBehind(pre: seq<Cell>, x: Cell, post: seq<Cell>)
    requires NoneNamed(pre, x.name) && x.ino != 0 && x.len > 0 && post != []
    ensures var cells := pre + [x] + post;
            CellFind(cells, Span(cells), x.name, 0, -1) == At(Span(pre), LastStart(pre, 0, -1))
            && LookIn(CellList(cells), x.name) == Present(Rec(x.ino, x.name, x.kind))
            && LiveCellAt(cells, 0, Span(pre)) && FollowedAt(cells, 0, Span(pre))
            && TombCells(cells, 0, Span(pre)) == pre + [x.(ino := 0)] + post
  {
    hide Padded, CellList, LookIn;
    var cells, rec := pre + [x] + post, Rec(x.ino, x.name, x.kind);
    assert cells == pre + ([x] + post) && ([x] + post)[1..] == post;
    SpanJoined(pre, [x] + post);
    FindSkips(pre, [x] + post, Span(cells), x.name, 0, -1);
    EditSkips(pre, [x] + post, 0, Span(pre), 1, x.name, x.kind) by { NamedNotEmpty(pre, x.name); }
    assert pre + ([x.(ino := 0)] + post) == pre + [x.(ino := 0)] + post;
    ListJoined(pre, [x] + post);
    NotListed(pre, x.name);
    FirstListed(x, post);
    LookBehind(CellList(pre), [rec] + CellList(post), x.name);
    LookFirst(rec, CellList(post));
  }

  lemma NamedNotEmpty(cells: seq<Cell>, name: seq<Byte>)
    requires NoneNamed(cells, name)
    ensures NoneEmpty(cells)
  {}

  lemma FirstListed(x: Cell, post: seq<Cell>)
    ensures CellList([x] + post) == (if x.ino == 0 then [] else [Rec(x.ino, x.name, x.kind)]) + CellList(post)
  {
    assert ([x] + post)[1..] == post;
  }

  lemma {:induction false} LaidBehind(d: seq<Byte>, p: nat, a: seq<Cell>, b: seq<Cell>)
    requires Laid(d, p, a + b)
    ensures Laid(d, p + Span(a), b)
    decreases |a|
  {
    hide CellAt;
    if a == [] {
      assert a + b == b;
    } else {
      JoinedTail(a, b);
      LaidBehind(d, p + a[0].len, a[1..], b);
    }
  }

  /** The inode field of the record behind pre. */
  lemma ShapedFirst(v: Vol, cells: seq<Cell>, pre: seq<Cell>, x: Cell, post: seq<Cell>)
    requires Shaped(v, ROOT, cells) && cells == pre + [x] + post
    ensures var d := DirBytes(v, GetInode(v, ROOT)); Span(pre) + HEADER <= |d| && Ino(d, Span(pre)) == x.ino
  {
    hide Sound, WellFormedDir, DirBytes, BlockCount, Ino, RecLen, NameLen, Name, Span, Geometry.Sizes;
    assert cells == pre + ([x] + post);
    LaidBehind(DirBytes(v, GetInode(v, ROOT)), 0, pre, [x] + post);
  }

  lemma RunExtended(vs: seq<Vol>, ops: seq<Op>, op: Op, w: Vol)
    requires Run(vs, ops) && Steps(vs[|ops|], op, w)
    ensures Run(vs + [w], ops + [op])
  {
    hide Sound, Steps;
    var ws, ps := vs + [w], ops + [op];
    forall i | 0 <= i < |ps| ensures Steps(ws[i], ps[i], ws[i + 1]) {
      if i < |ops| { assert Steps(vs[i], ops[i], vs[i + 1]); }
    }
  }

  lemma RunCreate(vs: seq<Vol>, ops: seq<Op>, name: seq<Byte>, w: Vol)
    requires Run(vs, ops) && Created(vs[|ops|], name, w)
    ensures Run(vs + [w], ops + [OpCreateFile(ROOT, name)])
  {
    hide Sound, CreateFile, Parent;
    assert Steps(vs[|ops|], OpCreateFile(ROOT, name), w);
    RunExtended(vs, ops, OpCreateFile(ROOT, name), w);
  }

  lemma RunRemove(vs: seq<Vol>, ops: seq<Op>, name: seq<Byte>, w: Vol)
    requires Run(vs, ops) && Removed(vs[|ops|], name, w)
    ensures Run(vs + [w], ops + [OpRemoveFile(ROOT, name)])
  {
    hide Sound, RemoveFile, DirReady, NamesLive;
    assert Steps(vs[|ops|], OpRemoveFile(ROOT, name), w);
    RunExtended(vs, ops, OpRemoveFile(ROOT, name), w);
  }

  // ---------------------------------------------------------------- a root directory whose first block is full

  /** 255 times the same letter. */
  function Long(letter: Byte): (r: seq<Byte>)
    ensures |r| == 255
  {
    seq<Byte>(255, _ => letter)
  }

  lemma LongNames(a: Byte, b: Byte)
    ensures Nameable(Long(a)) && |Long(a)| == 255 && Long(a) != DOT && Long(a) != DOTDOT && Padded(|Long(a)|) == 264
    ensures (a != 0 ==> NulFree(Long(a))) && (a != b ==> Long(a) != Long(b))
  {
    assert Long(a)[0] == a && Long(b)[0] == b;
  }

  const A: Byte := 97
  const B: Byte := 98
  const C: Byte := 99
  const X: Byte := 120
  const Y: Byte := 121

  function FileCell(ino: Word32, len: nat, letter: Byte): Cell {
    Cell(ino, len, Long(letter), KIND_FILE)
  }

  function Letter(k: nat): Byte
    requires k < 3
  {
    if k == 0 then A else if k == 1 then B else C
  }

  /** The last record of the root after k long names: it has the rest of the block. */
  function RootLast(k: nat): Cell
    requires k <= 3
  {
    if k == 0 then Cell(ROOT, 1012, DOTDOT, KIND_DIR) else FileCell(10 + k, 1264 - 264 * k, Letter(k - 1))
  }

  /** The records before it, cut to their own size. */
  function RootPre(k: nat): seq<Cell>
    requires k <= 3
  {
    if k == 0 then [Cell(ROOT, 12, DOT, KIND_DIR)]
    else RootPre(k - 1) + [RootLast(k - 1).(len := if k == 1 then 12 else 264)]
  }

  function RootCells(k: nat): seq<Cell>
    requires k <= 3
  {
    RootPre(k) + [RootLast(k)]
  }

  lemma {:induction false} RootPreFacts(k: nat, letter: Byte)
    requires k <= 3 && forall j :: 0 <= j < k ==> Letter(j) != letter
    ensures AllFull(RootPre(k), 264) && NoneNamed(RootPre(k), Long(letter))
    ensures Span(RootPre(k)) == if k == 0 then 12 else 264 * k - 240
  {
    hide Long, Padded;
    PaddedIs(255);
    LongNames(letter, letter);
    if k > 0 {
      RootPreFacts(k - 1, letter);
      LongNames(letter, Letter(if k > 1 then k - 2 else 0));
      SpanJoined(RootPre(k - 1), [RootLast(k - 1).(len := if k == 1 then 12 else 264)]);
    }
  }

  /** The records of an empty root. */
  lemma FreshShaped(v: Vol, root: nat, b: nat)
    requires Fresh(v, root, b)
    ensures v.geo.Sizes() && root < 0x1_0000_0000 && Shaped(v, root, DotCells(v.geo.blockSize, root, root))
  {
    hide FirstBlock, NewDir, DotCells, WellFormedDir, Laid, DirBytes, Fresh, Sound, IsDir, Geometry.Sizes, Content, DotDot, Entries,
         Tally;
    FreshSound(v, root, b);
    FreshParts(v, root, b);
    NewDirShows(v, root, b, root);
    FirstBlockLaid(v.geo.blockSize, root, root);
    OneBlockCounted(v, b);
  }

  lemma OneBlockCounted(v: Vol, b: nat)
    requires v.geo.Sizes() && b < 0x1_0000_0000
    ensures BlockCount(v, NewDir(v, b)) == 1
  {}

  lemma SceneStart()
    ensures Sound(SmallVolume(1)) && Scene(SmallVolume(1), RootCells(0), Range(1, 11)) && LowestFree(SmallVolume(1)) == 10
  {
    hide Shape, Sound, Linked, Shaped, FirstBlock, Geometry.Valid, Fresh, Laid, DirBytes, WellFormedDir, Geometry.Sizes, Range;
    var v := SmallVolume(1);
    FreshExists(1);
    FreshSound(v, ROOT, 9);
    FreshLinked(v, ROOT, 9);
    FreshShaped(v, ROOT, 9);
    SmallParts(v);
    assert RootCells(0) == DotCells(1024, ROOT, ROOT);
  }

  /** What the small volume has free. */
  lemma SmallParts(v: Vol)
    requires v == SmallVolume(1)
    ensures v.geo == SmallGeometry(1) && v.live == Range(1, 11) && |v.inodes| == 32 && v.geo.blockSize == 1024
    ensures LowestFree(v) == 10 && v.used == Range(0, 10) + Range(11, 8193)
  {
    hide FirstBlock, ZeroBlock, NewDir;
    var b := LowestFree(v);
    assert 10 !in v.used;
  }

  /** The last record has the room for the next long name, and none bears it. */
  lemma RootRoom(k: nat)
    requires k < 3
    ensures var last, own := RootLast(k), if k == 0 then 12 else 264;
            AllFull(RootPre(k), 264) && Room(last) >= 264 && last.ino != 0 && Padded(|last.name|) == own
            && RootPre(k) + [last.(len := own), Cell(11 + k, last.len - own, Long(Letter(k)), KIND_FILE)] == RootCells(k + 1)
            && LookIn(CellList(RootCells(k)), Long(Letter(k))) == Absent
  {
    hide Long, CellList, LookIn, Padded, AllFull;
    PaddedIs(255);
    LongNames(Letter(if k > 0 then k - 1 else 0), Letter(k));
    RootPreFacts(k, Letter(k));
    NotListed(RootCells(k), Long(Letter(k)));
    AbsentIsUnnamed(CellList(RootCells(k)), Long(Letter(k)));
  }

  lemma MoreInodes(k: nat)
    ensures Range(1, k) + {k} == if k == 0 then {0} else Range(1, k + 1)
  {}

  lemma NextFile(v: Vol, k: nat) returns (w: Vol)
    requires k < 3 && Scene(v, RootCells(k), Range(1, 11 + k))
    ensures Created(v, Long(Letter(k)), w) && Scene(w, RootCells(k + 1), Range(1, 12 + k)) && w.used == v.used
  {
    hide Scene, CellList, LookIn, RootPre, RootLast, AllFull, Range, Padded, Room, Created, Long;
    RootRoom(k);
    LongNames(Letter(k), X);
    w := FileGoesIn(v, RootPre(k), RootLast(k), Range(1, 11 + k), Long(Letter(k)), 11 + k);
    MoreInodes(11 + k);
  }

  /** Three files with long names fill the root's only block; the one free block is still free. */
  lemma {:induction false} FillRoot(k: nat) returns (vs: seq<Vol>, ops: seq<Op>)
    requires k <= 3
    ensures |ops| == k && Run(vs, ops) && vs[0] == SmallVolume(1)
    ensures Scene(vs[k], RootCells(k), Range(1, 11 + k)) && vs[k].used == SmallVolume(1).used
  {
    hide Scene, Sound, SmallVolume, RootCells, Range, Letter, Long, Created, Steps;
    if k == 0 {
      SceneStart();
      vs, ops := [SmallVolume(1)], [];
    } else {
      vs, ops := FillRoot(k - 1);
      var w := NextFile(vs[k - 1], k - 1);
      RunCreate(vs, ops, Long(Letter(k - 1)), w);
      vs, ops := vs + [w], ops + [OpCreateFile(ROOT, Long(Letter(k - 1)))];
    }
  }

  // ---------------------------------------------------------------- a deleted record in front of a live one of its name

  /** Room and names of the full root. */
  lemma RootIsFull(letter: Byte)
    requires letter != A && letter != B && letter != C
    ensures AllFull(RootCells(3), 264) && NoneNamed(RootCells(3), Long(letter)) && Span(RootCells(3)) == 1024
    ensures LastStart(RootCells(3), 0, -1) == 552
  {
    hide Long, Padded;
    PaddedIs(255);
    LongNames(letter, C);
    LongNames(C, letter);
    RootPreFacts(3, letter);
    SpanJoined(RootPre(3), [RootLast(3)]);
    LastStartIs(RootPre(3), RootLast(3), 0, -1);
  }

  lemma {:induction false} LastStartIs(a: seq<Cell>, last: Cell, p: nat, before: int)
    ensures LastStart(a + [last], p, before) == p + Span(a)
  {
    if a != [] {
      JoinedTail(a, [last]);
      LastStartIs(a[1..], last, p + a[0].len, p);
    }
  }

  /** The root's records after X and Y were created, with X deleted or not, and after X was created again. */
  function WithX(): seq<Cell> { RootCells(3) + [FileCell(14, 1024, X)] }
  function WithXY(): seq<Cell> { RootCells(3) + [FileCell(14, 264, X), FileCell(15, 760, Y)] }
  function DeletedX(): seq<Cell> { RootCells(3) + [FileCell(0, 264, X), FileCell(15, 760, Y)] }
  function AgainX(): seq<Cell> { RootCells(3) + [FileCell(0, 264, X), FileCell(15, 264, Y), FileCell(14, 496, X)] }

  lemma CreatesX(v: Vol) returns (w: Vol)
    requires Scene(v, RootCells(3), Range(1, 14)) && LowestFree(v) != 0
    ensures Created(v, Long(X), w) && Scene(w, WithX(), Range(1, 15))
  {
    hide Scene, Created, CellList, LookIn, RootCells, AllFull, Range, Padded, Room, Long, LowestFree, Span;
    RootIsFull(X);
    LongNames(X, Y);
    NotListed(RootCells(3), Long(X));
    AbsentIsUnnamed(CellList(RootCells(3)), Long(X));
    w := FileGoesBehind(v, RootCells(3), Range(1, 14), Long(X), 14);
    MoreInodes(14);
  }

  lemma RoomOfLong(ino: Word32, len: nat, letter: Byte)
    ensures Room(FileCell(ino, len, letter)) == len - 264 && Padded(|FileCell(ino, len, letter).name|) == 264
  {
    LongNames(letter, letter);
  }

  lemma CreatesY(v: Vol) returns (w: Vol)
    requires Scene(v, WithX(), Range(1, 15))
    ensures Created(v, Long(Y), w) && Scene(w, WithXY(), Range(1, 16))
  {
    hide Scene, Created, CellList, LookIn, RootCells, AllFull, Range, Padded, Room, Long, Span;
    RootIsFull(Y);
    LongNames(Y, X);
    RoomOfLong(14, 1024, X);
    NotListed(WithX(), Long(Y));
    AbsentIsUnnamed(CellList(WithX()), Long(Y));
    w := FileGoesIn(v, RootCells(3), FileCell(14, 1024, X), Range(1, 15), Long(Y), 15);
    MoreInodes(15);
  }

  lemma RemovesX(v: Vol) returns (w: Vol)
    requires Scene(v, WithXY(), Range(1, 16))
    ensures Removed(v, Long(X), w) && Scene(w, DeletedX(), Range(1, 16) - {14})
  {
    hide Scene, Removed, RootCells, Range, Long, Span, LastStart, NoneNamed;
    RootIsFull(X);
    LongNames(X, Y);
    var x, post := FileCell(14, 264, X), [FileCell(15, 760, Y)];
    assert RootCells(3) + [x] + post == WithXY();
    w := FileMarked(v, RootCells(3), x, post, Range(1, 16));
    assert RootCells(3) + [x.(ino := 0)] + post == DeletedX();
  }

  lemma CreatesXAgain(v: Vol) returns (w: Vol)
    requires Scene(v, DeletedX(), Range(1, 16) - {14})
    ensures Created(v, Long(X), w) && Scene(w, AgainX(), Range(1, 16))
  {
    hide Scene, Created, LookIn, RootCells, Range, Padded, Room, Long, Span, CellList;
    RootIsFull(X);
    LongNames(X, Y);
    RoomOfLong(0, 264, X);
    RoomOfLong(15, 760, Y);
    var pre, last := RootCells(3) + [FileCell(0, 264, X)], FileCell(15, 760, Y);
    assert pre + [last] == DeletedX();
    DeletedIsAbsent();
    w := FileGoesIn(v, pre, last, Range(1, 16) - {14}, Long(X), 14);
    assert pre + [last.(len := 264), FileCell(14, 496, X)] == AgainX();
    assert Range(1, 16) - {14} + {14} == Range(1, 16);
  }

  lemma DeletedIsAbsent()
    ensures LookIn(CellList(DeletedX()), Long(X)) == Absent
  {
    hide LookIn, RootCells, Long, CellList;
    RootIsFull(X);
    LongNames(X, Y);
    var tomb, y := FileCell(0, 264, X), FileCell(15, 760, Y);
    assert DeletedX() == RootCells(3) + ([tomb] + [y]);
    ListJoined(RootCells(3), [tomb] + [y]);
    FirstListed(tomb, [y]);
    NotListed(RootCells(3), Long(X));
    NotListed([y], Long(X));
    UnnamedParts(CellList(RootCells(3)), CellList([y]), Long(X));
    AbsentIsUnnamed(CellList(DeletedX()), Long(X));
  }

  /** The searches in the bytes stop at the deleted record, the ones in the listing at the live one. */
  lemma AgainXFound()
    ensures CellFind(AgainX(), Span(AgainX()), Long(X), 0, -1) == At(1024, 552)
    ensures LookIn(CellList(AgainX()), Long(X)) == Present(Rec(14, Long(X), KIND_FILE))
  {
    hide LookIn, RootCells, Long, CellList, NoneNamed, LastStart;
    RootIsFull(X);
    var tomb, rest := FileCell(0, 264, X), [FileCell(15, 264, Y), FileCell(14, 496, X)];
    assert AgainX() == RootCells(3) + ([tomb] + rest) && ([tomb] + rest)[0] == tomb;
    SpanJoined(RootCells(3), [tomb] + rest);
    FindSkips(RootCells(3), [tomb] + rest, Span(AgainX()), Long(X), 0, -1);
    AgainXListed();
  }

  lemma AgainXListed()
    ensures LookIn(CellList(AgainX()), Long(X)) == Present(Rec(14, Long(X), KIND_FILE))
  {
    hide LookIn, RootCells, Long, CellList, Span, AllFull, LastStart;
    RootIsFull(X);
    LongNames(X, Y);
    var tomb, y, x, rec := FileCell(0, 264, X), FileCell(15, 264, Y), FileCell(14, 496, X), Rec(14, Long(X), KIND_FILE);
    assert AgainX() == RootCells(3) + ([tomb] + ([y] + [x]));
    ListJoined(RootCells(3), [tomb] + ([y] + [x]));
    ListJoined([y], [x]);
    FirstListed(tomb, [y] + [x]);
    FirstListed(x, []);
    NotListed(RootCells(3), Long(X));
    NotListed([y], Long(X));
    LookBehind(CellList(RootCells(3)), CellList([y]) + CellList([x]), Long(X));
    LookBehind(CellList([y]), CellList([x]), Long(X));
    assert [x] == [x] + [];
    assert CellList([tomb] + ([y] + [x])) == CellList([y]) + CellList([x]);
    LookFirst(rec, CellList([]));
  }

  lemma ShadowedX(v: Vol)
    requires Scene(v, AgainX(), Range(1, 16))
    ensures v.geo.Sizes() && InodeNumber(v, ROOT) && DirReady(v, ROOT) && WellFormedDir(v, ROOT) && Sound(v) && Live(v, ROOT)
    ensures !NoTombstoneFirst(v, ROOT, Long(X)) && DirLookup(v, ROOT, Long(X)) == Present(Rec(14, Long(X), KIND_FILE))
    ensures Live(v, 14) && GetInode(v, 14) == NewFile() && NamesLive(v, ROOT, Long(X))
  {
    hide RootCells, Range, Long, Span, DirReady, NamesLive, CellFind, CellList, LookIn, Shaped, Linked, Sound, FindPos, DirBytes, Ino,
         WellFormedDir, Entries, Parent, HasRoom, NewFile, SmallGeometry, Shape, Geometry.Sizes, BlockCount, AllFull, NoneNamed, LastStart;
    SceneBasics(v, AgainX(), Range(1, 16));
    AgainXFound();
    LongNames(X, Y);
    ShapedReads(v, ROOT, AgainX(), Long(X));
    RootIsFull(X);
    var tomb, rest := FileCell(0, 264, X), [FileCell(15, 264, Y), FileCell(14, 496, X)];
    assert AgainX() == RootCells(3) + [tomb] + rest;
    ShapedFirst(v, AgainX(), RootCells(3), tomb, rest);
    assert 14 in Range(1, 16);
    FileIsNamed(v, Long(X), Rec(14, Long(X), KIND_FILE));
  }

  /** A second block with a deleted X in front, Y, and a live X behind. */
  lemma ShadowingRun() returns (vs: seq<Vol>, ops: seq<Op>)
    ensures |ops| == 7 && Run(vs, ops) && vs[0] == SmallVolume(1) && Scene(vs[7], AgainX(), Range(1, 16))
  {
    hide Scene, Sound, SmallVolume, RootCells, WithX, WithXY, DeletedX, AgainX, Range, Long, LowestFree, Created, Removed, Steps;
    vs, ops := FillRoot(3);
    var v := vs[3];
    SpareBlock(v, RootCells(3), Range(1, 14));
    var w := CreatesX(v);
    RunCreate(vs, ops, Long(X), w);
    var y := CreatesY(w);
    RunCreate(vs + [w], ops + [OpCreateFile(ROOT, Long(X))], Long(Y), y);
    var x := RemovesX(y);
    RunRemove(vs + [w] + [y], ops + [OpCreateFile(ROOT, Long(X))] + [OpCreateFile(ROOT, Long(Y))], Long(X), x);
    var z := CreatesXAgain(x);
    vs := vs + [w] + [y] + [x];
    ops := ops + [OpCreateFile(ROOT, Long(X))] + [OpCreateFile(ROOT, Long(Y))] + [OpRemoveFile(ROOT, Long(X))];
    RunCreate(vs, ops, Long(X), z);
    vs, ops := vs + [z], ops + [OpCreateFile(ROOT, Long(X))];
  }

  /** The one free block of the small volume. */
  lemma SpareBlock(v: Vol, cells: seq<Cell>, live: set<nat>)
    requires v.used == SmallVolume(1).used && Scene(v, cells, live)
    ensures LowestFree(v) == 10
  {
    hide Linked, Shaped;
    SmallParts(SmallVolume(1));
  }

  /**
   * Eight calls, all of them successful: three files fill the root's first block, X and Y follow in a second one, X is
   * removed, created again and removed again. Before the last call a deleted record precedes the live one of the same
   * name; after it, X is still listed, and its inode is free.
   */
  lemma ListedWithoutInode() returns (vs: seq<Vol>, ops: seq<Op>)
    ensures |ops| == 8 && Run(vs, ops) && vs[0] == SmallVolume(1)
    ensures Removed(vs[7], Long(X), vs[8]) && ops[7] == OpRemoveFile(ROOT, Long(X)) && vs[8].geo.Sizes()
    ensures InodeNumber(vs[7], ROOT) && !NoTombstoneFirst(vs[7], ROOT, Long(X))
    ensures DirLookup(vs[7], ROOT, Long(X)) == Present(Rec(14, Long(X), KIND_FILE)) && Live(vs[7], 14)
    ensures DirLookup(vs[8], ROOT, Long(X)) == Present(Rec(14, Long(X), KIND_FILE)) && !Live(vs[8], 14)
  {
    hide Scene, Sound, RemoveFile, SmallVolume, AgainX, Range, Long, DirLookup, NoTombstoneFirst, NamesLive, DirReady, Steps,
         WellFormedDir, Entries;
    vs, ops := ShadowingRun();
    var v := vs[7];
    ShadowedX(v);
    LongNames(X, Y);
    RemoveFileBehindTombstone(v, ROOT, Long(X), Rec(14, Long(X), KIND_FILE));
    var w := RemoveFile(v, ROOT, Long(X)).v;
    RunRemove(vs, ops, Long(X), w);
    vs, ops := vs + [w], ops + [OpRemoveFile(ROOT, Long(X))];
  }

  // ---------------------------------------------------------------- a directory that fails half way

  /**
   * Four calls, the last of which fails: with the root's block full and one block free, create_dir takes that block for
   * the new directory, raises the root's link count, and then finds no block for the entry. The listing is what it was,
   * the link count is one too high.
   */
  lemma LinkCountTooHigh() returns (vs: seq<Vol>, ops: seq<Op>)
    ensures |ops| == 4 && Run(vs, ops) && vs[0] == SmallVolume(1) && ops[3] == OpCreateDir(ROOT, Long(X))
    ensures Parent(vs[3], ROOT) && Nameable(Long(X)) && !CreateDir(vs[3], ROOT, Long(X)).ok
    ensures vs[3].geo.Sizes() && vs[4].geo == vs[3].geo && InodeNumber(vs[3], ROOT) && InodeNumber(vs[4], ROOT)
    ensures Entries(vs[4], GetInode(vs[4], ROOT)) == Entries(vs[3], GetInode(vs[3], ROOT))
    ensures LinksRight(vs[3], ROOT) && !LinksRight(vs[4], ROOT)
  {
    hide Scene, Sound, SmallVolume, RootCells, Range, Long, LowestFree, Steps, CreateDir, Parent, Entries, Linked, LinksRight, Shape,
         HasRoom, DirReady, WellFormedDir, Shaped, FitOf, OnlyFree, LowestFreeInode;
    vs, ops := FillRoot(3);
    var v := vs[3];
    SceneBasics(v, RootCells(3), Range(1, 14));
    SpareBlock(v, RootCells(3), Range(1, 14));
    LinkedParts(v, ROOT);
    FullRootFit(v);
    OneSpare(v);
    NextInode(v, 14) by { SmallInodes(v); assert 14 !in Range(1, 14); }
    CreateDirNeedsTwo(v, ROOT, Long(X));
    FailedCreateDirMiscounts(v, ROOT, Long(X));
    var w := CreateDir(v, ROOT, Long(X)).v;
    DirCallEnabled(v, Long(X), w);
    RunExtended(vs, ops, OpCreateDir(ROOT, Long(X)), w);
    vs, ops := vs + [w], ops + [OpCreateDir(ROOT, Long(X))];
  }

  lemma DirCallEnabled(v: Vol, name: seq<Byte>, w: Vol)
    requires Parent(v, ROOT) && Nameable(name) && w == CreateDir(v, ROOT, name).v
    ensures Steps(v, OpCreateDir(ROOT, name), w)
  {
    hide Sound, CreateDir;
  }

  lemma FullCells()
    ensures CellFit(RootCells(3), 1024, Padded(255), 0) == AtEnd(1024) && Span(RootCells(3)) == 1024
  {
    hide RootCells, AllFull, Padded, Span;
    RootIsFull(X);
    PaddedIs(255);
    FitSkips(RootCells(3), [], 1024, 264, 0);
    assert RootCells(3) + [] == RootCells(3);
  }

  lemma FullRootFit(v: Vol)
    requires Scene(v, RootCells(3), Range(1, 14)) && v.geo.Sizes() && InodeNumber(v, ROOT)
    ensures Nameable(Long(X)) && FitOf(v, ROOT, Long(X)) == AtEnd(1024)
  {
    hide Sound, RootCells, Range, Long, Linked, Shaped, FitOf, DirBytes, Entries, Padded, Span, CellFit, Scene, Parent, HasRoom,
         WellFormedDir, DirReady, Shape, Geometry.Sizes, CellList, CellFind, FindPos, DirLookup, LookIn;
    SceneBasics(v, RootCells(3), Range(1, 14));
    FullCells();
    ShapedReads(v, ROOT, RootCells(3), Long(X));
  }

  lemma OneSpare(v: Vol)
    requires v.used == SmallVolume(1).used && v.geo == SmallGeometry(1)
    ensures OnlyFree(v, 10)
  {
    SmallParts(SmallVolume(1));
  }

  /** On any fresh volume with an inode to spare: create, remove, create in the root, and the second file is lost. */
  lemma FreshRootLoses(v: Vol, root: nat, b: nat, first: seq<Byte>, second: seq<Byte>)
    requires Fresh(v, root, b) && Parent(v, root) && Shape(v) && v.geo.Sizes() && LowestFreeInode(v) != 0
    requires Nameable(first) && first != DOT && first != DOTDOT && Nameable(second) && second != DOT && second != DOTDOT
    ensures var made := CreateFile(v, root, first);
            made.ok && DirReady(made.v, root) &&
            var gone := RemoveFile(made.v, root, first);
            gone.ok && Parent(gone.v, root) &&
            var lost := CreateFile(gone.v, root, second);
            lost.ok && lost.v.geo.Sizes() && DirLookup(lost.v, root, second) == Absent
  {
    hide Fresh, Sound, Shaped, Parent, CreateFile, RemoveFile, DirLookup, LowestFreeInode, DirReady, Shape, Geometry.Sizes, DotCells;
    FreshShaped(v, root, b);
    FreshParts(v, root, b);
    FirstFileAfterEmptying(v, root, root, first, second);
  }
}
