/** The records of a directory as a list of cells, on which the searches and edits of its bytes can be followed by hand. */
module DirCells {
  import opened Bytes
  import opened DirRecords
  import opened DirData
  import opened DirRemoval

  /** A record with everything the kernel reads of it; inode 0 marks it deleted. */
  datatype Cell = Cell(ino: Word32, len: nat, name: seq<Byte>, kind: Byte)

  predicate CellAt(d: seq<Byte>, p: nat, c: Cell) {
    && p + HEADER <= |d| && p + c.len <= |d| && HEADER + |c.name| <= c.len && RecLen(d, p) == c.len
    && NameLen(d, p) == |c.name| && Ino(d, p) == c.ino && Name(d, p) == c.name && d[p + 7] == c.kind
  }

  /** The bytes from p on are these cells and nothing else. */
  predicate Laid(d: seq<Byte>, p: nat, cells: seq<Cell>)
    decreases |cells|
  {
    if cells == [] then p == |d| else CellAt(d, p, cells[0]) && Laid(d, p + cells[0].len, cells[1..])
  }

  function CellList(cells: seq<Cell>): seq<Rec> {
    if cells == [] then []
    else (if cells[0].ino == 0 then [] else [Rec(cells[0].ino, cells[0].name, cells[0].kind)]) + CellList(cells[1..])
  }

  function Room(c: Cell): int {
    c.len - Padded(|c.name|)
  }

  function CellFit(cells: seq<Cell>, size: nat, need: nat, p: nat): Fit {
    if p >= size then AtEnd(p)
    else if cells == [] then Hole
    else if Room(cells[0]) >= need then Slot(p)
    else CellFit(cells[1..], size, need, p + cells[0].len)
  }

  function CellFind(cells: seq<Cell>, size: nat, name: seq<Byte>, p: nat, prev: int): Found {
    if p >= size || cells == [] then Missing
    else if cells[0].name == name then At(p, prev)
    else CellFind(cells[1..], size, name, p + cells[0].len, p)
  }

  // ---------------------------------------------------------------- reading cells is reading bytes

  lemma {:induction false} LaidLists(d: seq<Byte>, p: nat, cells: seq<Cell>)
    requires Laid(d, p, cells)
    ensures Listing(d, p) == CellList(cells)
    decreases |cells|
  {
    hide RecLen, NameLen, Ino, Name;
    if cells == [] {
      NothingAfter(d);
    } else {
      LaidLists(d, p + cells[0].len, cells[1..]);
      ListingStep(d, p);
    }
  }

  lemma {:induction false} LaidFits(d: seq<Byte>, p: nat, cells: seq<Cell>, size: nat, need: nat)
    requires Laid(d, p, cells)
    ensures FirstFit(d, size, need, p) == CellFit(cells, size, need, p)
    decreases |cells|
  {
    hide RecLen, NameLen, Ino, Name;
    if cells != [] {
      LaidFits(d, p + cells[0].len, cells[1..], size, need);
    }
  }

  lemma {:induction false} LaidFinds(d: seq<Byte>, p: nat, cells: seq<Cell>, size: nat, name: seq<Byte>, prev: int)
    requires Laid(d, p, cells)
    ensures FindPos(d, size, name, p, prev) == CellFind(cells, size, name, p, prev)
    decreases |cells|
  {
    hide RecLen, NameLen, Ino, Name;
    if cells != [] {
      LaidFinds(d, p + cells[0].len, cells[1..], size, name, p);
    }
  }

  // ---------------------------------------------------------------- editing bytes is editing cells

  lemma SameCell(d: seq<Byte>, e: seq<Byte>, p: nat, q: nat, c: Cell)
    requires SameBetween(d, e, p, q) && CellAt(d, p, c) && p + HEADER + |c.name| <= q
    ensures CellAt(e, p, c)
  {
    hide RecLen, NameLen, Ino, LiveAt;
    assert Name(e, p) == Name(d, p) by {
      SameSlices(d, e, p, q, p + HEADER, p + HEADER + |c.name|);
      HeadBytes(d, e, p, q);
    }
    HeadBytes(d, e, p, q);
  }

  lemma HeadBytes(d: seq<Byte>, e: seq<Byte>, p: nat, q: nat)
    requires SameBetween(d, e, p, q) && p + HEADER <= q
    ensures RecLen(e, p) == RecLen(d, p) && NameLen(e, p) == NameLen(d, p) && Ino(e, p) == Ino(d, p)
  {}

  lemma {:induction false} LaidSuffix(d: seq<Byte>, e: seq<Byte>, p: nat, cells: seq<Cell>)
    requires SameFrom(d, e, p) && Laid(d, p, cells)
    ensures Laid(e, p, cells)
    decreases |cells|
  {
    hide CellAt, RecLen, NameLen, Ino, Name;
    if cells != [] {
      CellInside(d, p, cells[0]);
      SameCell(d, e, p, |d|, cells[0]);
      LaidSuffix(d, e, p + cells[0].len, cells[1..]);
    }
  }

  lemma CellInside(d: seq<Byte>, p: nat, c: Cell)
    requires CellAt(d, p, c)
    ensures p + HEADER <= |d| && p + c.len <= |d| && HEADER + |c.name| <= c.len && RecLen(d, p) == c.len
    ensures NameLen(d, p) == |c.name| && Ino(d, p) == c.ino && LiveAt(d, p) == if c.ino == 0 then [] else [Rec(c.ino, c.name, c.kind)]
  {}

  /** A live record is a cell. */
  lemma LiveCell(d: seq<Byte>, p: nat, c: Cell)
    requires p + HEADER <= |d| && p + c.len <= |d| && HEADER + |c.name| <= c.len && RecLen(d, p) == c.len && c.ino != 0
    requires NameLen(d, p) == |c.name| && Ino(d, p) == c.ino && LiveAt(d, p) == [Rec(c.ino, c.name, c.kind)]
    ensures CellAt(d, p, c)
  {
    hide RecLen, NameLen, Ino, Name;
    assert LiveAt(d, p)[0] == Rec(c.ino, c.name, c.kind);
  }

  /** The cell at p gives up its room to a new one. */
  function SplitCells(cells: seq<Cell>, at: nat, p: nat, ino: Word32, name: seq<Byte>, kind: Byte): seq<Cell>
    decreases |cells|
  {
    if cells == [] then []
    else if at != p then [cells[0]] + SplitCells(cells[1..], at + cells[0].len, p, ino, name, kind)
    else
      var own := Padded(|cells[0].name|);
      [cells[0].(len := own), Cell(ino, if cells[0].len >= own then cells[0].len - own else 0, name, kind)] + cells[1..]
  }

  /** The live cell at which a walk from at arrives at p. */
  ghost predicate LiveCellAt(cells: seq<Cell>, at: nat, p: nat)
    decreases |cells|
  {
    cells != [] && (if at == p then cells[0].ino != 0 else at < p && LiveCellAt(cells[1..], at + cells[0].len, p))
  }

  lemma {:induction false} SplitLaid(d: seq<Byte>, at: nat, cells: seq<Cell>, p: nat, ino: Word32, name: seq<Byte>, kind: Byte)
    requires Laid(d, at, cells) && LiveCellAt(cells, at, p) && at <= p
    requires p + HEADER <= |d| && p + RecLen(d, p) <= |d| && Nameable(name) && ino != 0 && Slack(d, p) >= Padded(|name|)
    ensures Laid(Split(d, p, ino, name, kind), at, SplitCells(cells, at, p, ino, name, kind))
    decreases |cells|
  {
    hide CellAt, RecLen, NameLen, Ino, Name, Split, LiveAt, SameFrom, Padded;
    var e := Split(d, p, ino, name, kind);
    var c := cells[0];
    SplitBytes(d, p, ino, name, kind);
    CellInside(d, at, c);
    if at != p {
      SplitLaid(d, at + c.len, cells[1..], p, ino, name, kind);
      LiveBehind(cells[1..], at + c.len, p);
      SameFirst(d, e, at, p);
      SameCell(d, e, at, p, c);
      assert SplitCells(cells, at, p, ino, name, kind)[1..] == SplitCells(cells[1..], at + c.len, p, ino, name, kind);
    } else {
      var own := Padded(|c.name|);
      PaddedFits(|c.name|);
      PaddedFits(|name|);
      LiveCell(e, p, c.(len := own));
      LiveCell(e, p + own, Cell(ino, c.len - own, name, kind));
      LaidSuffix(d, e, p + c.len, cells[1..]);
      var two := SplitCells(cells, at, p, ino, name, kind);
      assert two[1..] == [Cell(ino, c.len - own, name, kind)] + cells[1..] && two[1..][1..] == cells[1..];
    }
  }

  lemma PaddedFits(k: nat)
    ensures HEADER + k <= Padded(k)
  {}

  lemma LiveBehind(cells: seq<Cell>, at: nat, p: nat)
    requires LiveCellAt(cells, at, p)
    ensures at <= p
  {}

  lemma SameFirst(d: seq<Byte>, e: seq<Byte>, at: nat, p: nat)
    requires SameBetween(d, e, 0, p)
    ensures SameBetween(d, e, at, p)
  {}

  /** The cell at p marked deleted. */
  function TombCells(cells: seq<Cell>, at: nat, p: nat): seq<Cell>
    decreases |cells|
  {
    if cells == [] then []
    else if at != p then [cells[0]] + TombCells(cells[1..], at + cells[0].len, p)
    else [cells[0].(ino := 0)] + cells[1..]
  }

  lemma {:induction false} TombLaid(d: seq<Byte>, at: nat, cells: seq<Cell>, p: nat)
    requires Laid(d, at, cells) && LiveCellAt(cells, at, p) && at <= p && p + HEADER <= |d|
    ensures Laid(Tombstone(d, p), at, TombCells(cells, at, p))
    decreases |cells|
  {
    hide CellAt, RecLen, NameLen, Ino, Name, Tombstone, LiveAt, SameFrom;
    var e := Tombstone(d, p);
    var c := cells[0];
    TombstoneBytes(d, p);
    CellInside(d, at, c);
    if at != p {
      TombLaid(d, at + c.len, cells[1..], p);
      LiveBehind(cells[1..], at + c.len, p);
      SameFirst(d, e, at, p);
      SameCell(d, e, at, p, c);
      assert TombCells(cells, at, p)[1..] == TombCells(cells[1..], at + c.len, p);
    } else {
      TombCell(d, p, c);
      SameFromLater(d, e, p + 4, p + c.len);
      LaidSuffix(d, e, p + c.len, cells[1..]);
      assert TombCells(cells, at, p)[1..] == cells[1..];
    }
  }

  lemma TombCell(d: seq<Byte>, p: nat, c: Cell)
    requires CellAt(d, p, c) && p + HEADER <= |d|
    ensures CellAt(Tombstone(d, p), p, c.(ino := 0))
  {
    hide Tombstone, Ino, RecLen;
    TombstoneBytes(d, p);
    var e := Tombstone(d, p);
    assert e[p + HEADER..p + HEADER + |c.name|] == d[p + HEADER..p + HEADER + |c.name|];
  }

  /** The cell at q grown over the one behind it. */
  function MergeCells(cells: seq<Cell>, at: nat, q: nat): seq<Cell>
    decreases |cells|
  {
    if |cells| < 2 then cells
    else if at != q then [cells[0]] + MergeCells(cells[1..], at + cells[0].len, q)
    else [cells[0].(len := cells[0].len + cells[1].len)] + cells[2..]
  }

  lemma {:induction false} MergeLaid(d: seq<Byte>, at: nat, cells: seq<Cell>, q: nat, p: nat)
    requires Laid(d, at, cells) && LiveCellAt(cells, at, q) && at <= q && q + HEADER <= |d| && q + RecLen(d, q) == p && p < |d|
    requires p + HEADER <= |d| && RecLen(d, q) + RecLen(d, p) < 0x1_0000
    ensures Laid(Merge(d, q, p), at, MergeCells(cells, at, q))
    decreases |cells|
  {
    hide CellAt, RecLen, NameLen, Ino, Name, Merge, LiveAt, SameFrom;
    var e := Merge(d, q, p);
    var c := cells[0];
    CellInside(d, at, c);
    if at != q {
      MergeLaid(d, at + c.len, cells[1..], q, p);
      LiveBehind(cells[1..], at + c.len, q);
      CellOfWalk(d, at + c.len, cells[1..], q);
      MergeBytes(d, q, p);
      SameFirst(d, e, at, q);
      SameCell(d, e, at, q, c);
      assert MergeCells(cells, at, q)[1..] == MergeCells(cells[1..], at + c.len, q);
    } else {
      CellInside(d, p, cells[1]);
      MergeBytes(d, q, p);
      LiveCell(e, q, c.(len := c.len + cells[1].len));
      SameFromLater(d, e, p, p + cells[1].len);
      assert cells[1..][1..] == cells[2..];
      LaidSuffix(d, e, p + cells[1].len, cells[2..]);
      assert MergeCells(cells, at, q)[1..] == cells[2..];
    }
  }

  lemma {:induction false} CellOfWalk(d: seq<Byte>, at: nat, cells: seq<Cell>, q: nat)
    requires Laid(d, at, cells) && LiveCellAt(cells, at, q)
    ensures q + HEADER <= |d| && q + HEADER + NameLen(d, q) <= q + RecLen(d, q)
    decreases |cells|
  {
    hide RecLen, NameLen, Ino, Name;
    if at != q { CellOfWalk(d, at + cells[0].len, cells[1..], q); }
  }

  /** There is a cell behind the one at p. */
  ghost predicate FollowedAt(cells: seq<Cell>, at: nat, p: nat)
    decreases |cells|
  {
    |cells| >= 2 && (at == p || FollowedAt(cells[1..], at + cells[0].len, p))
  }

  lemma {:induction false} FollowedEnds(d: seq<Byte>, at: nat, cells: seq<Cell>, p: nat)
    requires Laid(d, at, cells) && FollowedAt(cells, at, p)
    ensures p + HEADER <= |d| && p + RecLen(d, p) < |d|
    decreases |cells|
  {
    hide RecLen, NameLen, Ino, Name;
    if at != p { FollowedEnds(d, at + cells[0].len, cells[1..], p); }
  }

  /** A fresh block is one cell more. */
  lemma {:induction false} AppendLaid(d: seq<Byte>, at: nat, cells: seq<Cell>, bs: nat, ino: Word32, name: seq<Byte>, kind: Byte)
    requires BlockSize(bs) && Laid(d, at, cells) && Nameable(name) && ino != 0 && |d| % bs == 0
    ensures Laid(d + FreshBlock(bs, ino, name, kind), at, cells + [Cell(ino, bs, name, kind)])
    decreases |cells|
  {
    hide RecLen, NameLen, Ino, LiveAt, FreshBlock, CellAt;
    var b, c := FreshBlock(bs, ino, name, kind), Cell(ino, bs, name, kind);
    var e := d + b;
    if cells == [] {
      FreshRecord(d, bs, ino, name, kind);
      NameableFits(name, bs);
      LiveCell(e, at, c);
      assert (cells + [c])[1..] == [];
    } else {
      AppendLaid(d, at + cells[0].len, cells[1..], bs, ino, name, kind);
      WidenCell(d, b, at, cells[0]);
      assert (cells + [c])[1..] == cells[1..] + [c];
    }
  }

  lemma NameableFits(name: seq<Byte>, bs: nat)
    requires BlockSize(bs) && Nameable(name)
    ensures HEADER + |name| <= bs
  {}

  lemma WidenCell(d: seq<Byte>, b: seq<Byte>, p: nat, c: Cell)
    requires CellAt(d, p, c)
    ensures CellAt(d + b, p, c)
  {
    hide RecLen, NameLen, Ino;
    assert (d + b)[..|d|] == d;
    WidenRecord(d, d + b, p);
    var hi := p + HEADER + |c.name|;
    assert (d + b)[p + HEADER..hi] == d[p + HEADER..hi];
  }

  // ---------------------------------------------------------------- cells passed over by the searches

  function Span(cells: seq<Cell>): nat {
    if cells == [] then 0 else cells[0].len + Span(cells[1..])
  }

  /** Cells without room for need bytes. */
  predicate AllFull(cells: seq<Cell>, need: nat) {
    forall i :: 0 <= i < |cells| ==> cells[i].len > 0 && Room(cells[i]) < need
  }

  predicate NoneNamed(cells: seq<Cell>, name: seq<Byte>) {
    forall i :: 0 <= i < |cells| ==> cells[i].len > 0 && cells[i].name != name
  }

  lemma {:induction false} LaidSpan(d: seq<Byte>, p: nat, cells: seq<Cell>)
    requires Laid(d, p, cells)
    ensures |d| == p + Span(cells)
    decreases |cells|
  {
    if cells != [] { LaidSpan(d, p + cells[0].len, cells[1..]); }
  }

  lemma {:induction false} SpanJoined(a: seq<Cell>, b: seq<Cell>)
    ensures Span(a + b) == Span(a) + Span(b)
  {
    if a == [] {
      assert a + b == b;
    } else {
      assert (a + b)[1..] == a[1..] + b;
      SpanJoined(a[1..], b);
    }
  }

  lemma JoinedTail(a: seq<Cell>, b: seq<Cell>)
    requires a != []
    ensures (a + b)[0] == a[0] && (a + b)[1..] == a[1..] + b && a + b != []
  {}

  lemma FullTail(a: seq<Cell>, need: nat)
    requires a != [] && AllFull(a, need)
    ensures a[0].len > 0 && Room(a[0]) < need && AllFull(a[1..], need)
  {}

  lemma {:induction false} FitSkips(a: seq<Cell>, b: seq<Cell>, size: nat, need: nat, p: nat)
    requires AllFull(a, need) && p + Span(a) <= size
    ensures CellFit(a + b, size, need, p) == CellFit(b, size, need, p + Span(a))
  {
    hide AllFull, Room;
    if a == [] {
      assert a + b == b;
    } else {
      JoinedTail(a, b);
      FullTail(a, need);
      FitSkips(a[1..], b, size, need, p + a[0].len);
    }
  }

  /** Where the last of the cells begins, or before. */
  function LastStart(cells: seq<Cell>, p: nat, before: int): int {
    if cells == [] then before else LastStart(cells[1..], p + cells[0].len, p)
  }

  lemma {:induction false} FindSkips(a: seq<Cell>, b: seq<Cell>, size: nat, name: seq<Byte>, p: nat, prev: int)
    requires NoneNamed(a, name) && p + Span(a) <= size
    ensures CellFind(a + b, size, name, p, prev) == CellFind(b, size, name, p + Span(a), LastStart(a, p, prev))
  {
    if a == [] {
      assert a + b == b;
    } else {
      assert (a + b)[1..] == a[1..] + b;
      assert a[0].len > 0;
      FindSkips(a[1..], b, size, name, p + a[0].len, p);
    }
  }

  predicate NoneEmpty(cells: seq<Cell>) {
    forall i :: 0 <= i < |cells| ==> cells[i].len > 0
  }

  lemma EmptyTail(a: seq<Cell>)
    requires a != [] && NoneEmpty(a)
    ensures a[0].len > 0 && NoneEmpty(a[1..]) && Span(a) == a[0].len + Span(a[1..])
  {}

  lemma HeadAndTail(a: seq<Cell>, x: seq<Cell>)
    requires a != []
    ensures [a[0]] + (a[1..] + x) == a + x
  {}

  lemma EditStep(cells: seq<Cell>, at: nat, p: nat, ino: Word32, name: seq<Byte>, kind: Byte)
    requires |cells| >= 2 && at < p
    ensures var rest, next := cells[1..], at + cells[0].len;
            SplitCells(cells, at, p, ino, name, kind) == [cells[0]] + SplitCells(rest, next, p, ino, name, kind)
            && TombCells(cells, at, p) == [cells[0]] + TombCells(rest, next, p)
            && LiveCellAt(cells, at, p) == LiveCellAt(rest, next, p) && FollowedAt(cells, at, p) == FollowedAt(rest, next, p)
  {}

  /** Edits at a cell behind others leave those alone. */
  lemma {:induction false} EditSkips(a: seq<Cell>, b: seq<Cell>, at: nat, p: nat, ino: Word32, name: seq<Byte>, kind: Byte)
    requires NoneEmpty(a) && b != [] && at + Span(a) <= p
    ensures SplitCells(a + b, at, p, ino, name, kind) == a + SplitCells(b, at + Span(a), p, ino, name, kind)
    ensures TombCells(a + b, at, p) == a + TombCells(b, at + Span(a), p)
    ensures LiveCellAt(a + b, at, p) == LiveCellAt(b, at + Span(a), p)
    ensures FollowedAt(a + b, at, p) == FollowedAt(b, at + Span(a), p)
  {
    if a == [] {
      assert a + b == b;
      assert forall x: seq<Cell> :: a + x == x;
    } else {
      hide NoneEmpty, SplitCells, TombCells, LiveCellAt, FollowedAt, Span;
      JoinedTail(a, b);
      EmptyTail(a);
      EditStep(a + b, at, p, ino, name, kind);
      EditSkips(a[1..], b, at + a[0].len, p, ino, name, kind);
      HeadAndTail(a, SplitCells(b, at + Span(a), p, ino, name, kind));
      HeadAndTail(a, TombCells(b, at + Span(a), p));
    }
  }

  lemma {:induction false} ListJoined(a: seq<Cell>, b: seq<Cell>)
    ensures CellList(a + b) == CellList(a) + CellList(b)
  {
    if a == [] {
      assert a + b == b;
    } else {
      assert (a + b)[1..] == a[1..] + b;
      ListJoined(a[1..], b);
    }
  }

  lemma {:induction false} NotListed(cells: seq<Cell>, name: seq<Byte>)
    requires NoneNamed(cells, name)
    ensures Unnamed(CellList(cells), name)
  {
    if cells != [] { NotListed(cells[1..], name); }
  }
}
