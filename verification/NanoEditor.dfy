/** The line table of the nano editor (kernel/shell/editors.c) as a refinement of flat text with a cursor. */
module NanoEditor {
  import opened Bytes

  const MAX_LINES: nat := 512
  const MAX_COL: nat := 160
  const NL: Byte := 10

  // ---------------------------------------------------------------- flat text

  /** Lines after the first, each behind its newline. */
  function Post(b: seq<seq<Byte>>): seq<Byte> {
    if b == [] then [] else [NL] + b[0] + Post(b[1..])
  }

  /** Lines joined by newlines. */
  function Flat(t: seq<seq<Byte>>): seq<Byte> {
    if t == [] then [] else t[0] + Post(t[1..])
  }

  /** Lines each followed by its newline. */
  function Pre(a: seq<seq<Byte>>): seq<Byte> {
    if a == [] then [] else a[0] + [NL] + Pre(a[1..])
  }

  lemma {:induction false} FlatParts(a: seq<seq<Byte>>, l: seq<Byte>, b: seq<seq<Byte>>)
    ensures Flat(a + [l] + b) == Pre(a) + l + Post(b)
  {
    var t := a + [l] + b;
    if a == [] {
      assert t[1..] == b;
    } else {
      var rest := a[1..] + [l] + b;
      assert t[1..] == rest && t[0] == a[0];
      FlatParts(a[1..], l, b);
      assert Post(rest) == [NL] + Flat(rest);
      assert a[0] + ([NL] + (Pre(a[1..]) + l + Post(b))) == (a[0] + [NL] + Pre(a[1..])) + l + Post(b);
    }
  }

  /** Where the cursor is in the flat text. */
  function Offset(t: seq<seq<Byte>>, row: nat, col: nat): nat
    requires row < |t|
  {
    |Pre(t[..row])| + col
  }

  predicate CursorIn(t: seq<seq<Byte>>, row: nat, col: nat) {
    row < |t| && col <= |t[row]|
  }

  lemma Around(t: seq<seq<Byte>>, row: nat)
    requires row < |t|
    ensures t == t[..row] + [t[row]] + t[row + 1..]
  {}

  lemma CursorInFlat(t: seq<seq<Byte>>, row: nat, col: nat)
    requires CursorIn(t, row, col)
    ensures Offset(t, row, col) <= |Flat(t)|
    ensures Flat(t)[..Offset(t, row, col)] == Pre(t[..row]) + t[row][..col]
    ensures Flat(t)[Offset(t, row, col)..] == t[row][col..] + Post(t[row + 1..])
  {
    Around(t, row);
    FlatParts(t[..row], t[row], t[row + 1..]);
    var f, p, l, q := Flat(t), Pre(t[..row]), t[row], Post(t[row + 1..]);
    assert l == l[..col] + l[col..];
    assert f == (p + l[..col]) + (l[col..] + q);
  }

  function WithLine(t: seq<seq<Byte>>, row: nat, l: seq<Byte>): seq<seq<Byte>>
    requires row < |t|
  {
    t[..row] + [l] + t[row + 1..]
  }

  /** The flat text is what stands before the cursor and what stands behind it. */
  lemma FlatAt(t: seq<seq<Byte>>, row: nat, col: nat)
    requires CursorIn(t, row, col)
    ensures Flat(t) == (Pre(t[..row]) + t[row][..col]) + (t[row][col..] + Post(t[row + 1..]))
  {
    CursorInFlat(t, row, col);
    var f, off := Flat(t), Offset(t, row, col);
    assert f == f[..off] + f[off..];
  }

  /** Only line row differs. */
  lemma LineReplaced(t: seq<seq<Byte>>, row: nat, l: seq<Byte>)
    requires row < |t|
    ensures var u := WithLine(t, row, l); |u| == |t| && u[..row] == t[..row] && u[row + 1..] == t[row + 1..] && u[row] == l
  {}

  /** One character put into a line is put into the flat text at the cursor. */
  lemma InsertRefines(t: seq<seq<Byte>>, row: nat, col: nat, ch: Byte)
    requires CursorIn(t, row, col)
    ensures Offset(t, row, col) <= |Flat(t)|
    ensures var u, off := WithLine(t, row, t[row][..col] + [ch] + t[row][col..]), Offset(t, row, col);
            Flat(u) == Flat(t)[..off] + [ch] + Flat(t)[off..] && CursorIn(u, row, col + 1) && Offset(u, row, col + 1) == off + 1
  {
    hide Flat, Pre, Post;
    var x, y := t[row][..col], t[row][col..];
    var u := WithLine(t, row, x + [ch] + y);
    LineReplaced(t, row, x + [ch] + y);
    CursorInFlat(t, row, col);
    FlatAt(u, row, col + 1);
    Cuts(x + [ch], y);
    assert Pre(t[..row]) + (x + [ch]) == (Pre(t[..row]) + x) + [ch];
  }

  lemma Cuts(x: seq<Byte>, y: seq<Byte>)
    ensures (x + y)[..|x|] == x && (x + y)[|x|..] == y
  {}

  /** A line split at the cursor is a newline put into the flat text. */
  lemma SplitRefines(t: seq<seq<Byte>>, row: nat, col: nat)
    requires CursorIn(t, row, col)
    ensures Offset(t, row, col) <= |Flat(t)|
    ensures var u, off := t[..row] + [t[row][..col], t[row][col..]] + t[row + 1..], Offset(t, row, col);
            Flat(u) == Flat(t)[..off] + [NL] + Flat(t)[off..] && CursorIn(u, row + 1, 0) && Offset(u, row + 1, 0) == off + 1
  {
    hide Flat, Pre, Post;
    var x, y, a, b := t[row][..col], t[row][col..], t[..row], t[row + 1..];
    var u := a + [x, y] + b;
    CursorInFlat(t, row, col);
    FlatAt(u, row + 1, 0);
    assert u[..row + 1] == a + [x] && u[row + 2..] == b && u[row + 1] == y;
    PreLast(a, x);
    assert (Pre(a) + x + [NL]) + [] == (Pre(a) + x) + [NL];
    assert y[0..] == y;
  }

  lemma {:induction false} PreLast(a: seq<seq<Byte>>, x: seq<Byte>)
    ensures Pre(a + [x]) == Pre(a) + x + [NL]
  {
    if a == [] {
      assert (a + [x])[1..] == [];
    } else {
      assert (a + [x])[1..] == a[1..] + [x];
      PreLast(a[1..], x);
      assert a[0] + [NL] + (Pre(a[1..]) + x + [NL]) == (a[0] + [NL] + Pre(a[1..])) + x + [NL];
    }
  }

  /** Taking a character out of a line takes it out of the flat text before the cursor. */
  lemma DeleteRefines(t: seq<seq<Byte>>, row: nat, col: nat)
    requires CursorIn(t, row, col) && col > 0
    ensures 0 < Offset(t, row, col) <= |Flat(t)|
    ensures var u, off := WithLine(t, row, t[row][..col - 1] + t[row][col..]), Offset(t, row, col);
            Flat(u) == Flat(t)[..off - 1] + Flat(t)[off..] && CursorIn(u, row, col - 1) && Offset(u, row, col - 1) == off - 1
  {
    hide Flat, Pre, Post;
    var x, y := t[row][..col - 1], t[row][col..];
    CursorInFlat(t, row, col);
    CursorInFlat(t, row, col - 1);
    LineReplaced(t, row, x + y);
    FlatAt(WithLine(t, row, x + y), row, col - 1);
    Cuts(x, y);
  }

  /** The lines with row joined onto the one before it. */
  function Joined(t: seq<seq<Byte>>, row: nat, l: seq<Byte>): seq<seq<Byte>>
    requires 0 < row < |t|
  {
    t[..row - 1] + [l] + t[row + 1..]
  }

  /** Joining a line onto the one before it takes the newline before the cursor out of the flat text. */
  lemma JoinRefines(t: seq<seq<Byte>>, row: nat)
    requires 0 < row < |t|
    ensures 0 < Offset(t, row, 0) <= |Flat(t)|
    ensures var u, off := Joined(t, row, t[row - 1] + t[row]), Offset(t, row, 0);
            Flat(t)[off - 1] == NL && Flat(u) == Flat(t)[..off - 1] + Flat(t)[off..]
            && CursorIn(u, row - 1, |t[row - 1]|) && Offset(u, row - 1, |t[row - 1]|) == off - 1
  {
    var u := Joined(t, row, t[row - 1] + t[row]);
    var x, y, a, b := t[row - 1], t[row], t[..row - 1], t[row + 1..];
    assert u[row - 1][..|x|] == x && u[row - 1][|x|..] == y;
    SplitRefines(u, row - 1, |x|);
    assert u[..row - 1] == a && u[row..] == b;
    assert a + [x, y] + b == t;
    assert t[..row] == a + [x];
    PreLast(a, x);
  }

  // ---------------------------------------------------------------- the line table

  /** Row r of the table is the NUL-terminated line l. */
  ghost predicate Holds(t: array2<Byte>, r: nat, l: seq<Byte>)
    reads t
  {
    && t.Length0 == MAX_LINES && t.Length1 == MAX_COL && r < MAX_LINES && |l| < MAX_COL && t[r, |l|] == 0
    && forall k :: 0 <= k < |l| ==> l[k] != 0 && t[r, k] == l[k]
  }

  /** strlen of a row. */
  method LineLen(t: array2<Byte>, r: nat, ghost l: seq<Byte>) returns (n: nat)
    requires Holds(t, r, l)
    ensures n == |l|
  {
    n := 0;
    while t[r, n] != 0
      invariant n <= |l|
      decreases |l| - n
    {
      n := n + 1;
    }
  }

  /** The shift loop of nano_insert_char: one character more in row r. */
  method ShiftRight(t: array2<Byte>, r: nat, col: nat, len: nat, ghost l: seq<Byte>, ch: Byte)
    requires Holds(t, r, l) && len == |l| && col <= len < MAX_COL - 1 && ch != 0
    modifies t
    ensures Holds(t, r, l[..col] + [ch] + l[col..])
    ensures forall i, k :: 0 <= i < MAX_LINES && 0 <= k < MAX_COL && i != r ==> t[i, k] == old(t[i, k])
  {
    var i: int := len;
    while i >= col
      invariant col - 1 <= i <= len
      invariant forall k :: 0 <= k < MAX_COL ==> t[r, k] == if i + 1 < k <= len + 1 then old(t[r, k - 1]) else old(t[r, k])
      invariant forall j, k :: 0 <= j < MAX_LINES && 0 <= k < MAX_COL && j != r ==> t[j, k] == old(t[j, k])
    {
      t[r, i + 1] := t[r, i];
      i := i - 1;
    }
    t[r, col] := ch;
    ghost var m := l[..col] + [ch] + l[col..];
    forall k | 0 <= k < |m| ensures m[k] != 0 && t[r, k] == m[k] {
      if k > col { assert m[k] == l[k - 1]; }
    }
  }

  /** The shift loop of nano_backspace: one character fewer in row r. */
  method ShiftLeft(t: array2<Byte>, r: nat, col: nat, len: nat, ghost l: seq<Byte>)
    requires Holds(t, r, l) && len == |l| && 0 < col <= len
    modifies t
    ensures Holds(t, r, l[..col - 1] + l[col..])
    ensures forall i, k :: 0 <= i < MAX_LINES && 0 <= k < MAX_COL && i != r ==> t[i, k] == old(t[i, k])
  {
    var i := col - 1;
    while i < len
      invariant col - 1 <= i <= len
      invariant forall k :: 0 <= k < MAX_COL ==> t[r, k] == if col - 1 <= k < i then old(t[r, k + 1]) else old(t[r, k])
      invariant forall j, k :: 0 <= j < MAX_LINES && 0 <= k < MAX_COL && j != r ==> t[j, k] == old(t[j, k])
    {
      t[r, i] := t[r, i + 1];
      i := i + 1;
    }
    ghost var m := l[..col - 1] + l[col..];
    forall k | 0 <= k < |m| ensures m[k] != 0 && t[r, k] == m[k] {
      if k >= col - 1 { assert m[k] == l[k + 1]; }
    }
  }

  /** The first room characters of row r put behind row r - 1. */
  method AppendRow(t: array2<Byte>, r: nat, plen: nat, room: nat, ghost p: seq<Byte>, ghost l: seq<Byte>)
    requires r > 0 && Holds(t, r - 1, p) && Holds(t, r, l) && plen == |p| && room <= |l| && plen + room < MAX_COL
    modifies t
    ensures Holds(t, r - 1, p + l[..room])
    ensures forall i, k :: 0 <= i < MAX_LINES && 0 <= k < MAX_COL && i != r - 1 ==> t[i, k] == old(t[i, k])
  {
    var q := r - 1;
    if room > 0 {
      var i := 0;
      while i < room
        invariant i <= room
        invariant forall k :: 0 <= k < MAX_COL ==> t[q, k] == if plen <= k < plen + i then old(t[r, k - plen]) else old(t[q, k])
        invariant forall j, k :: 0 <= j < MAX_LINES && 0 <= k < MAX_COL && j != q ==> t[j, k] == old(t[j, k])
      {
        t[q, plen + i] := t[r, i];
        i := i + 1;
      }
      t[q, plen + room] := 0;
    }
    ghost var m := p + l[..room];
    forall k | 0 <= k < |m| ensures m[k] != 0 && t[r - 1, k] == m[k] {
      if k >= plen { assert m[k] == l[k - plen]; }
    }
  }

  /** Rows r + 1 to n - 1 moved up by one. */
  method RowsUp(t: array2<Byte>, r: nat, n: nat)
    requires t.Length0 == MAX_LINES && t.Length1 == MAX_COL && r < n <= MAX_LINES
    modifies t
    ensures forall i, k :: 0 <= i < MAX_LINES && 0 <= k < MAX_COL ==> t[i, k] == if r <= i < n - 1 then old(t[i + 1, k]) else old(t[i, k])
  {
    var i := r;
    while i < n - 1
      invariant r <= i <= n - 1
      invariant forall j, k :: 0 <= j < MAX_LINES && 0 <= k < MAX_COL ==>
                  t[j, k] == if r <= j < i then old(t[j + 1, k]) else old(t[j, k])
    {
      var c := 0;
      while c < MAX_COL
        invariant c <= MAX_COL
        invariant forall j, k :: 0 <= j < MAX_LINES && 0 <= k < MAX_COL ==>
                    t[j, k] == if r <= j < i || (j == i && k < c) then old(t[j + 1, k]) else old(t[j, k])
      {
        t[i, c] := t[i + 1, c];
        c := c + 1;
      }
      i := i + 1;
    }
  }

  /** Rows r to n - 1 moved down by one, for r >= 1. */
  method RowsDown(t: array2<Byte>, r: nat, n: nat)
    requires t.Length0 == MAX_LINES && t.Length1 == MAX_COL && 0 < r <= n < MAX_LINES
    modifies t
    ensures forall i, k :: 0 <= i < MAX_LINES && 0 <= k < MAX_COL ==> t[i, k] == if r < i <= n then old(t[i - 1, k]) else old(t[i, k])
  {
    var i := n;
    while i > r
      invariant r <= i <= n
      invariant forall j, k :: 0 <= j < MAX_LINES && 0 <= k < MAX_COL ==>
                  t[j, k] == if i < j <= n then old(t[j - 1, k]) else old(t[j, k])
    {
      var c := 0;
      while c < MAX_COL
        invariant c <= MAX_COL
        invariant forall j, k :: 0 <= j < MAX_LINES && 0 <= k < MAX_COL ==>
                    t[j, k] == if i < j <= n || (j == i && k < c) then old(t[j - 1, k]) else old(t[j, k])
      {
        t[i, c] := t[i - 1, c];
        c := c + 1;
      }
      i := i - 1;
    }
  }

  /** The tail of row r, from col on, becomes row r + 1. */
  method SplitRow(t: array2<Byte>, r: nat, col: nat, len: nat, ghost l: seq<Byte>)
    requires Holds(t, r, l) && len == |l| && col <= len && r + 1 < MAX_LINES
    modifies t
    ensures Holds(t, r, l[..col]) && Holds(t, r + 1, l[col..])
    ensures forall i, k :: 0 <= i < MAX_LINES && 0 <= k < MAX_COL && i != r && i != r + 1 ==> t[i, k] == old(t[i, k])
  {
    var below, c := r + 1, 0;
    while c < MAX_COL
      invariant c <= MAX_COL
      invariant forall i, k :: 0 <= i < MAX_LINES && 0 <= k < MAX_COL && i != below ==> t[i, k] == old(t[i, k])
    {
      t[below, c] := 0;
      c := c + 1;
    }
    var i, tail := 0, len - col;
    while i < tail
      invariant i <= tail
      invariant forall k :: 0 <= k < i ==> t[below, k] == l[col + k]
      invariant forall j, k :: 0 <= j < MAX_LINES && 0 <= k < MAX_COL && j != below ==> t[j, k] == old(t[j, k])
    {
      t[below, i] := t[r, col + i];
      i := i + 1;
    }
    t[below, tail] := 0;
    t[r, col] := 0;
  }

  // ---------------------------------------------------------------- the editor

  /** A value clamped from above. */
  function AtMost(x: int, limit: int): int {
    if x > limit then limit else x
  }

  class Nano {
    const cells: array2<Byte>
    var lcount: nat
    var row: nat
    var col: nat
    var scroll: int
    var scrollX: int
    var modified: bool
    /** The lines the table holds. */
    ghost var text: seq<seq<Byte>>

    ghost predicate Valid()
      reads this, cells
    {
      Table() && CursorIn(text, row, col)
    }

    /** The rows of the table hold the lines of the text. */
    ghost predicate Table()
      reads this`lcount, this`text, cells
    {
      && cells.Length0 == MAX_LINES && cells.Length1 == MAX_COL && 1 <= lcount <= MAX_LINES && |text| == lcount
      && forall r :: 0 <= r < lcount ==> Holds(cells, r, text[r])
    }

    /** An empty file. */
    constructor ()
      ensures Valid() && text == [[]] && row == 0 && col == 0 && fresh(cells)
    {
      cells := new Byte[MAX_LINES, MAX_COL]((_, _) => 0);
      lcount, row, col, scroll, scrollX, modified := 1, 0, 0, 0, 0, false;
      text := [[]];
    }

    /** A character typed is inserted at the cursor, unless the line is full. */
    method InsertChar(ch: Byte)
      requires Valid() && ch != 0
      modifies this, cells
      ensures Valid() && Offset(old(text), old(row), old(col)) <= |Flat(old(text))|
      ensures var off := Offset(old(text), old(row), old(col));
              if |old(text)[old(row)]| >= MAX_COL - 1 then text == old(text) && row == old(row) && col == old(col)
              else Flat(text) == Flat(old(text))[..off] + [ch] + Flat(old(text))[off..] && Offset(text, row, col) == off + 1 && modified
    {
      InsertRefines(text, row, col, ch);
      hide Flat, Pre, Post;
      var len := LineLen(cells, row, text[row]);
      if len >= MAX_COL - 1 {
        return;
      }
      ShiftRight(cells, row, col, len, text[row], ch);
      ghost var l := text[row][..col] + [ch] + text[row][col..];
      LineReplaced(text, row, l);
      forall r | 0 <= r < lcount && r != row ensures Holds(cells, r, WithLine(text, row, l)[r]) {
        SameLine(text, WithLine(text, row, l), row, r);
        assert old(Holds(cells, r, text[r]));
      }
      text := WithLine(text, row, l);
      col := AtMost(col + 1, MAX_COL - 1);
      modified := true;
    }

    /** The character, or the newline, before the cursor is deleted; a merge keeps what fits the line. */
    method Backspace()
      requires Valid()
      modifies this, cells
      ensures Valid()
      ensures old(col) > 0 ==>
                var off := Offset(old(text), old(row), old(col));
                0 < off <= |Flat(old(text))| && Flat(text) == Flat(old(text))[..off - 1] + Flat(old(text))[off..]
                && Offset(text, row, col) == off - 1
      ensures old(col) == 0 && old(row) > 0 ==>
                var p, l := old(text)[old(row) - 1], old(text)[old(row)];
                var room := if |l| < MAX_COL - 1 - |p| then |l| else MAX_COL - 1 - |p|;
                text == Joined(old(text), old(row), p + l[..room]) && row == old(row) - 1 && col == |p| + room
      ensures old(col) == 0 && old(row) == 0 ==> text == old(text) && row == old(row) && col == old(col)
    {
      hide Flat, Pre, Post;
      if col > 0 {
        DeleteRefines(text, row, col);
        var len := LineLen(cells, row, text[row]);
        ShiftLeft(cells, row, col, len, text[row]);
        ghost var l := text[row][..col - 1] + text[row][col..];
        LineReplaced(text, row, l);
        forall r | 0 <= r < lcount && r != row ensures Holds(cells, r, WithLine(text, row, l)[r]) {
          SameLine(text, WithLine(text, row, l), row, r);
          assert old(Holds(cells, r, text[r]));
        }
        text := WithLine(text, row, l);
        col := col - 1;
        modified := true;
      } else if row > 0 {
        MergeLines();
      }
    }

    /** The merge of the current line with the one before it. */
    method MergeLines()
      requires Valid() && col == 0 && row > 0
      modifies this, cells
      ensures Valid()
      ensures var p, l := old(text)[old(row) - 1], old(text)[old(row)];
              var room := if |l| < MAX_COL - 1 - |p| then |l| else MAX_COL - 1 - |p|;
              text == Joined(old(text), old(row), p + l[..room]) && row == old(row) - 1 && col == |p| + room && modified
    {
      ghost var p, l := text[row - 1], text[row];
      var len := LineLen(cells, row, l);
      var plen := LineLen(cells, row - 1, p);
      var room := MAX_COL - 1 - plen;
      if room > len {
        room := len;
      }
      AppendRow(cells, row, plen, room, p, l);
      label Appended:
      RowsUp(cells, row, lcount);
      ghost var u := Joined(text, row, p + l[..room]);
      forall r | 0 <= r < lcount - 1 ensures Holds(cells, r, u[r]) {
        JoinedLine(text, row, p + l[..room], r);
        if r < row - 1 {
          assert old(Holds(cells, r, text[r]));
        } else if r >= row {
          assert old(Holds(cells, r + 1, text[r + 1]));
        }
      }
      text := u;
      lcount := lcount - 1;
      row := row - 1;
      col := AtMost(plen + room, MAX_COL - 1);
      modified := true;
    }

    /** A newline typed splits the line at the cursor, unless the table is full. */
    method Newline()
      requires Valid()
      modifies this, cells
      ensures Valid() && Offset(old(text), old(row), old(col)) <= |Flat(old(text))|
      ensures var off := Offset(old(text), old(row), old(col));
              if old(lcount) >= MAX_LINES then text == old(text) && row == old(row) && col == old(col)
              else Flat(text) == Flat(old(text))[..off] + [NL] + Flat(old(text))[off..] && Offset(text, row, col) == off + 1 && modified
    {
      SplitRefines(text, row, col);
      hide Flat, Pre, Post;
      ghost var l := text[row];
      var len := LineLen(cells, row, l);
      if lcount >= MAX_LINES {
        return;
      }
      RowsDown(cells, row + 1, lcount);
      assert old(Holds(cells, row, text[row]));
      SplitRow(cells, row, col, len, l);
      ghost var u := text[..row] + [l[..col], l[col..]] + text[row + 1..];
      forall r | 0 <= r < lcount + 1 ensures Holds(cells, r, u[r]) {
        if r < row {
          assert old(Holds(cells, r, text[r]));
        } else if r > row + 1 {
          assert old(Holds(cells, r - 1, text[r - 1]));
        }
      }
      text := u;
      lcount := lcount + 1;
      row := row + 1;
      col := 0;
      modified := true;
    }

    /**
     * The cursor brought back and the window of w columns and h - 1 rows brought to the cursor. The column is cut to the
     * row of the table that the cursor named before (here): a cursor below the last line lands inside that line exactly
     * when its column, so cut, lies in it.
     */
    method ClampCursor(w: int, h: int, ghost here: seq<Byte>)
      requires w >= 1 && h >= 2 && Table() && Holds(cells, row, here) && (row < lcount ==> here == text[row])
      modifies this`col, this`row, this`scroll, this`scrollX
      ensures Table() && row == if old(row) < lcount then old(row) else lcount - 1
      ensures col == if old(col) > |here| then |here| else old(col)
      ensures scroll <= row < scroll + h - 1 && 0 <= scrollX <= col < scrollX + w
      ensures Valid() <==> col <= |text[row]|
      ensures old(row) < lcount ==> Valid()
    {
      assert |text| == lcount >= 1;
      var len := LineLen(cells, row, here);
      hide Holds, Table;
      if col > len {
        col := len;
      }
      row := AtMost(row, lcount - 1);
      ScrollTo(w, h);
    }

    /** The window moved as little as it takes to show the cursor. */
    method ScrollTo(w: int, h: int)
      requires w >= 1 && h >= 2
      modifies this`scroll, this`scrollX
      ensures scroll <= row < scroll + h - 1 && 0 <= scrollX <= col < scrollX + w
    {
      if scroll > row {
        scroll := row;
      }
      if row >= scroll + h - 1 {
        scroll := row - (h - 2);
      }
      if scrollX > col {
        scrollX := col;
      }
      if col >= scrollX + w {
        scrollX := col - w + 1;
      }
      if scrollX < 0 {
        scrollX := 0;
      }
    }
  }

  lemma SameLine(t: seq<seq<Byte>>, u: seq<seq<Byte>>, row: nat, r: nat)
    requires row < |t| && |u| == |t| && u[..row] == t[..row] && u[row + 1..] == t[row + 1..] && r < |t| && r != row
    ensures u[r] == t[r]
  {
    if r < row { assert u[r] == u[..row][r]; } else { assert u[r] == u[row + 1..][r - row - 1]; }
  }

  lemma JoinedLine(t: seq<seq<Byte>>, row: nat, l: seq<Byte>, r: nat)
    requires 0 < row < |t| && r < |t| - 1
    ensures Joined(t, row, l)[r] == if r < row - 1 then t[r] else if r == row - 1 then l else t[r + 1]
  {}

  /**
   * A merge deletes exactly the newline before the cursor if and only if both lines together fit one row; otherwise
   * the end of the lower line is lost.
   */
  lemma MergeKeepsAll(t: seq<seq<Byte>>, row: nat)
    requires 0 < row < |t| && |t[row - 1]| < MAX_COL && |t[row]| < MAX_COL
    ensures 0 < Offset(t, row, 0) <= |Flat(t)|
    ensures var p, l, off := t[row - 1], t[row], Offset(t, row, 0);
            var room := if |l| < MAX_COL - 1 - |p| then |l| else MAX_COL - 1 - |p|;
            (Flat(Joined(t, row, p + l[..room])) == Flat(t)[..off - 1] + Flat(t)[off..] <==> |p| + |l| <= MAX_COL - 1)
            && CursorIn(Joined(t, row, p + l[..room]), row - 1, |p| + room)
  {
    var p, l := t[row - 1], t[row];
    var room := if |l| < MAX_COL - 1 - |p| then |l| else MAX_COL - 1 - |p|;
    JoinRefines(t, row);
    if |p| + |l| <= MAX_COL - 1 {
      assert l[..room] == l;
    } else {
      JoinedLength(t, row, p + l);
      JoinedLength(t, row, p + l[..room]);
    }
  }

  lemma JoinedLength(t: seq<seq<Byte>>, row: nat, l: seq<Byte>)
    requires 0 < row < |t|
    ensures |Flat(Joined(t, row, l))| == |Pre(t[..row - 1])| + |l| + |Post(t[row + 1..])|
  {
    FlatParts(t[..row - 1], l, t[row + 1..]);
  }
}
