/** Lexical path normalisation (kernel/shell/commands.c) against path resolution (kernel/fs/vfs.c). */
module Paths {
  import opened Bytes

  const SLASH: Byte := 47

  /** char parts[32][48] in canonicalize. */
  const MAX_PARTS: nat := 32
  const PART_CHARS: nat := 47
  const MAX_PATH: nat := 256

  type Name = seq<Byte>

  // ---------------------------------------------------------------- components of a path

  /** Length of the slash-free run a path starts with. */
  function RunLength(p: seq<Byte>): (k: nat)
    ensures k <= |p| && (k < |p| ==> p[k] == SLASH) && forall i :: 0 <= i < k ==> p[i] != SLASH
  {
    if p == [] || p[0] == SLASH then 0 else 1 + RunLength(p[1..])
  }

  /** The components of a path: its maximal non-empty slash-free runs. */
  function Comps(p: seq<Byte>): seq<Name>
    decreases |p|
  {
    if p == [] then []
    else if p[0] == SLASH then Comps(p[1..])
    else [p[..RunLength(p)]] + Comps(p[RunLength(p)..])
  }

  /** What a component may be: not empty and free of slashes. */
  predicate IsComp(c: Name) {
    c != [] && SLASH !in c
  }

  lemma {:induction false} CompsAreComps(p: seq<Byte>)
    ensures forall i :: 0 <= i < |Comps(p)| ==> IsComp(Comps(p)[i])
    decreases |p|
  {
    if p != [] {
      if p[0] == SLASH { CompsAreComps(p[1..]); } else { CompsAreComps(p[RunLength(p)..]); }
    }
  }

  /** A path written from components. */
  function Render(parts: seq<Name>): seq<Byte> {
    if parts == [] then [SLASH] else Slashed(parts)
  }

  /** Each component behind a slash. */
  function Slashed(parts: seq<Name>): seq<Byte> {
    if parts == [] then [] else [SLASH] + parts[0] + Slashed(parts[1..])
  }

  lemma RunOf(c: Name, rest: seq<Byte>)
    requires IsComp(c) && (rest == [] || rest[0] == SLASH)
    ensures RunLength(c + rest) == |c|
  {
    var p := c + rest;
    assert forall i {:trigger p[i]} :: 0 <= i < |c| ==> p[i] == c[i] && c[i] in c;
    assert rest != [] ==> p[|c|] == SLASH;
  }

  /** A slash and a component in front of a path. */
  lemma CompsInFront(c: Name, rest: seq<Byte>)
    requires IsComp(c) && (rest == [] || rest[0] == SLASH)
    ensures Comps([SLASH] + c + rest) == [c] + Comps(rest)
  {
    var p := c + rest;
    RunOf(c, rest);
    assert ([SLASH] + c + rest)[1..] == p;
    assert p[..|c|] == c && p[|c|..] == rest && p[0] == c[0] && c[0] in c;
  }

  lemma SlashIsEmpty()
    ensures Comps([SLASH]) == [] && Comps([]) == []
  {
    assert [SLASH][1..] == [];
  }

  /** Reading back what was written yields the components. */
  lemma {:induction false} CompsOfSlashed(parts: seq<Name>)
    requires forall i :: 0 <= i < |parts| ==> IsComp(parts[i])
    ensures Comps(Slashed(parts)) == parts
  {
    if parts != [] {
      hide Comps;
      CompsOfSlashed(parts[1..]);
      CompsInFront(parts[0], Slashed(parts[1..]));
    } else {
      SlashIsEmpty();
    }
  }

  lemma CompsOfRender(parts: seq<Name>)
    requires forall i :: 0 <= i < |parts| ==> IsComp(parts[i])
    ensures Comps(Render(parts)) == parts
  {
    CompsOfSlashed(parts);
    SlashIsEmpty();
  }

  // ---------------------------------------------------------------- normalisation

  /** A component as it fits its buffer. */
  function Cut(c: Name): Name {
    if |c| > PART_CHARS then c[..PART_CHARS] else c
  }

  /** The stack of parts after one more component. */
  function Push(parts: seq<Name>, c: Name): seq<Name> {
    if c == DOT then parts
    else if c == DOTDOT then if parts == [] then [] else parts[..|parts| - 1]
    else if |parts| < MAX_PARTS then parts + [c]
    else parts
  }

  function Normal(parts: seq<Name>, comps: seq<Name>): seq<Name>
    decreases |comps|
  {
    if comps == [] then parts else Normal(Push(parts, Cut(comps[0])), comps[1..])
  }

  /** canonicalize: relative paths are left alone. */
  function Canonical(path: seq<Byte>): seq<Byte> {
    if path == [] || path[0] != SLASH then path else Render(Normal([], Comps(path)))
  }

  /** Parts are components, short enough, not dots, and not too many. */
  predicate Plain(c: Name) {
    IsComp(c) && |c| <= PART_CHARS && c != DOT && c != DOTDOT
  }

  predicate PlainParts(parts: seq<Name>) {
    |parts| <= MAX_PARTS && forall i :: 0 <= i < |parts| ==> Plain(parts[i])
  }

  lemma {:induction false} NormalIsPlain(parts: seq<Name>, comps: seq<Name>)
    requires PlainParts(parts) && forall i :: 0 <= i < |comps| ==> IsComp(comps[i])
    ensures PlainParts(Normal(parts, comps))
    decreases |comps|
  {
    if comps != [] {
      assert IsComp(Cut(comps[0]));
      NormalIsPlain(Push(parts, Cut(comps[0])), comps[1..]);
    }
  }

  /** Plain components are pushed one after the other. */
  lemma {:induction false} NormalOfPlain(parts: seq<Name>, more: seq<Name>)
    requires PlainParts(parts + more)
    ensures Normal(parts, more) == parts + more
    decreases |more|
  {
    if more != [] {
      assert (parts + more)[|parts|] == more[0];
      assert parts + [more[0]] + more[1..] == parts + more;
      NormalOfPlain(parts + [more[0]], more[1..]);
    } else {
      assert parts + more == parts;
    }
  }

  /** Normalising twice is normalising once, whatever the path. */
  lemma CanonicalIdempotent(path: seq<Byte>)
    ensures Canonical(Canonical(path)) == Canonical(path)
  {
    if path != [] && path[0] == SLASH {
      CompsAreComps(path);
      NormalIsPlain([], Comps(path));
      var parts := Normal([], Comps(path));
      CompsOfRender(parts);
      NormalOfPlain([], parts);
      assert [] + parts == parts;
    }
  }

  // ---------------------------------------------------------------- resolution

  datatype Option<T> = Some(value: T) | None

  /** The directories of a mounted tree with their entries, dot entries included; other nodes are files. */
  datatype Tree = Tree(root: nat, dirs: map<nat, map<Name, nat>>)

  /** vfs_lookup: nothing is found in a file. */
  function Find(t: Tree, node: nat, name: Name): Option<nat> {
    if node in t.dirs && name in t.dirs[node] then Some(t.dirs[node][name]) else None
  }

  /** Every directory's "." is itself and ".." its parent, the root's the root; no entry is nameless. */
  ghost predicate Right(t: Tree) {
    && t.root in t.dirs && Find(t, t.root, DOTDOT) == Some(t.root)
    && (forall d :: d in t.dirs ==> Find(t, d, DOT) == Some(d) && [] !in t.dirs[d])
    && (forall d, c, name :: d in t.dirs && name != DOT && name != DOTDOT && Find(t, d, name) == Some(c) && c in t.dirs ==>
          Find(t, c, DOTDOT) == Some(d))
  }

  /** The walk over components from a node. */
  function Walk(t: Tree, node: nat, comps: seq<Name>): Option<nat>
    decreases |comps|
  {
    if comps == [] then Some(node)
    else match Find(t, node, comps[0])
      case None => None
      case Some(n) => Walk(t, n, comps[1..])
  }

  /** vfs_open_node on a path whose components fit its buffers: "/" is the root, slashes alone name nothing. */
  function Open(t: Tree, path: seq<Byte>): Option<nat> {
    if path == [] then None
    else if path == [SLASH] then Some(t.root)
    else if Comps(path) == [] then Find(t, t.root, [])
    else Walk(t, t.root, Comps(path))
  }

  lemma {:induction false} WalkJoin(t: Tree, node: nat, a: seq<Name>, b: seq<Name>)
    ensures Walk(t, node, a + b) ==
      match Walk(t, node, a) case None => None case Some(n) => Walk(t, n, b)
    decreases |a|
  {
    if a == [] {
      assert a + b == b;
    } else {
      assert (a + b)[1..] == a[1..] + b && (a + b)[0] == a[0];
      match Find(t, node, a[0])
      case None =>
      case Some(n) => WalkJoin(t, n, a[1..], b);
    }
  }

  /** Nowhere along the way do more than MAX_PARTS names stand on the stack, and no name is cut. */
  predicate Fits(parts: seq<Name>, comps: seq<Name>)
    decreases |comps|
  {
    comps == [] ||
    (|comps[0]| <= PART_CHARS && (comps[0] != DOT && comps[0] != DOTDOT ==> |parts| < MAX_PARTS)
     && Fits(Push(parts, comps[0]), comps[1..]))
  }

  /** One component: pushing it on the stack follows the real step, also through the real "." and ".." entries. */
  lemma PushFollows(t: Tree, parts: seq<Name>, c: Name, node: nat, next: nat)
    requires Right(t) && PlainParts(parts) && Walk(t, t.root, parts) == Some(node) && Find(t, node, c) == Some(next)
    requires c != DOT && c != DOTDOT ==> |parts| < MAX_PARTS
    ensures Walk(t, t.root, Push(parts, c)) == Some(next)
  {
    if c == DOTDOT {
      if parts != [] {
        var k := |parts| - 1;
        assert parts == parts[..k] + [parts[k]];
        WalkJoin(t, t.root, parts[..k], [parts[k]]);
        var up := Walk(t, t.root, parts[..k]).value;
        assert Walk(t, up, [parts[k]]) == Find(t, up, parts[k]);
        assert Plain(parts[k]);
      }
    } else if c != DOT {
      WalkJoin(t, t.root, parts, [c]);
      assert Walk(t, node, [c]) == Find(t, node, c);
    }
  }

  lemma {:induction false} NormalFollows(t: Tree, parts: seq<Name>, comps: seq<Name>, node: nat, end: nat)
    requires Right(t) && PlainParts(parts) && Fits(parts, comps) && forall i :: 0 <= i < |comps| ==> IsComp(comps[i])
    requires Walk(t, t.root, parts) == Some(node) && Walk(t, node, comps) == Some(end)
    ensures Walk(t, t.root, Normal(parts, comps)) == Some(end)
    decreases |comps|
  {
    if comps != [] {
      var next := Find(t, node, comps[0]).value;
      PushFollows(t, parts, comps[0], node, next);
      assert IsComp(comps[0]);
      NormalFollows(t, Push(parts, comps[0]), comps[1..], next, end);
    }
  }

  /** Lexical normalisation preserves meaning: a path that resolves still resolves to the same node once normalised. */
  lemma CanonicalResolvesSame(t: Tree, path: seq<Byte>, node: nat)
    requires Right(t) && path != [] && path[0] == SLASH && Fits([], Comps(path)) && Open(t, path) == Some(node)
    ensures Open(t, Canonical(path)) == Some(node)
  {
    var comps := Comps(path);
    CompsAreComps(path);
    SlashIsEmpty();
    if comps != [] {
      NormalFollows(t, [], comps, t.root, node);
    }
    var parts := Normal([], comps);
    NormalIsPlain([], comps);
    CompsOfRender(parts);
    RootOnly(parts);
  }

  lemma RootOnly(parts: seq<Name>)
    requires forall i :: 0 <= i < |parts| ==> IsComp(parts[i])
    ensures Render(parts) != [] && (Render(parts) == [SLASH] <==> parts == [])
  {
    if parts != [] { assert |Render(parts)| >= 2; }
  }

  // ---------------------------------------------------------------- both limits matter

  /** A root directory with nothing but files in it: their dot-free names, and the nodes. */
  ghost predicate OnlyFiles(files: map<Name, nat>) {
    && DOT !in files && DOTDOT !in files && [] !in files && forall name :: name in files ==> files[name] != 0
  }

  /** Node 0 is the root. */
  function FlatTree(files: map<Name, nat>): Tree {
    Tree(0, map[0 := files[DOT := 0][DOTDOT := 0]])
  }

  lemma FlatIsRight(files: map<Name, nat>)
    requires OnlyFiles(files)
    ensures Right(FlatTree(files)) && forall name :: name in files ==> Find(FlatTree(files), 0, name) == Some(files[name])
  {
    assert DOT != DOTDOT;
  }

  lemma OneSlashed(c: Name)
    ensures Slashed([c]) == [SLASH] + c
  {
    var rest: seq<Name> := [c][1..];
    assert rest == [];
  }

  lemma OneNormal(c: Name)
    requires c != DOT && c != DOTDOT && Cut(c) != DOT && Cut(c) != DOTDOT
    ensures Normal([], [c]) == [Cut(c)]
  {
    var rest, none: seq<Name> := [c][1..], [];
    assert rest == [] && none + [Cut(c)] == [Cut(c)];
  }

  /** One character too many: the path opens one file as it is and another one normalised. */
  lemma LongNameIsCut(c: Name, file: nat, other: nat)
    requires IsComp(c) && |c| == PART_CHARS + 1 && file != 0 && other != 0
    ensures var t, path := FlatTree(map[c := file, c[..PART_CHARS] := other]), [SLASH] + c;
            Right(t) && Open(t, path) == Some(file) && Open(t, Canonical(path)) == Some(other)
  {
    var files, cut, path := map[c := file, c[..PART_CHARS] := other], c[..PART_CHARS], [SLASH] + c;
    assert |cut| != |c| && |cut| > 2;
    FlatIsRight(files);
    OneSlashed(c);
    OneSlashed(cut);
    CompsOfSlashed([c]);
    CompsOfSlashed([cut]);
    OneNormal(c);
    WalkOne(FlatTree(files), 0, c);
    WalkOne(FlatTree(files), 0, cut);
  }

  /** Directories 0 to n - 1, each the only other entry of the one before; n is a file in the last one. */
  function ChainTree(n: nat, c: Name): Tree {
    Tree(0, map d | d in Range(0, n) :: map[DOT := d, DOTDOT := if d == 0 then 0 else d - 1, c := d + 1])
  }

  function Repeated(c: Name, k: nat): seq<Name> {
    seq(k, _ => c)
  }

  lemma ChainIsRight(n: nat, c: Name)
    requires n > 0 && Plain(c)
    ensures Right(ChainTree(n, c)) && ChainTree(n, c).root == 0
    ensures forall d: nat :: d < n ==> Find(ChainTree(n, c), d, c) == Some(d + 1)
  {}

  lemma {:induction false} ChainWalk(n: nat, c: Name, d: nat, k: nat)
    requires n > 0 && Plain(c) && d + k <= n
    ensures Walk(ChainTree(n, c), d, Repeated(c, k)) == Some(d + k)
    decreases k
  {
    hide ChainTree;
    if k > 0 {
      ChainIsRight(n, c);
      assert Repeated(c, k)[1..] == Repeated(c, k - 1);
      ChainWalk(n, c, d + 1, k - 1);
    }
  }

  lemma {:induction false} RepeatedNormal(c: Name, k: nat, m: nat)
    requires Plain(c) && k <= MAX_PARTS
    ensures Normal(Repeated(c, k), Repeated(c, m)) == Repeated(c, if k + m < MAX_PARTS then k + m else MAX_PARTS)
    decreases m
  {
    if m > 0 {
      assert Repeated(c, m)[1..] == Repeated(c, m - 1);
      assert Repeated(c, k) + [c] == Repeated(c, k + 1);
      RepeatedNormal(c, if k < MAX_PARTS then k + 1 else k, m - 1);
    }
  }

  /** One name too many: the path opens the file at its end as it is, and the directory that file is in normalised. */
  lemma DeepNameIsDropped(c: Name)
    requires Plain(c)
    ensures var t, path := ChainTree(MAX_PARTS + 1, c), Slashed(Repeated(c, MAX_PARTS + 1));
            Right(t) && Open(t, path) == Some(MAX_PARTS + 1) && Open(t, Canonical(path)) == Some(MAX_PARTS)
  {
    hide Comps, Slashed, Walk, Normal, ChainTree;
    var n, all, kept := MAX_PARTS + 1, Repeated(c, MAX_PARTS + 1), Repeated(c, MAX_PARTS);
    ChainIsRight(n, c);
    ChainWalk(n, c, 0, n);
    ChainWalk(n, c, 0, MAX_PARTS);
    RepeatedNormal(c, 0, n);
    assert Repeated(c, 0) == [];
    CompsOfSlashed(all);
    CompsOfSlashed(kept);
    RootOnly(all);
    RootOnly(kept);
    SlashedStarts(all);
  }

  lemma SlashedStarts(parts: seq<Name>)
    requires parts != []
    ensures Slashed(parts) != [] && Slashed(parts)[0] == SLASH
  {}

  // ---------------------------------------------------------------- the loops of canonicalize

  /** Skipping a slash in front, or taking one run, is one step of reading components. */
  lemma CompsStep(p: seq<Byte>)
    requires p != []
    ensures var k := RunLength(p);
            var rest := if k < |p| then p[k + 1..] else [];
            Comps(p) == (if k == 0 then [] else [p[..k]]) + Comps(rest)
  {
    var k := RunLength(p);
    if k == 0 {
      assert [] + Comps(p[1..]) == Comps(p[1..]);
    } else if k < |p| {
      assert p[k..][1..] == p[k + 1..];
    } else {
      assert p[k..] == [];
    }
  }

  lemma CutStep(path: seq<Byte>, i: nat, j: nat)
    requires i <= j < |path| && path[j] != SLASH
    ensures var c := Cut(path[i..j]); Cut(path[i..j + 1]) == if |c| < PART_CHARS then c + [path[j]] else c
    ensures RunLength(path[j..]) == 1 + RunLength(path[j + 1..])
  {
    assert path[i..j + 1] == path[i..j] + [path[j]];
    assert path[j..][1..] == path[j + 1..];
  }

  /** The inner loop: the run that starts at i, cut to the buffer, and where it ends. */
  method TakePart(path: seq<Byte>, i: nat) returns (comp: Name, j: nat)
    requires i <= |path|
    ensures j == i + RunLength(path[i..]) && comp == Cut(path[i..j])
  {
    j, comp := i, [];
    while j < |path| && path[j] != SLASH
      invariant i <= j <= |path| && comp == Cut(path[i..j]) && RunLength(path[i..]) == j - i + RunLength(path[j..])
    {
      CutStep(path, i, j);
      hide *;
      if |comp| < PART_CHARS {
        comp := comp + [path[j]];
      }
      j := j + 1;
    }
  }

  /** The path written out, each part followed by a slash, the last slash trimmed. */
  method WriteOut(parts: seq<Name>) returns (out: seq<Byte>)
    requires parts != [] && forall k :: 0 <= k < |parts| ==> IsComp(parts[k])
    ensures out == Render(parts)
  {
    out := [SLASH];
    var i := 0;
    while i < |parts|
      invariant i <= |parts| && out == Slashed(parts[..i]) + [SLASH]
    {
      assert parts[..i + 1] == parts[..i] + [parts[i]];
      SlashedLast(parts[..i], parts[i]);
      assert Slashed(parts[..i]) + [SLASH] + parts[i] + [SLASH] == Slashed(parts[..i + 1]) + [SLASH];
      out := out + parts[i] + [SLASH];
      i := i + 1;
    }
    assert parts[..i] == parts;
    SlashedEnds(parts);
    var full := out;
    out := TrimRight(full, SLASH);
    Trimmed(Slashed(parts), out);
  }

  lemma SlashedEnds(parts: seq<Name>)
    requires parts != [] && forall k :: 0 <= k < |parts| ==> IsComp(parts[k])
    ensures var s := Slashed(parts); s != [] && s[|s| - 1] != SLASH
  {
    var k := |parts| - 1;
    assert parts == parts[..k] + [parts[k]];
    SlashedLast(parts[..k], parts[k]);
    var s, c := Slashed(parts), parts[k];
    assert s[|s| - 1] == c[|c| - 1];
  }

  lemma Trimmed(s: seq<Byte>, r: seq<Byte>)
    requires s != [] && s[|s| - 1] != SLASH && r <= s + [SLASH] && (r == [] || r[|r| - 1] != SLASH)
    requires forall k :: |r| <= k < |s| + 1 ==> (s + [SLASH])[k] == SLASH
    ensures r == s
  {
    var f := s + [SLASH];
    assert f[|s| - 1] == s[|s| - 1] && f[|s|] == SLASH;
    assert r == f[..|r|] && f[..|s|] == s;
    assert |r| == |f| ==> r == f;
  }

  /** One round: the run from i to j, cut, is pushed, and reading goes on behind the slash that ended it. */
  lemma PartStep(path: seq<Byte>, i: nat, j: nat, parts: seq<Name>)
    requires i < |path| && j == i + RunLength(path[i..])
    ensures j <= |path|
    ensures var next := if j < |path| then j + 1 else j;
            Normal(parts, Comps(path[i..])) ==
              Normal(if i == j then parts else Push(parts, Cut(path[i..j])), Comps(path[next..]))
    ensures i < j ==> IsComp(Cut(path[i..j]))
    ensures i == j <==> Cut(path[i..j]) == []
  {
    hide Push, Comps;
    var p, next := path[i..], if j < |path| then j + 1 else j;
    CompsStep(p);
    assert p[..j - i] == path[i..j];
    if j < |path| { assert p[j - i + 1..] == path[next..]; } else { assert path[next..] == []; }
    var rest := Comps(path[next..]);
    if i < j {
      assert ([path[i..j]] + rest)[1..] == rest;
    } else {
      assert [] + rest == rest;
    }
  }

  /** Pushing one part, in the bounds of the parts array. */
  method PushPart(parts: seq<Name>, comp: Name) returns (r: seq<Name>)
    requires |parts| <= MAX_PARTS
    ensures r == Push(parts, comp) && |r| <= MAX_PARTS
  {
    r := parts;
    if comp == DOT {
    } else if comp == DOTDOT {
      if |parts| > 0 {
        r := parts[..|parts| - 1];
      }
    } else if |parts| < MAX_PARTS {
      r := parts + [comp];
    }
  }

  lemma PushKeepsComps(parts: seq<Name>, c: Name)
    requires IsComp(c) && forall k :: 0 <= k < |parts| ==> IsComp(parts[k])
    ensures forall k :: 0 <= k < |Push(parts, c)| ==> IsComp(Push(parts, c)[k])
  {}

  /** canonicalize, in place in the original; a path of at most 254 characters fits its buffers. */
  method Canonicalize(path: seq<Byte>) returns (r: seq<Byte>)
    requires |path| <= 254
    ensures r == Canonical(path) && |r| < MAX_PATH
  {
    if |path| == 0 || path[0] != SLASH {
      return path;
    }
    hide Normal, Push, Slashed, IsComp;
    var parts: seq<Name>, i := [], 1;
    FirstSlash(path);
    ghost var all := Comps(path);
    while i < |path|
      invariant 1 <= i <= |path| && |parts| <= MAX_PARTS
      invariant Normal([], all) == Normal(parts, Comps(path[i..]))
      invariant |Slashed(parts)| <= i && (i < |path| ==> |Slashed(parts)| < i)
      invariant forall k :: 0 <= k < |parts| ==> IsComp(parts[k])
    {
      hide Comps;
      var comp, j := TakePart(path, i);
      PartStep(path, i, j, parts);
      if |comp| != 0 {
        SlashedPush(parts, comp);
        PushKeepsComps(parts, comp);
        parts := PushPart(parts, comp);
      }
      i := if j < |path| then j + 1 else j;
    }
    NormalEnds(parts, path, i);
    if |parts| == 0 {
      return [SLASH];
    }
    r := WriteOut(parts);
  }

  lemma FirstSlash(path: seq<Byte>)
    requires path != [] && path[0] == SLASH
    ensures Comps(path) == Comps(path[1..]) && |Slashed([])| == 0
  {}

  lemma NormalEnds(parts: seq<Name>, path: seq<Byte>, i: nat)
    requires i == |path|
    ensures Normal(parts, Comps(path[i..])) == parts
  {
    assert path[i..] == [];
  }

  /** What pushing does to the length of the path written so far. */
  lemma SlashedPush(parts: seq<Name>, c: Name)
    ensures |Slashed(Push(parts, c))| <= |Slashed(parts)| + 1 + |c|
  {
    if c == DOTDOT && parts != [] {
      var k := |parts| - 1;
      assert parts == parts[..k] + [parts[k]];
      SlashedLast(parts[..k], parts[k]);
    } else {
      SlashedLast(parts, c);
    }
  }

  lemma {:induction false} SlashedLast(parts: seq<Name>, c: Name)
    ensures Slashed(parts + [c]) == Slashed(parts) + [SLASH] + c
  {
    if parts == [] {
      assert (parts + [c])[1..] == [];
      assert [SLASH] + c + [] == [SLASH] + c;
    } else {
      assert (parts + [c])[1..] == parts[1..] + [c];
      SlashedLast(parts[1..], c);
      assert [SLASH] + parts[0] + (Slashed(parts[1..]) + [SLASH] + c) == ([SLASH] + parts[0] + Slashed(parts[1..])) + [SLASH] + c;
    }
  }

  /** strtrim_right */
  method TrimRight(s: seq<Byte>, c: Byte) returns (r: seq<Byte>)
    ensures r <= s && (r == [] || r[|r| - 1] != c) && forall k :: |r| <= k < |s| ==> s[k] == c
  {
    var len := |s|;
    while len > 0 && s[len - 1] == c
      invariant 0 <= len <= |s| && forall k :: len <= k < |s| ==> s[k] == c
    {
      len := len - 1;
    }
    return s[..len];
  }

  // ---------------------------------------------------------------- the loops of vfs.c

  /** char component[64] */
  const NODE_CHARS: nat := 63

  /** char is signed: bytes from 0x80 on compare below 0x20. */
  predicate IsText(b: Byte) {
    0x20 <= b < 0x80
  }

  predicate Printable(p: seq<Byte>) {
    forall i :: 0 <= i < |p| ==> IsText(p[i])
  }

  method SkipSlashes(path: seq<Byte>, i: nat) returns (j: nat)
    requires i <= |path|
    ensures i <= j <= |path| && Comps(path[i..]) == Comps(path[j..]) && (j < |path| ==> path[j] != SLASH)
  {
    j := i;
    while j < |path| && path[j] == SLASH
      invariant i <= j <= |path| && Comps(path[i..]) == Comps(path[j..])
    {
      assert path[j..][1..] == path[j + 1..];
      j := j + 1;
    }
  }

  /** vfs_next_component from the start of a component that fits the buffer: the component, and where the next one is. */
  method NextComponent(path: seq<Byte>, i: nat) returns (comp: Name, j: nat)
    requires i < |path| && path[i] != SLASH && Printable(path) && RunLength(path[i..]) <= NODE_CHARS
    ensures i < j <= |path| && Comps(path[i..]) == [comp] + Comps(path[j..]) && IsComp(comp)
    ensures j < |path| ==> path[j] != SLASH
  {
    j, comp := i, [];
    ghost var k := RunLength(path[i..]);
    while j < |path| && path[j] != SLASH && IsText(path[j]) && |comp| < NODE_CHARS
      invariant i <= j <= i + k && comp == path[i..j] && SLASH !in comp
      invariant k == j - i + RunLength(path[j..])
    {
      assert path[i..j + 1] == path[i..j] + [path[j]];
      assert path[j..][1..] == path[j + 1..];
      comp := comp + [path[j]];
      j := j + 1;
    }
    assert j == i + k by { RunEnds(path, i, j); }
    assert path[i..][..k] == comp && path[i..][k..] == path[j..];
    j := SkipSlashes(path, j);
  }

  lemma RunEnds(path: seq<Byte>, i: nat, j: nat)
    requires i < |path| && i <= j <= i + RunLength(path[i..]) <= |path| && Printable(path)
    requires RunLength(path[i..]) == j - i + RunLength(path[j..])
    requires j == |path| || path[j] == SLASH || !IsText(path[j]) || j - i >= RunLength(path[i..])
    ensures j == i + RunLength(path[i..])
  {}

  /** All components fit the buffer of vfs_next_component. */
  predicate ShortComps(comps: seq<Name>) {
    forall i :: 0 <= i < |comps| ==> |comps[i]| <= NODE_CHARS
  }

  /** One component further along the walk. */
  lemma WalkStep(t: Tree, comps: seq<Name>, k: nat)
    requires k < |comps|
    ensures Walk(t, t.root, comps[..k + 1]) ==
              match Walk(t, t.root, comps[..k]) case None => None case Some(n) => Find(t, n, comps[k])
  {
    assert comps[..k + 1] == comps[..k] + [comps[k]];
    WalkJoin(t, t.root, comps[..k], [comps[k]]);
    match Walk(t, t.root, comps[..k])
    case None =>
    case Some(n) => WalkOne(t, n, comps[k]);
  }

  lemma WalkOne(t: Tree, n: nat, c: Name)
    ensures Walk(t, n, [c]) == Find(t, n, c)
  {
    assert [c][1..] == [];
  }

  lemma WalkBlocked(t: Tree, comps: seq<Name>, k: nat)
    requires k <= |comps| && comps[k..] != [] && Walk(t, t.root, comps[..k]) == None
    ensures Walk(t, t.root, comps[..|comps| - 1]) == None
  {
    var m := |comps| - 1;
    assert comps[..m] == comps[..k] + comps[k..m];
    WalkJoin(t, t.root, comps[..k], comps[k..m]);
  }

  /** What taking one component off the path does to the list of components. */
  lemma TakeOne(comps: seq<Name>, k: nat, comp: Name, rest: seq<Name>)
    requires k <= |comps| && comps[k..] == [comp] + rest
    ensures k < |comps| && comps[k] == comp && comps[k + 1..] == rest
  {
    assert comps[k..][0] == comp && comps[k..][1..] == rest;
    assert comps[k..][1..] == comps[k + 1..];
  }

  lemma StartsComp(path: seq<Byte>, p: nat)
    requires p < |path| && path[p] != SLASH
    ensures Comps(path[p..]) != [] && |Comps(path[p..])[0]| == RunLength(path[p..])
  {}

  lemma PathEnds(path: seq<Byte>, p: nat)
    requires p == |path|
    ensures Comps(path[p..]) == []
  {
    assert path[p..] == [];
  }

  /** k components of the path are walked: node is where they lead, and position p starts the next one. */
  ghost predicate Arrived(t: Tree, path: seq<Byte>, p: nat, k: nat, node: nat) {
    && p < |path| && path[p] != SLASH && k <= |Comps(path)| && Comps(path)[k..] == Comps(path[p..])
    && Walk(t, t.root, Comps(path)[..k]) == Some(node)
  }

  lemma ArrivedFirst(t: Tree, path: seq<Byte>, p: nat)
    requires p < |path| && path[p] != SLASH && Comps(path) == Comps(path[p..])
    ensures Arrived(t, path, p, 0, t.root)
  {
    assert Comps(path)[0..] == Comps(path) && Comps(path)[..0] == [];
  }

  /** The next component fits the buffer. */
  lemma RunFits(t: Tree, path: seq<Byte>, p: nat, k: nat, node: nat)
    requires Arrived(t, path, p, k, node) && ShortComps(Comps(path))
    ensures p < |path| && path[p] != SLASH && RunLength(path[p..]) <= NODE_CHARS
  {
    StartsComp(path, p);
    hide Comps, RunLength;
    assert Comps(path)[k..][0] == Comps(path)[k];
  }

  /** A component is taken off the path: either it was the leaf, or the walk goes on from it. */
  lemma OneTaken(t: Tree, path: seq<Byte>, p: nat, k: nat, node: nat, comp: Name, next: nat)
    requires next <= |path| && (next < |path| ==> path[next] != SLASH)
    requires Arrived(t, path, p, k, node) && Comps(path[p..]) == [comp] + Comps(path[next..])
    ensures Comps(path) != []
    ensures var comps, found := Comps(path), Find(t, node, comp);
            if next == |path| then Walk(t, t.root, comps[..|comps| - 1]) == Some(node) && comps[|comps| - 1] == comp
            else if found.None? then Walk(t, t.root, comps[..|comps| - 1]) == None
            else Arrived(t, path, next, k + 1, found.value)
  {
    hide Comps, Walk, Find, RunLength;
    var comps := Comps(path);
    TakeOne(comps, k, comp, Comps(path[next..]));
    WalkStep(t, comps, k);
    if next == |path| {
      PathEnds(path, next);
      LastTaken(comps, k);
    } else {
      StartsComp(path, next);
      if Find(t, node, comp).None? { WalkBlocked(t, comps, k + 1); }
    }
  }

  lemma LastTaken(comps: seq<Name>, k: nat)
    requires k < |comps| && comps[k + 1..] == []
    ensures k == |comps| - 1
  {
    assert |comps[k + 1..]| == |comps| - (k + 1);
  }

  /** vfs_find_parent: the node the leaf is looked up in, and the leaf; an all-slash path has the empty leaf. */
  method FindParent(t: Tree, path: seq<Byte>) returns (parent: Option<nat>, leaf: Name)
    requires Printable(path) && ShortComps(Comps(path))
    ensures var comps := Comps(path);
            if comps == [] then parent == Some(t.root) && leaf == []
            else parent == Walk(t, t.root, comps[..|comps| - 1]) && (parent.Some? ==> leaf == comps[|comps| - 1])
  {
    var p := SkipSlashes(path, 0);
    assert path[0..] == path;
    var node := t.root;
    if p == |path| {
      PathEnds(path, p);
      return Some(node), [];
    }
    ghost var k := 0;
    ArrivedFirst(t, path, p);
    hide *;
    while true
      invariant Arrived(t, path, p, k, node)
      decreases |path| - p
    {
      RunFits(t, path, p, k, node);
      var comp, next := NextComponent(path, p);
      OneTaken(t, path, p, k, node, comp, next);
      if next == |path| {
        return Some(node), comp;
      }
      var found := Find(t, node, comp);
      if found.None? {
        return None, comp;
      }
      node, p, k := found.value, next, k + 1;
    }
  }

  /** vfs_open_node */
  method OpenNode(t: Tree, path: seq<Byte>) returns (r: Option<nat>)
    requires Printable(path) && ShortComps(Comps(path))
    ensures r == Open(t, path)
  {
    hide Walk, Comps, Find;
    if |path| == 0 {
      return None;
    }
    if |path| == 1 && path[0] == SLASH {
      return Some(t.root);
    }
    var parent, leaf := FindParent(t, path);
    ghost var comps := Comps(path);
    if comps != [] {
      WalkStep(t, comps, |comps| - 1);
      assert comps[..|comps| - 1 + 1] == comps;
    }
    if parent.None? {
      return None;
    }
    return Find(t, parent.value, leaf);
  }

  // ---------------------------------------------------------------- opening a normalised path

  predicate AllPrintable(parts: seq<Name>) {
    forall i :: 0 <= i < |parts| ==> Printable(parts[i])
  }

  lemma {:induction false} CompsPrintable(p: seq<Byte>)
    requires Printable(p)
    ensures AllPrintable(Comps(p))
    decreases |p|
  {
    if p != [] {
      if p[0] == SLASH { CompsPrintable(p[1..]); } else { CompsPrintable(p[RunLength(p)..]); }
    }
  }

  lemma {:induction false} NormalPrintable(parts: seq<Name>, comps: seq<Name>)
    requires AllPrintable(parts) && AllPrintable(comps)
    ensures AllPrintable(Normal(parts, comps))
    decreases |comps|
  {
    if comps != [] {
      assert Printable(Cut(comps[0]));
      NormalPrintable(Push(parts, Cut(comps[0])), comps[1..]);
    }
  }

  lemma {:induction false} SlashedPrintable(parts: seq<Name>)
    requires AllPrintable(parts)
    ensures Printable(Slashed(parts))
  {
    if parts != [] {
      SlashedPrintable(parts[1..]);
      assert Printable(parts[0]);
    }
  }

  /** A normalised path can be opened: it stays printable, and its components fit the buffer of the walk. */
  lemma CanonicalIsOpenable(path: seq<Byte>)
    requires Printable(path) && path != [] && path[0] == SLASH
    ensures Printable(Canonical(path)) && ShortComps(Comps(Canonical(path)))
  {
    CompsAreComps(path);
    CompsPrintable(path);
    var parts := Normal([], Comps(path));
    NormalIsPlain([], Comps(path));
    NormalPrintable([], Comps(path));
    SlashedPrintable(parts);
    CompsOfRender(parts);
    assert forall i :: 0 <= i < |parts| ==> Plain(parts[i]);
  }

  /** A path that normalisation neither cuts nor overflows can be opened as it is. */
  lemma {:induction false} FitsIsShort(parts: seq<Name>, comps: seq<Name>)
    requires Fits(parts, comps)
    ensures ShortComps(comps)
    decreases |comps|
  {
    if comps != [] {
      FitsIsShort(Push(parts, comps[0]), comps[1..]);
      assert comps == [comps[0]] + comps[1..];
    }
  }

  /** What the shell commands do with an absolute path (vfs_cmd_resolve, then vfs_open_node): it is opened normalised. */
  method OpenResolved(t: Tree, path: seq<Byte>) returns (r: Option<nat>)
    requires |path| <= 254 && Printable(path) && path != [] && path[0] == SLASH
    ensures r == Open(t, Canonical(path))
    ensures Right(t) && Fits([], Comps(path)) && Open(t, path).Some? ==> r == Open(t, path)
  {
    CanonicalIsOpenable(path);
    var out := Canonicalize(path);
    r := OpenNode(t, out);
    if Right(t) && Fits([], Comps(path)) && Open(t, path).Some? {
      CanonicalResolvesSame(t, path, Open(t, path).value);
    }
  }

  /** The theorem about the two methods: whatever opening the path gives, opening it resolved gives too. */
  method OpenEitherWay(t: Tree, path: seq<Byte>) returns (direct: Option<nat>, resolved: Option<nat>)
    requires |path| <= 254 && Printable(path) && path != [] && path[0] == SLASH && Right(t) && Fits([], Comps(path))
    ensures direct.Some? ==> resolved == direct
  {
    FitsIsShort([], Comps(path));
    direct := OpenNode(t, path);
    resolved := OpenResolved(t, path);
  }
}
