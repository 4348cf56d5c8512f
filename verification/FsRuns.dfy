/** Runs of the file system: every operation, successful or failing, keeps the ownership invariant. */
module FsRuns {
  import opened Bytes
  import opened InodeCodec
  import opened VolumeState
  import opened BlockMap
  import opened FileData
  import opened FileTheorems
  import opened Shrink
  import opened DirRecords
  import opened DirData
  import opened DirOps
  import opened DirRemoval
  import opened FsOps
  import opened FsSteps

  lemma WriteSound(v: Vol, ino: nat, offset: nat, buf: seq<Byte>)
    requires Sound(v) && Live(v, ino) && !IsDir(GetInode(v, ino)) && offset + |buf| < 0x1_0000_0000
    ensures Sound(NodeWrite(v, ino, offset, buf).v)
  {
    hide Owned, Untouched, DirSound, NodeWrite;
    SoundOwned(v);
    NodeWriteOwned(v, ino, offset, buf);
    WriteFrame(v, ino, offset, buf);
    SoundBeside(v, NodeWrite(v, ino, offset, buf).v, ino);
  }

  /** A change to one inode that is no directory leaves every directory as it was. */
  lemma SoundBeside(v: Vol, w: Vol, ino: nat)
    requires Sound(v) && Live(v, ino) && Owned(w) && Untouched(v, w, ino)
    requires |w.inodes| == |v.inodes| && w.inodes == v.inodes[ino - 1 := GetInode(w, ino)] && !IsDir(GetInode(w, ino))
    ensures Sound(w)
  {
    hide Owned, DirSound;
    SoundSizes(v);
    forall i | Live(w, i) && IsDir(GetInode(w, i)) ensures DirSound(w, GetInode(w, i)) {
      SoundElsewhere(v, w, ino, i);
    }
  }

  lemma TruncateSound(v: Vol, ino: nat, size: Word32)
    requires Sound(v) && Live(v, ino) && !IsDir(GetInode(v, ino)) && size + v.geo.blockSize < 0x1_0000_0000
    requires ino !in v.geo.reserved
    ensures Sound(Truncate(v, ino, size).v)
  {
    hide Owned, Untouched, DirSound, Truncate, CutMap, CutCount, Dropped;
    SoundOwned(v);
    TruncateOwned(v, ino, size);
    TruncateFrame(v, ino, size);
    SoundBeside(v, Truncate(v, ino, size).v, ino);
  }

  lemma TruncateFrame(v: Vol, ino: nat, size: Word32)
    requires Owned(v) && Live(v, ino) && size + v.geo.blockSize < 0x1_0000_0000
    ensures var w, n := Truncate(v, ino, size).v, GetInode(v, ino);
            Untouched(v, w, ino) && w.inodes == v.inodes[ino - 1 := GetInode(w, ino)] && GetInode(w, ino).mode == n.mode
  {
    var n, nb, r := GetInode(v, ino), BlocksFor(v, size), Truncate(v, ino, size);
    SelfPut(v, ino);
    if size >= n.size {
      UntouchedSelf(v, ino);
      UntouchedSize(v, v, ino, n, n.(size := size));
    } else {
      TruncateParts(v, ino, size);
      if r.ok { CutUntouched(v, ino, nb, r.v); } else { UntouchedSelf(v, ino); ReleaseUntouched(v, UpperTables(n), ino); }
    }
  }

  lemma RenameSound(v: Vol, op: nat, oldName: seq<Byte>, np: nat, newName: seq<Byte>)
    requires Parent(v, op) && Parent(v, np) && Nameable(newName) && NamesInode(v, op, oldName)
    ensures Sound(Rename(v, op, oldName, np, newName).v)
  {
    hide Sound, AddEntry, RemoveEntry, LookIn, Entries, Relink;
    SoundReady(v, op);
    SoundReady(v, np);
    match DirLookup(v, op, oldName)
    case Absent =>
    case Present(rec) =>
      if newName != DOT && newName != DOTDOT && !(op == np && oldName == newName) && DirLookup(v, np, newName) == Absent {
        InodeIsWord(v, rec.ino);
        AddSound(v, np, newName, rec.ino, rec.kind);
        var a := AddEntry(v, np, newName, rec.ino, rec.kind);
        RemoveSound(a.v, op, oldName);
        var r := RemoveEntry(a.v, op, oldName);
        if a.ok && r.ok && rec.kind == KIND_DIR && op != np { RelinkSound(r.v, op, np, rec.ino); }
      }
  }

  // ---------------------------------------------------------------- runs

  datatype Op =
    | OpCreateFile(parent: nat, name: seq<Byte>)
    | OpCreateDir(parent: nat, name: seq<Byte>)
    | OpWrite(ino: nat, offset: nat, buf: seq<Byte>)
    | OpTruncate(ino: nat, size: Word32)
    | OpRemoveFile(parent: nat, name: seq<Byte>)
    | OpRemoveDir(parent: nat, name: seq<Byte>)
    | OpRename(parent: nat, name: seq<Byte>, newParent: nat, newName: seq<Byte>)

  /** A call on live inodes with a usable name and in range: what a caller can see to before the call. */
  ghost predicate Callable(v: Vol, op: Op)
    requires v.geo.Sizes()
  {
    match op
    case OpCreateFile(p, name) => Parent(v, p) && Nameable(name)
    case OpCreateDir(p, name) => Parent(v, p) && Nameable(name)
    case OpWrite(ino, offset, buf) => Live(v, ino) && !IsDir(GetInode(v, ino)) && offset + |buf| < 0x1_0000_0000
    case OpTruncate(ino, size) =>
      Live(v, ino) && ino !in v.geo.reserved && !IsDir(GetInode(v, ino)) && size + v.geo.blockSize < 0x1_0000_0000
    case OpRemoveFile(p, name) => Live(v, p)
    case OpRemoveDir(p, name) => Live(v, p)
    case OpRename(p, name, np, newName) => Parent(v, p) && Parent(v, np) && Nameable(newName)
  }

  /** The entry a removal or a rename acts on, if there is one, stands for a live inode of its kind. */
  ghost predicate NamesKnown(v: Vol, op: Op)
    requires v.geo.Sizes()
  {
    match op
    case OpRemoveFile(p, name) => NamesLive(v, p, name)
    case OpRemoveDir(p, name) => NamesLive(v, p, name)
    case OpRename(p, name, np, newName) => NamesInode(v, p, name)
    case _ => true
  }

  ghost predicate Enabled(v: Vol, op: Op)
    requires Sound(v)
  {
    Callable(v, op) && NamesKnown(v, op)
  }

  /** The volume after a call, whether it succeeded or failed. */
  ghost function Step(v: Vol, op: Op): Vol
    requires Sound(v) && Enabled(v, op)
  {
    match op
    case OpCreateFile(p, name) => CreateFile(v, p, name).v
    case OpCreateDir(p, name) => CreateDir(v, p, name).v
    case OpWrite(ino, offset, buf) => NodeWrite(v, ino, offset, buf).v
    case OpTruncate(ino, size) => Truncate(v, ino, size).v
    case OpRemoveFile(p, name) => SoundReady(v, p); RemoveFile(v, p, name).v
    case OpRemoveDir(p, name) => SoundReady(v, p); RemoveDir(v, p, name).v
    case OpRename(p, name, np, newName) => Rename(v, p, name, np, newName).v
  }

  lemma StepSound(v: Vol, op: Op)
    requires Sound(v) && Enabled(v, op)
    ensures Sound(Step(v, op))
  {
    hide Sound, Parent, CreateFile, CreateDir, NodeWrite, Truncate, RemoveFile, RemoveDir, Rename, NamesLive, NamesInode;
    match op
    case OpCreateFile(p, name) => CreateFileSound(v, p, name);
    case OpCreateDir(p, name) => CreateDirSound(v, p, name);
    case OpWrite(ino, offset, buf) => WriteSound(v, ino, offset, buf);
    case OpTruncate(ino, size) => TruncateSound(v, ino, size);
    case OpRemoveFile(p, name) => RemoveFileSound(v, p, name);
    case OpRemoveDir(p, name) => RemoveDirSound(v, p, name);
    case OpRename(p, name, np, newName) => RenameSound(v, p, name, np, newName);
  }

  /** A possible history: the volume before each call and the calls made, every one enabled where it is made. */
  ghost predicate Run(vs: seq<Vol>, ops: seq<Op>) {
    && |vs| == |ops| + 1 && Sound(vs[0])
    && forall i :: 0 <= i < |ops| ==> Steps(vs[i], ops[i], vs[i + 1])
  }

  /** One call. Only sound volumes have a next state, and RunSound shows that a run meets no other. */
  ghost predicate Steps(v: Vol, op: Op, w: Vol) {
    Sound(v) ==> Enabled(v, op) && w == Step(v, op)
  }

  // ---------------------------------------------------------------- where runs start

  /** A volume with an empty root directory and nothing else: the other live inodes are reserved ones without blocks. */
  ghost predicate Fresh(v: Vol, root: nat, b: nat) {
    && Shape(v) && Live(v, root) && v.geo.IsData(b) && b in v.used && b < 0x1_0000_0000
    && GetInode(v, root) == NewDir(v, b) && v.data[b] == FirstBlock(v.geo.blockSize, root, root)
    && forall i :: Live(v, i) && i != root ==> !IsDir(GetInode(v, i)) && GetInode(v, i).block == NO_BLOCKS
  }

  lemma FreshSound(v: Vol, root: nat, b: nat)
    requires Fresh(v, root, b)
    ensures Sound(v)
  {
    var n := GetInode(v, root);
    DataInMap(v.geo, b);
    FirstBlockSound(v.geo.blockSize, root, root);
    hide FirstBlock, Tiled, DotsAt, Listing;
    forall i, loc | Live(v, i) ensures P(v, i, loc) == if i == root && loc == Direct(0) then b else 0 {
      EmptyPtr(v, GetInode(v, i), loc);
    }
    forall l: nat ensures Lookup(v, n, l) == if l == 0 then b else 0 { OneBlock(v, n, l); }
  }

  lemma EmptyPtr(v: Vol, n: Inode, loc: Loc)
    requires n.block == NO_BLOCKS[0 := n.block[0]]
    ensures Ptr(v, n, loc) == if loc == Direct(0) then n.block[0] else 0
  {}

  /**
   * Whole-run ownership: in every state of every run, what live inodes reach is in use and is no metadata,
   * and no block is reached from two places.
   */
  lemma {:induction false} RunOwned(vs: seq<Vol>, ops: seq<Op>, k: nat)
    requires Run(vs, ops) && k <= |ops|
    ensures Sound(vs[k])
    ensures forall i, loc :: Live(vs[k], i) && P(vs[k], i, loc) != 0 ==>
              P(vs[k], i, loc) in vs[k].used && vs[k].geo.IsData(P(vs[k], i, loc))
    ensures forall i, j, a, b ::
              Live(vs[k], i) && Live(vs[k], j) && P(vs[k], i, a) != 0 && P(vs[k], i, a) == P(vs[k], j, b) ==> i == j && a == b
  {
    RunSound(vs, ops, k);
    hide DirSound, Shape;
  }

  lemma {:induction false} RunSound(vs: seq<Vol>, ops: seq<Op>, k: nat)
    requires Run(vs, ops) && k <= |ops|
    ensures Sound(vs[k])
  {
    hide Sound, Enabled, Step;
    if k > 0 {
      RunSound(vs, ops, k - 1);
      assert Steps(vs[k - 1], ops[k - 1], vs[k]);
      StepSound(vs[k - 1], ops[k - 1]);
    }
  }
}
