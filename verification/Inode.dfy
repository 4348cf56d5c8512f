/** The 128-byte on-disk inode (include/ext2.h) as a record, with its byte layout. */
module InodeCodec {
  import opened Bytes

  const INODE_BYTES: nat := 128

  /** Fields the kernel never interprets (times, flags, acls, osd) stay raw bytes. */
  datatype InodeRaw = Inode(
    mode: Word16, uid: Word16, size: Word32, times: seq<Byte>, dtime: Word32, gid: Word16,
    links: Word16, blocks: Word32, flags: seq<Byte>, block: seq<Word32>, tail: seq<Byte>)

  predicate WellSized(n: InodeRaw) {
    |n.times| == 12 && |n.flags| == 8 && |n.block| == 15 && |n.tail| == 28
  }

  type Inode = n: InodeRaw | WellSized(n)
    witness Inode(0, 0, 0, seq(12, _ => 0), 0, 0, 0, 0, seq(8, _ => 0), seq(15, _ => 0), seq(28, _ => 0))

  /** A block[] that maps nothing. */
  const NO_BLOCKS: seq<Word32> := [0, 0, 0, 0, 0, 0, 0, 0, 0, 0, 0, 0, 0, 0, 0]

  /** An inode after bzero. */
  const ZERO: Inode :=
    Inode(0, 0, 0, [0, 0, 0, 0, 0, 0, 0, 0, 0, 0, 0, 0], 0, 0, 0, 0, [0, 0, 0, 0, 0, 0, 0, 0], NO_BLOCKS,
          [0, 0, 0, 0, 0, 0, 0, 0, 0, 0, 0, 0, 0, 0, 0, 0, 0, 0, 0, 0, 0, 0, 0, 0, 0, 0, 0, 0])

  /** The S_ISDIR test: the top four bits of the mode. */
  predicate IsDir(n: Inode) {
    n.mode / 0x1000 == 4
  }

  function Encode(n: Inode): (r: seq<Byte>)
    ensures |r| == INODE_BYTES
  {
    Enc16(n.mode) + Enc16(n.uid) + Enc32(n.size) + n.times + Enc32(n.dtime) + Enc16(n.gid)
    + Enc16(n.links) + Enc32(n.blocks) + n.flags + FromPtrs(n.block) + n.tail
  }

  function Decode(b: seq<Byte>): Inode
    requires |b| == INODE_BYTES
  {
    Inode(Le16(b, 0), Le16(b, 2), Le32(b, 4), b[8..20], Le32(b, 20), Le16(b, 24),
          Le16(b, 26), Le32(b, 28), b[32..40], AsPtrs(b[40..100]), b[100..128])
  }

  /** The memcpy of an inode into its slot and back loses nothing. */
  lemma EncodeDecode(n: Inode)
    ensures Decode(Encode(n)) == n
  {
    var b := Encode(n);
    assert b[0..2] == Enc16(n.mode);
    assert b[2..4] == Enc16(n.uid);
    assert b[4..8] == Enc32(n.size);
    assert b[8..20] == n.times;
    assert b[20..24] == Enc32(n.dtime);
    assert b[24..26] == Enc16(n.gid);
    assert b[26..28] == Enc16(n.links);
    assert b[28..32] == Enc32(n.blocks);
    assert b[32..40] == n.flags;
    assert b[40..100] == FromPtrs(n.block);
    assert b[100..128] == n.tail;
    Le16At(b, 0, n.mode);
    Le16At(b, 2, n.uid);
    Le32At(b, 4, n.size);
    Le32At(b, 20, n.dtime);
    Le16At(b, 24, n.gid);
    Le16At(b, 26, n.links);
    Le32At(b, 28, n.blocks);
  }

  lemma Le16At(b: seq<Byte>, p: nat, x: Word16)
    requires p + 2 <= |b| && b[p..p + 2] == Enc16(x)
    ensures Le16(b, p) == x
  {
    assert b[p] == b[p..p + 2][0] && b[p + 1] == b[p..p + 2][1];
  }

  lemma Le32At(b: seq<Byte>, p: nat, x: Word32)
    requires p + 4 <= |b| && b[p..p + 4] == Enc32(x)
    ensures Le32(b, p) == x
  {
    var w := b[p..p + 4];
    assert b[p] == w[0] && b[p + 1] == w[1] && b[p + 2] == w[2] && b[p + 3] == w[3];
  }
}
