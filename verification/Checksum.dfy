/** One's-complement checksums (section 1 of RFC 1071) as kernel/net/network.c computes and stores them. */
module Checksum {
  import opened Bytes

  /** Sum of the big-endian 16-bit words; a last odd byte is the high half of a word. */
  function WordSum(d: seq<Byte>): (r: nat)
    ensures r <= 65535 * ((|d| + 1) / 2)
    decreases |d|
  {
    if |d| == 0 then 0
    else if |d| == 1 then 256 * d[0] as nat
    else 256 * d[0] as nat + d[1] as nat + WordSum(d[2..])
  }

  /** One end-around carry. */
  function Carry(sum: nat): nat {
    sum % 0x1_0000 + sum / 0x1_0000
  }

  /** The sum with all carries added back in. */
  function Folded(sum: nat): (r: nat)
    ensures r < 0x1_0000
    decreases sum
  {
    if sum < 0x1_0000 then sum else Folded(Carry(sum))
  }

  /** Folding keeps the sum modulo 65535, and gives 0 for 0 only. */
  lemma {:induction false} FoldedIsModulo(sum: nat)
    ensures Folded(sum) % 65535 == sum % 65535
    ensures Folded(sum) == 0 <==> sum == 0
    decreases sum
  {
    if sum >= 0x1_0000 {
      FoldedIsModulo(Carry(sum));
      CarryIsModulo(sum);
    }
  }

  lemma CarryIsModulo(sum: nat)
    ensures Carry(sum) % 65535 == sum % 65535
  {
    assert sum == Carry(sum) + 65535 * (sum / 0x1_0000);
  }

  /** The loop that folds, in 32 bits; it ends because every carry makes the sum smaller. */
  method OnesComplement(s: Word32) returns (c: Word16)
    ensures c == 0xFFFF - Folded(s)
  {
    var sum := s;
    while sum / 0x1_0000 != 0
      invariant Folded(sum) == Folded(s)
      decreases sum
    {
      sum := sum % 0x1_0000 + sum / 0x1_0000;
    }
    c := 0xFFFF - sum;
  }

  /** What a checksum over d comes out as. */
  function ChecksumOf(sum: nat): Word16 {
    0xFFFF - Folded(sum)
  }

  /** ip_checksum; below 2^17 bytes the 32-bit sum does not overflow. */
  method IpChecksum(data: seq<Byte>) returns (c: Word16)
    requires |data| < 0x2_0000
    ensures c == ChecksumOf(WordSum(data))
  {
    var sum: Word32, rest := 0, data;
    while |rest| > 1
      invariant |rest| <= |data| && sum + WordSum(rest) == WordSum(data)
      decreases |rest|
    {
      SumFits(data);
      sum := sum + (rest[0] as int * 256 + rest[1] as int);
      rest := rest[2..];
    }
    SumFits(data);
    if |rest| != 0 {
      sum := sum + rest[0] as int * 256;
    }
    c := OnesComplement(sum);
  }

  lemma SumFits(d: seq<Byte>)
    requires |d| < 0x2_0000
    ensures WordSum(d) < 0x1_0000_0000
  {}

  // ---------------------------------------------------------------- storing a checksum makes the data check out

  function BigEndian(x: Word16): seq<Byte> {
    [x / 256, x % 256]
  }

  /** A 16-bit field at an even offset adds its value to the sum. */
  lemma {:induction false} StoredAdds(d: seq<Byte>, p: nat, x: Word16)
    requires p % 2 == 0 && p + 2 <= |d| && d[p] == 0 && d[p + 1] == 0
    ensures WordSum(Patch(d, p, BigEndian(x))) == WordSum(d) + x
    decreases p
  {
    var e := Patch(d, p, BigEndian(x));
    if p == 0 {
      assert e[2..] == d[2..];
    } else {
      assert e[2..] == Patch(d[2..], p - 2, BigEndian(x));
      StoredAdds(d[2..], p - 2, x);
    }
  }

  /** A sum completed by its own checksum folds to all ones. */
  lemma CompletedFolds(sum: nat)
    ensures ChecksumOf(sum + ChecksumOf(sum)) == 0
  {
    var f := Folded(sum);
    FoldedIsModulo(sum);
    FoldedIsModulo(sum + (0xFFFF - f));
    Multiple(sum, f);
  }

  lemma Multiple(sum: nat, f: nat)
    requires f % 65535 == sum % 65535 && f <= 65535
    ensures (sum + (65535 - f)) % 65535 == 0
  {}

  /**
   * For data of even or odd length with a zeroed 16-bit field at an even offset: storing the computed checksum there,
   * big-endian, makes a recomputation yield 0.
   */
  lemma StoredChecksOut(d: seq<Byte>, p: nat, base: nat)
    requires p % 2 == 0 && p + 2 <= |d| && d[p] == 0 && d[p + 1] == 0
    ensures ChecksumOf(base + WordSum(Patch(d, p, BigEndian(ChecksumOf(base + WordSum(d)))))) == 0
  {
    StoredAdds(d, p, ChecksumOf(base + WordSum(d)));
    CompletedFolds(base + WordSum(d));
  }

  /** A changed word changes the checksum, unless one representation of zero is swapped for the other. */
  lemma ChangeIsSeen(sum: nat, x: Word16, y: Word16)
    requires ChecksumOf(sum + x) == ChecksumOf(sum + y)
    ensures x == y || (x == 0 && y == 65535) || (x == 65535 && y == 0)
  {
    hide *;
    SameSum(sum + x, sum + y);
    if x >= y { SameModulo(sum + x, sum + y); } else { SameModulo(sum + y, sum + x); }
  }

  lemma SameSum(a: nat, b: nat)
    requires ChecksumOf(a) == ChecksumOf(b)
    ensures a % 65535 == b % 65535
  {
    FoldedIsModulo(a);
    FoldedIsModulo(b);
  }

  lemma SameModulo(a: nat, b: nat)
    requires a % 65535 == b % 65535 && a >= b
    ensures (a - b) % 65535 == 0
  {
    assert a - b == 65535 * (a / 65535 - b / 65535);
  }

  // ---------------------------------------------------------------- IPv4 headers and TCP segments

  const IP_HEADER: nat := 20
  const IP_CHECKSUM_AT: nat := 10
  const TCP_HEADER: nat := 20
  const TCP_CHECKSUM_AT: nat := 16

  /** The header ipv4_send puts in front of len bytes; a receiver's checksum over it comes out as 0. */
  method IpHeader(len: nat, proto: Byte, src: seq<Byte>, dst: seq<Byte>) returns (h: seq<Byte>)
    requires len <= 1480 && |src| == 4 && |dst| == 4
    ensures |h| == IP_HEADER && ChecksumOf(WordSum(h)) == 0
    ensures h[0] == 0x45 && h[2..4] == BigEndian(IP_HEADER + len) && h[8] == 64 && h[9] == proto && h[12..16] == src && h[16..] == dst
  {
    h := [0x45, 0] + BigEndian(20 + len) + BigEndian(0x4242) + [0, 0, 64, proto, 0, 0] + src + dst;
    var c := IpChecksum(h);
    StoredChecksOut(h, IP_CHECKSUM_AT, 0);
    h := Patch(h, IP_CHECKSUM_AT, BigEndian(c));
  }

  /** The sum tcp_checksum starts from: the pseudo-header of section 3.1 of RFC 793. */
  function PseudoSum(src: seq<Byte>, dst: seq<Byte>, proto: Byte, len: nat): nat {
    WordSum(src) + WordSum(dst) + proto + len
  }

  method TcpChecksum(src: seq<Byte>, dst: seq<Byte>, proto: Byte, tcp: seq<Byte>) returns (c: Word16)
    requires |src| == 4 && |dst| == 4 && |tcp| < 0x1_0000
    ensures c == ChecksumOf(PseudoSum(src, dst, proto, |tcp|) + WordSum(tcp))
  {
    var sum: Word32, i := 0, 0;
    while i < 4
      invariant i <= 4 && i % 2 == 0 && sum + WordSum(src[i..]) == WordSum(src)
    {
      assert src[i..][2..] == src[i + 2..];
      SumFits(src);
      sum := sum + (src[i] as int * 256 + src[i + 1] as int);
      i := i + 2;
    }
    i := 0;
    while i < 4
      invariant i <= 4 && i % 2 == 0 && sum + WordSum(dst[i..]) == WordSum(src) + WordSum(dst)
    {
      assert dst[i..][2..] == dst[i + 2..];
      SumFits(dst);
      sum := sum + (dst[i] as int * 256 + dst[i + 1] as int);
      i := i + 2;
    }
    sum := sum + proto;
    sum := sum + |tcp|;
    ghost var base := PseudoSum(src, dst, proto, |tcp|);
    i := 0;
    while i + 1 < |tcp|
      invariant i <= |tcp| && i % 2 == 0 && sum + WordSum(tcp[i..]) == base + WordSum(tcp)
    {
      assert tcp[i..][2..] == tcp[i + 2..];
      SegmentFits(src, dst, proto, tcp);
      sum := sum + (tcp[i] as int * 256 + tcp[i + 1] as int);
      i := i + 2;
    }
    SegmentFits(src, dst, proto, tcp);
    if i < |tcp| {
      sum := sum + tcp[i] as int * 256;
    }
    c := OnesComplement(sum);
  }

  lemma SegmentFits(src: seq<Byte>, dst: seq<Byte>, proto: Byte, tcp: seq<Byte>)
    requires |src| == 4 && |dst| == 4 && |tcp| < 0x1_0000
    ensures PseudoSum(src, dst, proto, |tcp|) + WordSum(tcp) < 0x1_0000_0000
  {}

  /** A segment as tcp_send_seg completes it: whatever the header and the data, the receiver's sum checks out. */
  method SealSegment(src: seq<Byte>, dst: seq<Byte>, proto: Byte, header: seq<Byte>, data: seq<Byte>) returns (seg: seq<Byte>)
    requires |src| == 4 && |dst| == 4 && |header| == TCP_HEADER && |data| <= 1460
    ensures |seg| == TCP_HEADER + |data| && ChecksumOf(PseudoSum(src, dst, proto, |seg|) + WordSum(seg)) == 0
    ensures seg[..TCP_CHECKSUM_AT] == header[..TCP_CHECKSUM_AT] && seg[TCP_CHECKSUM_AT + 2..] == header[TCP_CHECKSUM_AT + 2..] + data
  {
    seg := Patch(header, TCP_CHECKSUM_AT, [0, 0]) + data;
    var c := TcpChecksum(src, dst, proto, seg);
    StoredChecksOut(seg, TCP_CHECKSUM_AT, PseudoSum(src, dst, proto, |seg|));
    seg := Patch(seg, TCP_CHECKSUM_AT, BigEndian(c));
  }
}
