/** Directory contents as a chain of variable-length records: splitting, merging and tombstoning one of them. */
module DirRecords {
  import opened Bytes

  const HEADER: nat := 8

  /** A live record as a reader sees it. */
  datatype Rec = Rec(ino: Word32, name: seq<Byte>, kind: Byte)

  /** Size of a header and a name of length k, rounded up to a multiple of four. */
  function Padded(k: nat): (r: nat)
    ensures r % 4 == 0 && HEADER + k <= r < HEADER + k + 4
  {
    var t := HEADER + k;
    if t % 4 != 0 then t + (4 - t % 4) else t
  }

  function Ino(d: seq<Byte>, p: nat): Word32
    requires p + HEADER <= |d|
  {
    Le32(d, p)
  }

  function RecLen(d: seq<Byte>, p: nat): Word16
    requires p + HEADER <= |d|
  {
    Le16(d, p + 4)
  }

  function NameLen(d: seq<Byte>, p: nat): nat
    requires p + HEADER <= |d|
  {
    d[p + 6]
  }

  /** The name, as far as the bytes go. */
  function Name(d: seq<Byte>, p: nat): seq<Byte>
    requires p + HEADER <= |d|
  {
    if p + HEADER + NameLen(d, p) <= |d| then d[p + HEADER..p + HEADER + NameLen(d, p)] else d[p + HEADER..]
  }

  /** The record at p if it is live; nothing for a tombstone. */
  function LiveAt(d: seq<Byte>, p: nat): seq<Rec>
    requires p + HEADER <= |d|
  {
    if Ino(d, p) == 0 then [] else [Rec(Ino(d, p), Name(d, p), d[p + 7])]
  }

  /** The live records from p on, in order. */
  function Listing(d: seq<Byte>, p: nat): seq<Rec>
    decreases |d| - p
  {
    if p + HEADER > |d| || RecLen(d, p) == 0 then []
    else LiveAt(d, p) + Listing(d, p + RecLen(d, p))
  }

  predicate BlockSize(bs: nat) {
    bs == 1024 || bs == 2048
  }

  /** Offset of byte p inside its block. */
  function InBlock(p: nat, bs: nat): nat
    requires bs > 0
  {
    p % bs
  }

  /** One well-formed record: big enough for its name, inside one block of bs bytes. */
  predicate RecordAt(d: seq<Byte>, p: nat, bs: nat)
    requires BlockSize(bs)
  {
    && p + HEADER <= |d| && RecLen(d, p) % 4 == 0 && RecLen(d, p) >= Padded(NameLen(d, p))
    && InBlock(p, bs) + RecLen(d, p) <= bs && (Ino(d, p) != 0 ==> NameLen(d, p) > 0)
  }

  /** Records tile the bytes from p to the end, and no record crosses a block boundary. */
  predicate Tiled(d: seq<Byte>, p: nat, bs: nat)
    requires BlockSize(bs)
    decreases |d| - p
  {
    p == |d| || (p < |d| && RecordAt(d, p, bs) && Tiled(d, p + RecLen(d, p), bs))
  }

  /** A walk that starts at p visits q. */
  predicate Visits(d: seq<Byte>, p: nat, q: nat)
    decreases |d| - p
  {
    p == q || (p + HEADER <= |d| && RecLen(d, p) > 0 && p < q && Visits(d, p + RecLen(d, p), q))
  }

  lemma {:induction false} TiledFrom(d: seq<Byte>, p: nat, q: nat, bs: nat)
    requires BlockSize(bs) && Tiled(d, p, bs) && Visits(d, p, q)
    ensures Tiled(d, q, bs) && p <= q
    decreases |d| - p
  {
    if p != q {
      TiledFrom(d, p + RecLen(d, p), q, bs);
    }
  }

  /** Equal bytes make equal records. */
  lemma SameRecord(d: seq<Byte>, e: seq<Byte>, p: nat)
    requires |e| == |d| && p + HEADER <= |d| && e[p..p + HEADER] == d[p..p + HEADER]
    requires p + HEADER + NameLen(d, p) <= |d| ==>
      e[p + HEADER..p + HEADER + NameLen(d, p)] == d[p + HEADER..p + HEADER + NameLen(d, p)]
    requires p + HEADER + NameLen(d, p) > |d| ==> e[p + HEADER..] == d[p + HEADER..]
    ensures RecLen(e, p) == RecLen(d, p) && NameLen(e, p) == NameLen(d, p) && Ino(e, p) == Ino(d, p)
    ensures LiveAt(e, p) == LiveAt(d, p)
  {
    var x, y := d[p..p + HEADER], e[p..p + HEADER];
    assert d[p] == x[0] && d[p + 1] == x[1] && d[p + 2] == x[2] && d[p + 3] == x[3];
    assert d[p + 4] == x[4] && d[p + 5] == x[5] && d[p + 6] == x[6] && d[p + 7] == x[7];
    assert e[p] == y[0] && e[p + 1] == y[1] && e[p + 2] == y[2] && e[p + 3] == y[3];
    assert e[p + 4] == y[4] && e[p + 5] == y[5] && e[p + 6] == y[6] && e[p + 7] == y[7];
  }

  ghost predicate SameFrom(d: seq<Byte>, e: seq<Byte>, p: nat) {
    |e| == |d| && forall i :: p <= i < |d| ==> e[i] == d[i]
  }

  ghost predicate SameBetween(d: seq<Byte>, e: seq<Byte>, p: nat, q: nat) {
    |e| == |d| && q <= |d| && forall i :: p <= i < q ==> e[i] == d[i]
  }

  lemma SameRecordFrom(d: seq<Byte>, e: seq<Byte>, p: nat)
    requires SameFrom(d, e, p) && p + HEADER <= |d|
    ensures RecLen(e, p) == RecLen(d, p) && NameLen(e, p) == NameLen(d, p) && Ino(e, p) == Ino(d, p)
    ensures LiveAt(e, p) == LiveAt(d, p)
  {
    SameRecord(d, e, p);
  }

  /** Records that start at or after p only depend on the bytes from p on. */
  lemma {:induction false} ListingOfSuffix(d: seq<Byte>, e: seq<Byte>, p: nat)
    requires SameFrom(d, e, p)
    ensures Listing(e, p) == Listing(d, p)
    decreases |d| - p
  {
    hide LiveAt, RecLen;
    if p + HEADER <= |d| {
      SameRecordFrom(d, e, p);
      if RecLen(d, p) != 0 {
        ListingOfSuffix(d, e, p + RecLen(d, p));
      }
    }
  }

  lemma {:induction false} TiledOfSuffix(d: seq<Byte>, e: seq<Byte>, p: nat, bs: nat)
    requires BlockSize(bs) && SameFrom(d, e, p) && Tiled(d, p, bs)
    ensures Tiled(e, p, bs)
    decreases |d| - p
  {
    hide LiveAt, RecLen, NameLen, Ino;
    if p < |d| {
      SameRecordFrom(d, e, p);
      TiledOfSuffix(d, e, p + RecLen(d, p), bs);
    }
  }

  /** The live records a walk from p passes before it reaches q. */
  function Before(d: seq<Byte>, p: nat, q: nat): seq<Rec>
    decreases |d| - p
  {
    if p >= q || p + HEADER > |d| || RecLen(d, p) == 0 then []
    else LiveAt(d, p) + Before(d, p + RecLen(d, p), q)
  }

  lemma Regroup(x: seq<Rec>, b: seq<Rec>, l: seq<Rec>)
    ensures x + (b + l) == (x + b) + l
  {}

  /** A walk from p up to a changed record at q: tiling, and what the two listings share. */
  lemma {:induction false} WalkToChange(d: seq<Byte>, e: seq<Byte>, p: nat, q: nat, bs: nat)
    requires BlockSize(bs) && SameBetween(d, e, p, q) && Tiled(d, p, bs) && Visits(d, p, q) && Tiled(e, q, bs)
    ensures Tiled(e, p, bs) && Visits(e, p, q)
    ensures Listing(d, p) == Before(d, p, q) + Listing(d, q)
    ensures Listing(e, p) == Before(d, p, q) + Listing(e, q)
    decreases |d| - p
  {
    hide InBlock, LiveAt, RecLen, NameLen, Ino, Le16, Le32, Name;
    if p != q {
      var n := p + RecLen(d, p);
      TiledFrom(d, n, q, bs);
      SameRecord(d, e, p) by {
        SameSlices(d, e, p, q, p, p + HEADER);
        SameSlices(d, e, p, q, p + HEADER, p + HEADER + NameLen(d, p));
      }
      WalkToChange(d, e, n, q, bs);
      Regroup(LiveAt(d, p), Before(d, n, q), Listing(d, q));
      Regroup(LiveAt(d, p), Before(d, n, q), Listing(e, q));
    }
  }

  lemma SameSlices(d: seq<Byte>, e: seq<Byte>, p: nat, q: nat, lo: nat, hi: nat)
    requires SameBetween(d, e, p, q) && p <= lo <= hi <= q
    ensures d[lo..hi] == e[lo..hi]
  {}

  // ---------------------------------------------------------------- the edits

  /** The bytes of a record: header, then name. */
  function Record(ino: Word32, len: Word16, name: seq<Byte>, kind: Byte): (r: seq<Byte>)
    requires |name| < 256
    ensures |r| == HEADER + |name|
  {
    Enc32(ino) + Enc16(len) + [|name|, kind] + name
  }

  predicate Nameable(name: seq<Byte>) {
    0 < |name| < 256
  }

  function Slack(d: seq<Byte>, p: nat): int
    requires p + HEADER <= |d|
  {
    RecLen(d, p) - Padded(NameLen(d, p))
  }

  /** The record at p cut to its own size, and a new record placed in the space it gave up. */
  function Split(d: seq<Byte>, p: nat, ino: Word32, name: seq<Byte>, kind: Byte): (r: seq<Byte>)
    requires Nameable(name) && p + HEADER <= |d| && p + RecLen(d, p) <= |d| && Slack(d, p) >= Padded(|name|)
    ensures |r| == |d|
  {
    var own := Padded(NameLen(d, p));
    Patch(Patch(d, p + 4, Enc16(own)), p + own, Record(ino, Slack(d, p), name, kind))
  }

  /** The record at q extended over the record at p that follows it. */
  function Merge(d: seq<Byte>, q: nat, p: nat): (r: seq<Byte>)
    requires q + HEADER <= |d| && p + HEADER <= |d| && RecLen(d, q) + RecLen(d, p) < 0x1_0000
    ensures |r| == |d|
  {
    Patch(d, q + 4, Enc16(RecLen(d, q) + RecLen(d, p)))
  }

  /** The record at p marked deleted. */
  function Tombstone(d: seq<Byte>, p: nat): (r: seq<Byte>)
    requires p + HEADER <= |d|
    ensures |r| == |d|
  {
    Patch(d, p, Enc32(0))
  }

  /** A fresh block holding one record that fills it. */
  function FreshBlock(bs: nat, ino: Word32, name: seq<Byte>, kind: Byte): (r: seq<Byte>)
    requires Nameable(name) && HEADER + |name| <= bs < 0x1_0000
    ensures |r| == bs
  {
    Patch(seq<Byte>(bs, _ => 0), 0, Record(ino, bs, name, kind))
  }

  // ---------------------------------------------------------------- what the edits do to the chain

  lemma ModAdd(p: nat, x: nat, bs: nat)
    requires BlockSize(bs) && InBlock(p, bs) + x < bs
    ensures InBlock(p + x, bs) == InBlock(p, bs) + x
  {}

  lemma SliceIndex(d: seq<Byte>, p: nat, n: nat)
    requires p + n <= |d|
    ensures forall i {:trigger d[p..p + n][i]} :: 0 <= i < n ==> d[p..p + n][i] == d[p + i]
  {}

  /** The two-byte field at offset 4 of a record. */
  lemma LenOf(r: seq<Byte>, ino: Word32, len: Word16, name: seq<Byte>, kind: Byte)
    requires |name| < 256 && r == Record(ino, len, name, kind)
    ensures Le32(r, 0) == ino && Le16(r, 4) == len && r[6] == |name| && r[7] == kind && r[HEADER..] == name
  {
    var a, b := Enc32(ino), Enc16(len);
    assert r[0] == a[0] && r[1] == a[1] && r[2] == a[2] && r[3] == a[3] && r[4] == b[0] && r[5] == b[1];
  }

  lemma RecordReads(d: seq<Byte>, p: nat, ino: Word32, len: Word16, name: seq<Byte>, kind: Byte)
    requires |name| < 256 && p + HEADER + |name| <= |d|
    requires d[p..p + HEADER + |name|] == Record(ino, len, name, kind)
    ensures Ino(d, p) == ino && RecLen(d, p) == len && NameLen(d, p) == |name|
    ensures LiveAt(d, p) == if ino == 0 then [] else [Rec(ino, name, kind)]
  {
    hide Enc32, Enc16, Record;
    LenOf(d[p..p + HEADER + |name|], ino, len, name, kind);
    SliceIndex(d, p, HEADER + |name|);
    assert d[p + HEADER..p + HEADER + |name|] == d[p..p + HEADER + |name|][HEADER..];
  }

  /** Changing the length field changes nothing else of a record. */
  lemma RelengthReads(d: seq<Byte>, p: nat, len: Word16)
    requires p + HEADER <= |d| && p + HEADER + NameLen(d, p) <= |d|
    ensures var e := Patch(d, p + 4, Enc16(len));
            RecLen(e, p) == len && NameLen(e, p) == NameLen(d, p) && Ino(e, p) == Ino(d, p) && LiveAt(e, p) == LiveAt(d, p)
  {
    var e := Patch(d, p + 4, Enc16(len));
    assert e[p + 4] == Enc16(len)[0] && e[p + 5] == Enc16(len)[1];
    hide Enc16, Patch;
    assert e[p + HEADER..p + HEADER + NameLen(d, p)] == d[p + HEADER..p + HEADER + NameLen(d, p)];
  }

  /** The records a split leaves at p and at the start of the freed space. */
  lemma SplitBytes(d: seq<Byte>, p: nat, ino: Word32, name: seq<Byte>, kind: Byte)
    requires p + HEADER <= |d| && p + RecLen(d, p) <= |d|
    requires Nameable(name) && ino != 0 && Slack(d, p) >= Padded(|name|)
    ensures var e, q := Split(d, p, ino, name, kind), p + Padded(NameLen(d, p));
            q + HEADER <= |d| && SameBetween(d, e, 0, p) && SameFrom(d, e, p + RecLen(d, p)) &&
            RecLen(e, p) == Padded(NameLen(d, p)) && NameLen(e, p) == NameLen(d, p) && Ino(e, p) == Ino(d, p) &&
            LiveAt(e, p) == LiveAt(d, p) &&
            RecLen(e, q) == Slack(d, p) && NameLen(e, q) == |name| && Ino(e, q) == ino &&
            LiveAt(e, q) == [Rec(ino, name, kind)]
  {
    hide LiveAt, Record, Enc16, Ino;
    var own := Padded(NameLen(d, p));
    var q, m := p + own, Patch(d, p + 4, Enc16(own));
    var e := Split(d, p, ino, name, kind);
    PatchReads(m, q, Record(ino, Slack(d, p), name, kind));
    RelengthReads(d, p, own);
    RecordReads(e, q, ino, Slack(d, p), name, kind);
    SameRecord(m, e, p) by {
      SameSlices(m, e, p, q, p, p + HEADER);
      SameSlices(m, e, p, q, p + HEADER, p + HEADER + NameLen(m, p));
    }
  }

  lemma SplitRecords(d: seq<Byte>, p: nat, bs: nat, ino: Word32, name: seq<Byte>, kind: Byte)
    requires BlockSize(bs) && Tiled(d, p, bs) && p < |d| && RecordAt(d, p, bs)
    requires Nameable(name) && ino != 0 && Slack(d, p) >= Padded(|name|)
    ensures p + RecLen(d, p) <= |d|
    ensures var e := Split(d, p, ino, name, kind);
            SameBetween(d, e, 0, p) && Tiled(e, p, bs) &&
            Listing(e, p) == LiveAt(d, p) + ([Rec(ino, name, kind)] + Listing(d, p + RecLen(d, p)))
  {
    hide InBlock, Listing, Tiled, LiveAt, Split, RecLen, NameLen, Ino, SameFrom, SameBetween;
    TiledStep(d, p, bs);
    var own, n := Padded(NameLen(d, p)), p + RecLen(d, p);
    TiledWithin(d, n, bs);
    var q, e := p + own, Split(d, p, ino, name, kind);
    SplitBytes(d, p, ino, name, kind);
    ModAdd(p, own, bs);
    ListingOfSuffix(d, e, n);
    TiledOfSuffix(d, e, n, bs);
    ListingStep(e, q);
    ListingStep(e, p);
    TiledStep(e, q, bs);
    TiledStep(e, p, bs);
  }

  lemma PatchReads(d: seq<Byte>, p: nat, w: seq<Byte>)
    requires p + |w| <= |d|
    ensures Patch(d, p, w)[p..p + |w|] == w
  {}

  lemma TiledWithin(d: seq<Byte>, p: nat, bs: nat)
    requires BlockSize(bs) && Tiled(d, p, bs)
    ensures p <= |d|
  {}

  lemma TiledStep(d: seq<Byte>, p: nat, bs: nat)
    requires BlockSize(bs) && p < |d|
    ensures Tiled(d, p, bs) <==> RecordAt(d, p, bs) && Tiled(d, p + RecLen(d, p), bs)
  {}

  lemma ListingStep(d: seq<Byte>, p: nat)
    requires p + HEADER <= |d| && RecLen(d, p) != 0
    ensures Listing(d, p) == LiveAt(d, p) + Listing(d, p + RecLen(d, p))
  {}

  lemma MergeBytes(d: seq<Byte>, q: nat, p: nat)
    requires q + HEADER <= |d| && q + HEADER + NameLen(d, q) <= p && p + HEADER <= |d|
    requires RecLen(d, q) + RecLen(d, p) < 0x1_0000
    ensures var e := Merge(d, q, p);
            SameBetween(d, e, 0, q) && SameFrom(d, e, p) &&
            RecLen(e, q) == RecLen(d, q) + RecLen(d, p) && NameLen(e, q) == NameLen(d, q) && Ino(e, q) == Ino(d, q) &&
            LiveAt(e, q) == LiveAt(d, q)
  {
    hide LiveAt, Enc16, Ino;
    RelengthReads(d, q, RecLen(d, q) + RecLen(d, p));
  }

  lemma MergeRecords(d: seq<Byte>, q: nat, bs: nat)
    requires BlockSize(bs) && Tiled(d, q, bs) && q < |d| && RecordAt(d, q, bs)
    requires var p := q + RecLen(d, q); p < |d| && RecordAt(d, p, bs) && InBlock(q, bs) + RecLen(d, q) + RecLen(d, p) <= bs
    ensures var p := q + RecLen(d, q);
            var e := Merge(d, q, p);
            SameBetween(d, e, 0, q) && Tiled(e, q, bs) && RecLen(e, q) == RecLen(d, q) + RecLen(d, p) &&
            LiveAt(e, q) == LiveAt(d, q) && NameLen(e, q) == NameLen(d, q) &&
            Listing(e, q) == LiveAt(d, q) + Listing(d, p + RecLen(d, p))
  {
    hide InBlock, Listing, Tiled, LiveAt, Merge, RecLen, NameLen, Ino, SameFrom, SameBetween;
    var p := q + RecLen(d, q);
    var n, e := p + RecLen(d, p), Merge(d, q, p);
    TiledStep(d, q, bs);
    TiledStep(d, p, bs);
    TiledWithin(d, n, bs);
    MergeBytes(d, q, p);
    SameFromLater(d, e, p, n);
    ListingOfSuffix(d, e, n);
    TiledOfSuffix(d, e, n, bs);
    ListingStep(e, q);
    TiledStep(e, q, bs);
  }

  lemma SameFromLater(d: seq<Byte>, e: seq<Byte>, p: nat, n: nat)
    requires SameFrom(d, e, p) && p <= n
    ensures SameFrom(d, e, n)
  {}

  lemma TombstoneBytes(d: seq<Byte>, p: nat)
    requires p + HEADER <= |d|
    ensures var e := Tombstone(d, p);
            SameBetween(d, e, 0, p) && SameFrom(d, e, p + 4) &&
            RecLen(e, p) == RecLen(d, p) && NameLen(e, p) == NameLen(d, p) && Ino(e, p) == 0 && LiveAt(e, p) == []
  {
    PatchReads(d, p, Enc32(0));
    var e := Tombstone(d, p);
    assert e[p..p + 4] == Enc32(0) && e[p] == Enc32(0)[0] && e[p + 1] == Enc32(0)[1];
  }

  lemma TombstoneRecords(d: seq<Byte>, p: nat, bs: nat)
    requires BlockSize(bs) && Tiled(d, p, bs) && p < |d| && RecordAt(d, p, bs)
    ensures var e := Tombstone(d, p);
            SameBetween(d, e, 0, p) && Tiled(e, p, bs) && RecLen(e, p) == RecLen(d, p) &&
            Listing(e, p) == Listing(d, p + RecLen(d, p))
  {
    hide InBlock, Listing, Tiled, LiveAt, Tombstone, RecLen, NameLen, Ino, SameFrom, SameBetween;
    var n, e := p + RecLen(d, p), Tombstone(d, p);
    TiledStep(d, p, bs);
    TiledWithin(d, n, bs);
    TombstoneBytes(d, p);
    SameFromLater(d, e, p + 4, n);
    ListingOfSuffix(d, e, n);
    TiledOfSuffix(d, e, n, bs);
    ListingStep(e, p);
    TiledStep(e, p, bs);
  }

  // ---------------------------------------------------------------- whole directories

  ghost predicate InsertedAt(l: seq<Rec>, m: seq<Rec>, k: nat, r: Rec) {
    k <= |l| && m == l[..k] + [r] + l[k..]
  }

  ghost predicate RemovedAt(l: seq<Rec>, m: seq<Rec>, k: nat) {
    k < |l| && m == l[..k] + l[k + 1..]
  }

  /** Splitting one record of a directory inserts exactly the new record into its listing. */
  lemma SplitInserts(d: seq<Byte>, p: nat, bs: nat, ino: Word32, name: seq<Byte>, kind: Byte)
    requires BlockSize(bs) && Tiled(d, 0, bs) && Visits(d, 0, p) && p < |d|
    requires Nameable(name) && ino != 0 && p + HEADER <= |d| && Slack(d, p) >= Padded(|name|)
    ensures p + RecLen(d, p) <= |d|
    ensures var e := Split(d, p, ino, name, kind);
            Tiled(e, 0, bs) &&
            InsertedAt(Listing(d, 0), Listing(e, 0), |Before(d, 0, p)| + |LiveAt(d, p)|, Rec(ino, name, kind))
  {
    hide InBlock, Listing, Tiled, LiveAt, Split, RecLen, NameLen, Ino, SameBetween, Before;
    TiledFrom(d, 0, p, bs);
    TiledStep(d, p, bs);
    SplitRecords(d, p, bs, ino, name, kind);
    WalkToChange(d, Split(d, p, ino, name, kind), 0, p, bs);
    ListingStep(d, p);
  }

  /** Merging a record into its predecessor removes exactly that record, or nothing if it was a tombstone. */
  lemma MergeRemoves(d: seq<Byte>, q: nat, bs: nat)
    requires BlockSize(bs) && Tiled(d, 0, bs) && Visits(d, 0, q) && q < |d| && q + HEADER <= |d|
    requires var p := q + RecLen(d, q); p < |d| && p / bs == q / bs
    ensures var p := q + RecLen(d, q);
            p + HEADER <= |d| && RecLen(d, q) + RecLen(d, p) < 0x1_0000 &&
            var e := Merge(d, q, p);
            Tiled(e, 0, bs) && Visits(e, 0, q) && SameBetween(d, e, 0, q) &&
            RecLen(e, q) == RecLen(d, q) + RecLen(d, p) && NameLen(e, q) == NameLen(d, q) &&
            Listing(d, 0) == Before(d, 0, q) + LiveAt(d, q) + LiveAt(d, p) + Listing(d, p + RecLen(d, p)) &&
            Listing(e, 0) == Before(d, 0, q) + LiveAt(d, q) + Listing(d, p + RecLen(d, p))
  {
    hide InBlock, Listing, Tiled, LiveAt, Merge, RecLen, NameLen, Ino, SameBetween, Before;
    var p := q + RecLen(d, q);
    TiledFrom(d, 0, q, bs);
    TiledStep(d, q, bs);
    TiledStep(d, p, bs);
    SameBlock(q, p, bs);
    MergeRecords(d, q, bs);
    WalkToChange(d, Merge(d, q, p), 0, q, bs);
    ListingStep(d, q);
    ListingStep(d, p);
  }

  lemma SameBlock(q: nat, p: nat, bs: nat)
    requires BlockSize(bs) && q <= p && p / bs == q / bs
    ensures InBlock(q, bs) + (p - q) == InBlock(p, bs)
  {}

  lemma TombstoneRemoves(d: seq<Byte>, p: nat, bs: nat)
    requires BlockSize(bs) && Tiled(d, 0, bs) && Visits(d, 0, p) && p < |d| && p + HEADER <= |d|
    ensures var e := Tombstone(d, p);
            Tiled(e, 0, bs) && SameBetween(d, e, 0, p) &&
            Listing(d, 0) == Before(d, 0, p) + LiveAt(d, p) + Listing(d, p + RecLen(d, p)) &&
            Listing(e, 0) == Before(d, 0, p) + Listing(d, p + RecLen(d, p))
  {
    hide InBlock, Listing, Tiled, LiveAt, Tombstone, RecLen, NameLen, Ino, SameBetween, Before;
    TiledFrom(d, 0, p, bs);
    TiledStep(d, p, bs);
    TombstoneRecords(d, p, bs);
    WalkToChange(d, Tombstone(d, p), 0, p, bs);
    ListingStep(d, p);
  }

  /** Cutting a directory at a record boundary keeps the records before it. */
  lemma {:induction false} CutAtBoundary(d: seq<Byte>, p: nat, q: nat, bs: nat)
    requires BlockSize(bs) && Tiled(d, p, bs) && Visits(d, p, q)
    ensures q <= |d| && Tiled(d[..q], p, bs) && Listing(d[..q], p) == Before(d, p, q)
    decreases |d| - p
  {
    hide InBlock, LiveAt, RecLen, NameLen, Ino, Le16, Le32, Name;
    TiledFrom(d, p, q, bs);
    if p != q {
      var n := p + RecLen(d, p);
      TiledFrom(d, n, q, bs);
      PrefixRecord(d, p, q);
      CutAtBoundary(d, n, q, bs);
    } else {
      assert |d[..q]| == p;
    }
  }

  lemma PrefixRecord(d: seq<Byte>, p: nat, q: nat)
    requires p + HEADER <= |d| && p + HEADER + NameLen(d, p) <= q <= |d|
    ensures RecLen(d[..q], p) == RecLen(d, p) && NameLen(d[..q], p) == NameLen(d, p) && Ino(d[..q], p) == Ino(d, p)
    ensures LiveAt(d[..q], p) == LiveAt(d, p)
  {
    assert d[..q][p + HEADER..p + HEADER + NameLen(d, p)] == d[p + HEADER..p + HEADER + NameLen(d, p)];
  }

  /** Cutting inside the last record, past its name, hides nothing. */
  lemma {:induction false} CutInsideLast(d: seq<Byte>, p: nat, q: nat, s: nat, bs: nat)
    requires BlockSize(bs) && Tiled(d, p, bs) && Visits(d, p, q) && q + HEADER <= |d| && q + RecLen(d, q) == |d|
    requires q + HEADER + NameLen(d, q) <= s <= |d|
    ensures Listing(d[..s], p) == Listing(d, p)
    decreases |d| - p
  {
    hide InBlock, LiveAt, NameLen, Ino, Le16, Le32, Name, Before;
    TiledFrom(d, p, q, bs);
    TiledStep(d, p, bs);
    if p != q {
      var n := p + RecLen(d, p);
      TiledFrom(d, n, q, bs);
      PrefixRecord(d, p, s);
      CutInsideLast(d, n, q, s, bs);
    } else {
      PrefixRecord(d, q, s);
      assert Listing(d, |d|) == [] && Listing(d[..s], |d|) == [];
    }
  }

  /** A fresh block appended to a tiled directory adds its record at the end. */
  lemma {:induction false} AppendInserts(d: seq<Byte>, p: nat, bs: nat, ino: Word32, name: seq<Byte>, kind: Byte)
    requires BlockSize(bs) && Tiled(d, p, bs) && |d| % bs == 0 && Nameable(name) && ino != 0
    ensures var e := d + FreshBlock(bs, ino, name, kind);
            Tiled(e, p, bs) && Listing(e, p) == Listing(d, p) + [Rec(ino, name, kind)]
    decreases |d| - p
  {
    hide InBlock, LiveAt, NameLen, Ino, Le16, Le32, Name, Before, FreshBlock, RecLen;
    var e := d + FreshBlock(bs, ino, name, kind);
    if p == |d| {
      FreshRecord(d, bs, ino, name, kind);
      assert InBlock(p, bs) == 0 by { ZeroInBlock(p, bs); }
      assert Listing(d, p) == [] && Listing(e, |e|) == [];
    } else {
      TiledWithin(d, p + RecLen(d, p), bs);
      assert e[..|d|] == d;
      PrefixRecord(e, p, |d|) by { WidenRecord(d, e, p); }
      AppendInserts(d, p + RecLen(d, p), bs, ino, name, kind);
      Regroup(LiveAt(d, p), Listing(d, p + RecLen(d, p)), [Rec(ino, name, kind)]);
    }
  }

  lemma ZeroInBlock(p: nat, bs: nat)
    requires bs > 0 && p % bs == 0
    ensures InBlock(p, bs) == 0
  {}

  lemma WidenRecord(d: seq<Byte>, e: seq<Byte>, p: nat)
    requires |d| <= |e| && e[..|d|] == d && p + HEADER <= |d|
    ensures RecLen(e, p) == RecLen(d, p) && NameLen(e, p) == NameLen(d, p) && Ino(e, p) == Ino(d, p)
  {
    assert forall i :: 0 <= i < |d| ==> d[i] == e[i];
  }

  lemma FreshRecord(d: seq<Byte>, bs: nat, ino: Word32, name: seq<Byte>, kind: Byte)
    requires BlockSize(bs) && |d| % bs == 0 && Nameable(name) && ino != 0
    ensures var e := d + FreshBlock(bs, ino, name, kind);
            RecLen(e, |d|) == bs && NameLen(e, |d|) == |name| && Ino(e, |d|) == ino && LiveAt(e, |d|) == [Rec(ino, name, kind)]
  {
    var e := d + FreshBlock(bs, ino, name, kind);
    PatchReads(seq<Byte>(bs, _ => 0), 0, Record(ino, bs, name, kind));
    assert e[|d|..|d| + HEADER + |name|] == FreshBlock(bs, ino, name, kind)[0..HEADER + |name|];
    RecordReads(e, |d|, ino, bs, name, kind);
  }
}
