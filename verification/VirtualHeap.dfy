/** Page tables and the page-granular heap: kernel/mm/vmm.c and kernel/mm/heap.c, with every directory entry present. */
module VirtualHeap {
  import opened Bytes
  import opened Frames

  const PER_TABLE: nat := 1024
  const PER_DIR: nat := 1024
  const SPACE: nat := 0x10_0000
  /** Bytes in front of an allocation that hold its number of pages and its size. */
  const HEADER: nat := 16

  // ---------------------------------------------------------------- page table entries

  predicate Present(e: Word32) {
    e % 2 == 1
  }

  /** e & I86_PTE_FRAME: bits 12 to 30. */
  function FrameAddr(e: Word32): (a: nat)
    ensures a % PAGE == 0 && a < 0x8000_0000 && a <= e
  {
    e / PAGE % 0x8_0000 * PAGE
  }

  /** pt_entry_set_frame */
  function SetFrame(e: Word32, addr: nat): (r: Word32)
    requires addr % PAGE == 0 && addr < 0x8000_0000
    ensures FrameAddr(r) == addr && Present(r) == Present(e)
  {
    FrameCleared(e);
    FramePut(e - FrameAddr(e), addr);
    e - FrameAddr(e) + addr
  }

  /** A frame address laid over cleared frame bits. */
  lemma FramePut(c: nat, addr: nat)
    requires c % 0x8000_0000 < PAGE && (c < PAGE || 0x8000_0000 <= c < 0x8000_0000 + PAGE)
    requires addr % PAGE == 0 && addr < 0x8000_0000
    ensures c + addr < 0x1_0000_0000 && FrameAddr(c + addr) == addr && (c + addr) % 2 == c % 2
  {
    var h, q := c / 0x8000_0000, addr / PAGE;
    var low := c - h * 0x8000_0000;
    FrameParts(h * 0x8_0000 + q, low);
    assert c + addr == (h * 0x8_0000 + q) * PAGE + low;
  }

  lemma FrameParts(q: nat, low: nat)
    requires low < PAGE
    ensures (q * PAGE + low) / PAGE == q && (q * PAGE + low) % 2 == low % 2
  {}

  lemma FrameCleared(e: Word32)
    ensures var c := e - FrameAddr(e);
            0 <= c && c % 0x8000_0000 < PAGE && c % 2 == e % 2 && (c < PAGE || 0x8000_0000 <= c < 0x8000_0000 + PAGE)
  {
    var q, low := e / PAGE, e % PAGE;
    assert e == q * PAGE + low;
    assert q % 0x8_0000 == if q < 0x8_0000 then q else q - 0x8_0000;
  }

  /** pt_entry_add_attrib with I86_PTE_PRESENT */
  function AddPresent(e: Word32): (r: Word32)
    ensures Present(r) && FrameAddr(r) == FrameAddr(e)
  {
    if e % 2 == 1 then e else e + 1
  }

  /** pt_entry_del_attrib with I86_PTE_PRESENT: an exclusive or. */
  function FlipPresent(e: Word32): (r: Word32)
    ensures Present(r) == !Present(e) && FrameAddr(r) == FrameAddr(e)
  {
    if e % 2 == 1 then e - 1 else e + 1
  }

  /** Pages needed for that many bytes. */
  function PagesFor(total: nat): nat {
    total / PAGE + if total % PAGE == 0 then 0 else 1
  }

  // ---------------------------------------------------------------- what allocations mean

  /** n pages from s on, none of them present. */
  ghost predicate RunIn(es: seq<Word32>, s: nat, n: nat) {
    |es| == SPACE && s + n <= SPACE && forall p :: s <= p < s + n ==> !Present(es[p])
  }

  ghost predicate LowestRun(es: seq<Word32>, s: nat, n: nat) {
    RunIn(es, s, n) && forall t: nat :: t < s ==> !RunIn(es, t, n)
  }

  /** A present entry for frame f. */
  predicate HasFrame(e: Word32, f: nat) {
    Present(e) && FrameAddr(e) / PAGE == f
  }

  /** A live allocation: the pages it took and the size asked for. */
  datatype Region = Region(pages: nat, size: Word32)

  /** Page p belongs to the allocation that starts at page b. */
  predicate In(rs: map<nat, Region>, p: nat, b: nat) {
    b in rs && b <= p < b + rs[b].pages
  }

  /** The page is mapped to a frame that is taken and can be given back. */
  predicate Backed(e: Word32, m: seq<Word32>, blocks: nat) {
    Present(e) && 0 < FrameAddr(e) / PAGE < Scanned(blocks) && TakenIn(m, FrameAddr(e) / PAGE)
  }

  /** An allocation lies in the address space and has its header in place. */
  predicate Headed(ws: map<nat, nat>, b: nat, r: Region) {
    b > 0 && r.pages > 0 && b + r.pages <= SPACE && HasHeader(ws, b, r)
  }

  /** The two words in front of an allocation: its pages and its size. */
  predicate HasHeader(ws: map<nat, nat>, b: nat, r: Region) {
    b * PAGE in ws && ws[b * PAGE] == r.pages && b * PAGE + 4 in ws && ws[b * PAGE + 4] == r.size
  }

  /** The header of page s was written, and no other word. */
  ghost predicate HeaderWritten(ws: map<nat, nat>, xs: map<nat, nat>, s: nat, r: Region) {
    HasHeader(xs, s, r) && forall a :: a in ws && a != s * PAGE && a != s * PAGE + 4 ==> a in xs && xs[a] == ws[a]
  }

  /** The headers of other pages are where they were. */
  lemma HeaderKept(ws: map<nat, nat>, xs: map<nat, nat>, s: nat, r: Region, b: nat, t: Region)
    requires HeaderWritten(ws, xs, s, r) && b != s && Headed(ws, b, t)
    ensures Headed(xs, b, t)
  {}

  /** Every allocation has its header and backed pages; no page and no frame belongs to two. */
  ghost predicate HeapGood(es: seq<Word32>, ws: map<nat, nat>, rs: map<nat, Region>, m: seq<Word32>, blocks: nat) {
    && |es| == SPACE
    && (forall b :: b in rs ==> Headed(ws, b, rs[b]))
    && (forall p: nat, b :: p < SPACE && In(rs, p, b) ==> Backed(es[p], m, blocks))
    && (forall p, b, c :: In(rs, p, b) && In(rs, p, c) ==> b == c)
    && (forall p: nat, q: nat, b, c :: p < SPACE && q < SPACE && In(rs, p, b) && In(rs, q, c) && FrameAddr(es[p]) == FrameAddr(es[q]) ==> p == q)
  }

  /** The frames handed out for an allocation were free, and are pairwise different. */
  ghost predicate Fresh(got: seq<nat>, free: set<nat>) {
    (forall k :: 0 <= k < |got| ==> got[k] in free) && (forall k, l :: 0 <= k < l < |got| ==> got[k] != got[l])
  }

  /** The frame the k-th page gets: frame 0 once there are no others. */
  function FrameFor(got: seq<nat>, k: nat): nat {
    if k < |got| then got[k] else 0
  }

  /** Pages s to s + n - 1 were given the frames got, and frame 0 from where they ran out; every other page is as it was. */
  ghost predicate Given(es: seq<Word32>, fs: seq<Word32>, m: seq<Word32>, w: seq<Word32>, blocks: nat, s: nat, n: nat, got: seq<nat>) {
    && |es| == |fs| == SPACE && s + n <= SPACE && |got| <= n && Fresh(got, FreeFrames(m, blocks))
    && (forall f: nat :: TakenIn(w, f) <==> TakenIn(m, f) || f in got)
    && (forall k :: 0 <= k < n ==> HasFrame(fs[s + k], FrameFor(got, k)))
    && (forall p :: 0 <= p < SPACE && !(s <= p < s + n) ==> fs[p] == es[p])
  }

  /** An allocation that ran out of frames has a page without one of its own. */
  lemma GivenShort(es: seq<Word32>, fs: seq<Word32>, m: seq<Word32>, w: seq<Word32>, blocks: nat, s: nat, n: nat, got: seq<nat>,
                   rs: map<nat, Region>, xs: map<nat, nat>, r: Region)
    requires Given(es, fs, m, w, blocks, s, n, got) && |got| < n && r.pages == n
    ensures !HeapGood(fs, xs, rs[s := r], w, blocks)
  {
    var k := |got|;
    assert HasFrame(fs[s + k], FrameFor(got, k)) && In(rs[s := r], s + k, s);
    assert !Backed(fs[s + k], w, blocks);
  }

  /** A run of unmapped pages starts in no allocation. */
  lemma FreeOfRegions(es: seq<Word32>, ws: map<nat, nat>, rs: map<nat, Region>, m: seq<Word32>, blocks: nat, s: nat, n: nat)
    requires HeapGood(es, ws, rs, m, blocks) && RunIn(es, s, n) && n > 0
    ensures s !in rs
  {
    assert s in rs ==> Headed(ws, s, rs[s]) && In(rs, s, s) && Backed(es[s], m, blocks);
  }

  /** A new allocation keeps the heap good. */
  lemma GivenGood(es: seq<Word32>, fs: seq<Word32>, m: seq<Word32>, w: seq<Word32>, blocks: nat, s: nat, n: nat, got: seq<nat>,
                  ws: map<nat, nat>, rs: map<nat, Region>, xs: map<nat, nat>, r: Region)
    requires HeapGood(es, ws, rs, m, blocks) && Given(es, fs, m, w, blocks, s, n, got) && |got| == n && RunIn(es, s, n) && s > 0 && n > 0
    requires TakenIn(m, 0) && r.pages == n && HeaderWritten(ws, xs, s, r)
    ensures s !in rs && HeapGood(fs, xs, rs[s := r], w, blocks)
  {
    var ts := rs[s := r];
    forall b | b in rs ensures b != s && Headed(xs, b, rs[b]) {
      assert Headed(ws, b, rs[b]) && In(rs, b, b) && Backed(es[b], m, blocks);
      HeaderKept(ws, xs, s, r, b, rs[b]);
    }
    forall p: nat, b | p < SPACE && In(ts, p, b)
      ensures Backed(fs[p], w, blocks) && (b == s <==> s <= p < s + n) && (b != s ==> fs[p] == es[p] && In(rs, p, b))
      ensures b == s ==> FrameAddr(fs[p]) / PAGE == got[p - s] && !TakenIn(m, got[p - s])
    {
      if b == s {
        assert HasFrame(fs[s + (p - s)], FrameFor(got, p - s)) && got[p - s] in FreeFrames(m, blocks);
      } else {
        assert In(rs, p, b) && Backed(es[p], m, blocks);
      }
    }
    forall p: nat, b | In(ts, p, b) ensures p < SPACE { assert b != s ==> Headed(ws, b, rs[b]); }
    forall p: nat, q: nat, b, c | p < SPACE && q < SPACE && In(ts, p, b) && In(ts, q, c) && FrameAddr(fs[p]) == FrameAddr(fs[q])
      ensures p == q
    {
      if b == s && c == s {
        assert got[p - s] == got[q - s];
      } else if b != s && c != s {
        assert In(rs, p, b) && In(rs, q, c);
      }
    }
  }

  /** Frame f backs one of the pages s to s + n - 1. */
  ghost predicate FrameIn(es: seq<Word32>, s: nat, n: nat, f: nat) {
    s + n <= |es| && exists p: nat :: s <= p < s + n && FrameAddr(es[p]) / PAGE == f
  }

  /** Pages s to s + n - 1 lost their present bits and gave back their frames; all else is as it was. */
  ghost predicate Returned(es: seq<Word32>, fs: seq<Word32>, m: seq<Word32>, w: seq<Word32>, s: nat, n: nat) {
    && |es| == |fs| == SPACE && s + n <= SPACE
    && (forall f: nat :: TakenIn(w, f) <==> TakenIn(m, f) && !FrameIn(es, s, n, f))
    && (forall p :: 0 <= p < SPACE ==> if s <= p < s + n then !Present(fs[p]) else fs[p] == es[p])
  }

  lemma ReturnedNone(es: seq<Word32>, m: seq<Word32>, s: nat)
    requires |es| == SPACE && s <= SPACE
    ensures Returned(es, es, m, m, s, 0)
  {}

  /** One page more. */
  lemma ReturnedOne(es: seq<Word32>, fs: seq<Word32>, gs: seq<Word32>, m: seq<Word32>, w: seq<Word32>, x: seq<Word32>, s: nat, n: nat)
    requires Returned(es, fs, m, w, s, n) && s + n < SPACE && |gs| == SPACE && !Present(gs[s + n])
    requires forall p :: 0 <= p < SPACE && p != s + n ==> gs[p] == fs[p]
    requires FrameAddr(es[s + n]) / PAGE / WORD_BITS < |w| && x == WithoutFrame(w, FrameAddr(es[s + n]) / PAGE)
    ensures Returned(es, gs, m, x, s, n + 1)
  {
    hide TakenIn, WithoutFrame, FrameAddr;
    var f := FrameAddr(es[s + n]) / PAGE;
    forall g: nat ensures TakenIn(x, g) <==> TakenIn(m, g) && !FrameIn(es, s, n + 1, g) {
      FrameSet(w, f, g);
      if FrameIn(es, s, n, g) {
        var p: nat :| s <= p < s + n && FrameAddr(es[p]) / PAGE == g;
        assert s <= p < s + (n + 1);
      }
      if FrameIn(es, s, n + 1, g) && g != f {
        var p: nat :| s <= p < s + (n + 1) && FrameAddr(es[p]) / PAGE == g;
        assert s <= p < s + n;
      }
    }
  }

  /** The next page of an allocation being returned is still mapped, and its frame still taken. */
  lemma StillBacked(es: seq<Word32>, fs: seq<Word32>, ws: map<nat, nat>, rs: map<nat, Region>, m: seq<Word32>, w: seq<Word32>, blocks: nat,
                    s: nat, i: nat)
    requires HeapGood(es, ws, rs, m, blocks) && s in rs && i < rs[s].pages && Returned(es, fs, m, w, s, i)
    ensures s + i < SPACE && fs[s + i] == es[s + i] && Backed(fs[s + i], w, blocks)
  {
    hide TakenIn, FrameAddr;
    assert Headed(ws, s, rs[s]) && In(rs, s + i, s);
    var f := FrameAddr(es[s + i]) / PAGE;
    if FrameIn(es, s, i, f) {
      var p: nat :| s <= p < s + i && FrameAddr(es[p]) / PAGE == f;
      assert In(rs, p, s);
      SameAddr(es[p], es[s + i]);
    }
  }

  lemma SameAddr(e: Word32, f: Word32)
    requires FrameAddr(e) / PAGE == FrameAddr(f) / PAGE
    ensures FrameAddr(e) == FrameAddr(f)
  {
    assert FrameAddr(e) == FrameAddr(e) / PAGE * PAGE && FrameAddr(f) == FrameAddr(f) / PAGE * PAGE;
  }

  /** Returning an allocation keeps the others good. */
  lemma ReturnedGood(es: seq<Word32>, fs: seq<Word32>, ws: map<nat, nat>, rs: map<nat, Region>, m: seq<Word32>, w: seq<Word32>, blocks: nat, s: nat)
    requires HeapGood(es, ws, rs, m, blocks) && s in rs && Returned(es, fs, m, w, s, rs[s].pages)
    ensures HeapGood(fs, ws, rs - {s}, w, blocks)
  {
    hide TakenIn, FrameAddr;
    var ts := rs - {s};
    assert forall b :: b in ts ==> b in rs && ts[b] == rs[b] && Headed(ws, b, ts[b]);
    forall p: nat, b | p < SPACE && In(ts, p, b) ensures fs[p] == es[p] && Backed(fs[p], w, blocks) && In(rs, p, b) {
      assert In(rs, p, b);
      assert In(rs, p, s) ==> b == s;
      var f := FrameAddr(es[p]) / PAGE;
      if FrameIn(es, s, rs[s].pages, f) {
        var q: nat :| s <= q < s + rs[s].pages && FrameAddr(es[q]) / PAGE == f;
        assert In(rs, q, s);
        SameAddr(es[p], es[q]);
      }
    }
    forall p, b, c | In(ts, p, b) && In(ts, p, c) ensures b == c {
      assert In(rs, p, b) && In(rs, p, c);
    }
  }

  /** Given and returned again: the same frames are taken and the same pages present as before. */
  lemma GivenReturned(es: seq<Word32>, fs: seq<Word32>, gs: seq<Word32>, m: seq<Word32>, w: seq<Word32>, x: seq<Word32>, blocks: nat,
                      s: nat, n: nat, got: seq<nat>)
    requires Given(es, fs, m, w, blocks, s, n, got) && |got| == n && Returned(fs, gs, w, x, s, n) && RunIn(es, s, n) && |x| == |m|
    ensures x == m && forall p :: 0 <= p < SPACE ==> Present(gs[p]) == Present(es[p])
  {
    hide TakenIn, FrameAddr;
    forall p: nat | s <= p < s + n ensures FrameAddr(fs[p]) / PAGE == got[p - s] {
      assert HasFrame(fs[s + (p - s)], FrameFor(got, p - s));
    }
    forall f: nat ensures TakenIn(x, f) == TakenIn(m, f) {
      if f in got {
        var k :| 0 <= k < n && got[k] == f;
        assert HasFrame(fs[s + k], FrameFor(got, k)) && f in FreeFrames(m, blocks);
        assert FrameIn(fs, s, n, f);
      }
    }
    SameFrames(m, x);
  }

  // ---------------------------------------------------------------- the address space

  class Memory {
    const frames: FrameMap
    /** Entry j of page table i maps page 1024 * i + j. */
    const tables: array2<Word32>
    /** The words the heap keeps in front of its allocations, by virtual address. */
    var words: map<nat, nat>
    /** The allocations that are not freed yet, by their first page. */
    ghost var regions: map<nat, Region>

    /** vm_init: the first 4 MiB are mapped to themselves, the next 4 MiB show the page tables. */
    constructor (blocks: nat)
      requires 2048 <= Scanned(blocks) && blocks <= 0x8_0000
      ensures Valid() && fresh(frames) && fresh(frames.words) && fresh(tables) && regions == map[] && words == map[]
      ensures frames.blocks == blocks && frames.used == 2048
      ensures forall p :: 0 <= p < SPACE ==> (Mapped(p) <==> p < 2 * PER_TABLE) && (p < PER_TABLE ==> FrameOf(p) == p)
    {
      frames := new FrameMap(blocks);
      tables := new Word32[PER_DIR, PER_TABLE]((_, _) => 0);
      words, regions := map[], map[];
      new;
      InitTables();
    }

    ghost predicate Sized()
    {
      tables.Length0 == PER_DIR && tables.Length1 == PER_TABLE
    }

    function EntryOf(p: nat): Word32
      requires tables.Length0 == PER_DIR && tables.Length1 == PER_TABLE && p < SPACE
      reads tables
    {
      tables[p / PER_TABLE, p % PER_TABLE]
    }

    predicate Mapped(p: nat)
      requires tables.Length0 == PER_DIR && tables.Length1 == PER_TABLE
      reads tables
    {
      p < SPACE && Present(EntryOf(p))
    }

    function FrameOf(p: nat): nat
      requires tables.Length0 == PER_DIR && tables.Length1 == PER_TABLE && p < SPACE
      reads tables
    {
      FrameAddr(EntryOf(p)) / PAGE
    }

    predicate MapsTo(p: nat, f: nat)
      requires tables.Length0 == PER_DIR && tables.Length1 == PER_TABLE
      reads tables
    {
      Mapped(p) && FrameOf(p) == f
    }

    /** n pages from s on, none of them mapped. */
    ghost predicate FreeRun(s: nat, n: nat)
      requires tables.Length0 == PER_DIR && tables.Length1 == PER_TABLE
      reads tables
    {
      s + n <= SPACE && forall p :: s <= p < s + n ==> !Mapped(p)
    }

    /** All page table entries, by page. */
    ghost function Entries(): (es: seq<Word32>)
      requires Sized()
      reads tables
      ensures |es| == SPACE && forall p :: 0 <= p < SPACE ==> es[p] == EntryOf(p)
    {
      seq<Word32>(SPACE, p requires 0 <= p < SPACE reads tables requires Sized() => EntryOf(p))
    }

    ghost predicate Valid()
      reads this, tables, frames, frames.words
    {
      Sized() && frames.Valid() && Mapped(0) && HeapGood(Entries(), words, regions, frames.words[..], frames.blocks)
    }

    /** vm_find_free: the address of the lowest run of n unmapped pages, also across page tables; 0 when there is none. */
    method FindFree(n: nat) returns (v: nat)
      requires Sized() && Mapped(0) && n >= 1
      ensures v == 0 ==> forall s: nat :: !FreeRun(s, n)
      ensures v != 0 ==> v % PAGE == 0 && FreeRun(v / PAGE, n) && forall s: nat :: s < v / PAGE ==> !FreeRun(s, n)
    {
      hide Memory.Mapped, Memory.EntryOf, Memory.FreeRun, Memory.Scan;
      v := 0;
      ScanNothing(n);
      var count, i := 0, 0;
      while i < PER_DIR
        invariant i <= PER_DIR && Scan(i * PER_TABLE, count, n, v)
      {
        var j := 0;
        while j < PER_TABLE
          invariant j <= PER_TABLE && Scan(i * PER_TABLE + j, count, n, v)
        {
          ghost var p := i * PER_TABLE + j;
          PageAt(i, j);
          ScanCounts(p, count, n, v);
          if tables[i, j] % 2 != 1 {
            ghost var before := v;
            if count == 0 {
              v := i * PER_TABLE * PAGE + j * PAGE;
            }
            ScanFree(p, count, n, before, v);
            count := count + 1;
            if count == n {
              return;
            }
          } else {
            ScanMapped(p, count, n, v);
            count := 0;
          }
          j := j + 1;
        }
        i := i + 1;
      }
      NoRun(n, count, v);
      return 0;
    }

    /** Pages below p were scanned: the last count of them are free, and no run of n ends among them. */
    ghost predicate Scan(p: nat, count: nat, n: nat, v: nat)
      requires Sized()
      reads this, tables
    {
      && p <= SPACE && count < n && count <= p && (forall q :: p - count <= q < p ==> !Mapped(q))
      && (count < p ==> Mapped(p - count - 1)) && (count > 0 ==> v == (p - count) * PAGE)
      && (forall s: nat :: s + n <= p ==> !FreeRun(s, n)) && (count == p ==> p == 0)
    }

    lemma PageAt(i: nat, j: nat)
      requires Sized() && i < PER_DIR && j < PER_TABLE
      ensures var p := i * PER_TABLE + j;
              p < SPACE && EntryOf(p) == tables[i, j] && (Mapped(p) <==> tables[i, j] % 2 == 1)
              && i * PER_TABLE * PAGE + j * PAGE == p * PAGE
    {}

    lemma ScanNothing(n: nat)
      requires Sized() && n >= 1
      ensures Scan(0, 0, n, 0)
    {
    }

    lemma ScanCounts(p: nat, count: nat, n: nat, v: nat)
      requires Sized() && Scan(p, count, n, v)
      ensures p <= SPACE && count < n && count <= p && forall s: nat :: s + n <= p ==> !FreeRun(s, n)
    {}

    /** A free page: the run grows, and when it reaches n pages it is the lowest of that length. */
    lemma ScanFree(p: nat, count: nat, n: nat, before: nat, v: nat)
      requires Sized() && p < SPACE && !Mapped(p) && Mapped(0) && Scan(p, count, n, before)
      requires v == if count == 0 then p * PAGE else before
      ensures count + 1 < n ==> Scan(p + 1, count + 1, n, v)
      ensures count + 1 == n ==> v != 0 && v % PAGE == 0 && FreeRun(v / PAGE, n) && forall s: nat :: s < v / PAGE ==> !FreeRun(s, n)
    {
      assert v == (p - count) * PAGE && v / PAGE == p - count;
      assert count < p;
      if count + 1 < n {
        assert Mapped(p - count - 1);
        forall s: nat | s + n <= p + 1 ensures !FreeRun(s, n) {}
      }
    }

    lemma ScanMapped(p: nat, count: nat, n: nat, v: nat)
      requires Sized() && p < SPACE && Mapped(p) && n >= 1 && (forall s: nat :: s + n <= p ==> !FreeRun(s, n))
      ensures Scan(p + 1, 0, n, v)
    {
      forall s: nat | s + n <= p + 1 ensures !FreeRun(s, n) {}
    }

    lemma NoRun(n: nat, count: nat, v: nat)
      requires Sized() && Scan(SPACE, count, n, v)
      ensures forall s: nat :: !FreeRun(s, n)
    {
      forall s: nat ensures !FreeRun(s, n) {
        assert s + n <= SPACE ==> !FreeRun(s, n);
      }
    }
  
    /** A frame for each of the 1024 page tables. */
    method TableFrames() returns (dir: seq<nat>)
      requires frames.Valid() && frames.used == 1024 && 2048 <= Scanned(frames.blocks)
      modifies frames`used, frames.words
      ensures frames.Valid() && frames.used == 2048 && |dir| == PER_DIR
      ensures forall k :: 0 <= k < PER_DIR ==> dir[k] % PAGE == 0 && dir[k] < 0x8000_0000
    {
      dir := [];
      var i := 0;
      while i < PER_DIR
        invariant i <= PER_DIR && frames.Valid() && frames.used == 1024 + i && |dir| == i
        invariant forall k :: 0 <= k < i ==> dir[k] % PAGE == 0 && dir[k] < 0x8000_0000
      {
        assert FreeFrames(frames.words[..], frames.blocks) != {};
        var table := frames.Alloc();
        FrameFits(frames.blocks, table / PAGE);
        dir := dir + [table];
        i := i + 1;
      }
    }

    lemma FrameFits(blocks: nat, f: nat)
      ensures f < Scanned(blocks) && blocks <= 0x8_0000 ==> f * PAGE < 0x8000_0000
    {}

    /** Table 0 maps the first 4 MiB to themselves. */
    method IdentityTable()
      requires Sized() && forall i, j :: 0 <= i < PER_DIR && 0 <= j < PER_TABLE ==> tables[i, j] == 0
      modifies tables
      ensures forall k, j :: 0 <= k < PER_DIR && 0 <= j < PER_TABLE ==> tables[k, j] == if k == 0 then j * PAGE + 3 else 0
    {
      var i := 0;
      while i < PER_TABLE
        invariant i <= PER_TABLE
        invariant forall k, j :: 0 <= k < PER_DIR && 0 <= j < PER_TABLE ==>
                    tables[k, j] == if k == 0 && j < i then j * PAGE + 3 else 0
      {
        tables[0, i] := i * PAGE + 3;
        i := i + 1;
      }
    }

    /** Table 1 shows the page tables. */
    method WindowTable(dir: seq<nat>)
      requires Sized() && |dir| == PER_DIR && forall k :: 0 <= k < PER_DIR ==> dir[k] % PAGE == 0 && dir[k] < 0x8000_0000
      modifies tables
      ensures forall k, j :: 0 <= k < PER_DIR && 0 <= j < PER_TABLE && k != 1 ==> tables[k, j] == old(tables[k, j])
      ensures forall j :: 0 <= j < PER_TABLE ==> Present(tables[1, j])
    {
      var i := 0;
      while i < PER_TABLE
        invariant i <= PER_TABLE
        invariant forall k, j :: 0 <= k < PER_DIR && 0 <= j < PER_TABLE && k != 1 ==> tables[k, j] == old(tables[k, j])
        invariant forall j :: 0 <= j < i ==> Present(tables[1, j])
      {
        tables[1, i] := dir[i] + 3;
        OddEntry(dir[i]);
        i := i + 1;
      }
    }

    lemma OddEntry(a: nat)
      requires a % PAGE == 0
      ensures (a + 3) % 2 == 1
    {}

    /** The loops of vm_init. */
    method InitTables()
      requires Sized() && frames.Valid() && frames.used == 1024 && 2048 <= Scanned(frames.blocks)
      requires forall i, j :: 0 <= i < PER_DIR && 0 <= j < PER_TABLE ==> tables[i, j] == 0
      modifies frames`used, frames.words, tables
      ensures frames.Valid() && frames.used == 2048
      ensures forall p :: 0 <= p < SPACE ==> (Mapped(p) <==> p < 2 * PER_TABLE) && (p < PER_TABLE ==> FrameOf(p) == p)
    {
      var dir := TableFrames();
      IdentityTable();
      WindowTable(dir);
      forall p | 0 <= p < SPACE ensures (Mapped(p) <==> p < 2 * PER_TABLE) && (p < PER_TABLE ==> FrameOf(p) == p) {
        InitialEntry(p);
        assert EntryOf(p) == tables[p / PER_TABLE, p % PER_TABLE];
      }
    }

    lemma InitialEntry(p: nat)
      requires p < SPACE
      ensures p / PER_TABLE < PER_DIR && (p / PER_TABLE == 0 <==> p < PER_TABLE) && (p / PER_TABLE <= 1 <==> p < 2 * PER_TABLE)
      ensures p < PER_TABLE ==> p % PER_TABLE == p && p * PAGE + 3 < 0x1_0000_0000 && FrameAddr(p * PAGE + 3) / PAGE == p && Present(p * PAGE + 3)
    {
      if p < PER_TABLE { assert (p * PAGE + 3) / PAGE == p; }
    }
  
    // -------------------------------------------------------------- mapping and unmapping one page

    /** vm_map_page */
    method MapPage(phys: nat, p: nat)
      requires Sized() && p < SPACE && phys % PAGE == 0 && phys < 0x8000_0000
      modifies tables
      ensures Mapped(p) && FrameOf(p) == phys / PAGE
      ensures forall q :: 0 <= q < SPACE && q != p ==> EntryOf(q) == old(EntryOf(q))
    {
      OtherEntry(p);
      tables[p / PER_TABLE, p % PER_TABLE] := AddPresent(SetFrame(tables[p / PER_TABLE, p % PER_TABLE], phys));
    }

    lemma OtherEntry(p: nat)
      ensures forall q: nat :: q != p ==> q / PER_TABLE != p / PER_TABLE || q % PER_TABLE != p % PER_TABLE
    {}

    /** vm_free_page of a mapped page: its frame is freed, the present bit goes. */
    method FreePage(p: nat)
      requires Sized() && frames.Valid() && Mapped(p) && 0 < FrameOf(p) < Scanned(frames.blocks)
      requires TakenIn(frames.words[..], FrameOf(p))
      modifies frames`used, frames.words, tables
      ensures frames.Valid() && frames.used == old(frames.used) - 1 && !Mapped(p)
      ensures frames.words[..] == WithoutFrame(old(frames.words[..]), old(FrameOf(p)))
      ensures forall q :: 0 <= q < SPACE && q != p ==> EntryOf(q) == old(EntryOf(q))
    {
      OtherEntry(p);
      var e := tables[p / PER_TABLE, p % PER_TABLE];
      var phys := FrameAddr(e);
      if phys != 0 {
        frames.Free(phys);
      }
      tables[p / PER_TABLE, p % PER_TABLE] := FlipPresent(e);
    }

    // -------------------------------------------------------------- vmalloc

    lemma FrameLimits(m: seq<Word32>, blocks: nat)
      requires frames.Valid() && m == frames.words[..] && blocks == frames.blocks
      ensures forall f :: f in FreeFrames(m, blocks) ==> f * PAGE < 0x8000_0000 && f / WORD_BITS < |m| && 0 < f < Scanned(blocks)
      ensures TakenIn(m, 0)
    {}

    /** n frames mapped, one by one, to the pages from s on; once there are none left, frame 0. */
    method MapRun(s: nat, n: nat) returns (ghost got: seq<nat>)
      requires Sized() && frames.Valid() && FreeRun(s, n)
      modifies frames`used, frames.words, tables
      ensures frames.Valid() && frames.used == old(frames.used) + |got|
      ensures var all := |FreeFrames(old(frames.words[..]), frames.blocks)|; |got| == if n < all then n else all
      ensures Fresh(got, FreeFrames(old(frames.words[..]), frames.blocks))
      ensures forall f: nat :: TakenIn(frames.words[..], f) <==> TakenIn(old(frames.words[..]), f) || f in got
      ensures forall k :: 0 <= k < n ==> MapsTo(s + k, FrameFor(got, k))
      ensures forall q :: 0 <= q < SPACE && !(s <= q < s + n) ==> EntryOf(q) == old(EntryOf(q))
    {
      hide Memory.EntryOf, TakenIn, WithFrame, FreeFrames, Scanned, FrameMap.Valid;
      got := [];
      var i := 0;
      ghost var free := FreeFrames(frames.words[..], frames.blocks);
      while i < n
        invariant i <= n && |got| <= i && frames.Valid() && frames.used == old(frames.used) + |got| && Fresh(got, free)
        invariant |FreeFrames(frames.words[..], frames.blocks)| == |free| - |got| && FreeFrames(frames.words[..], frames.blocks) <= free
        invariant |got| < i ==> |got| == |free|
        invariant forall k :: 0 <= k < |got| ==> got[k] !in FreeFrames(frames.words[..], frames.blocks)
        invariant forall f: nat :: TakenIn(frames.words[..], f) <==> TakenIn(old(frames.words[..]), f) || f in got
        invariant forall k :: 0 <= k < i ==> MapsTo(s + k, FrameFor(got, k))
        invariant forall q :: 0 <= q < SPACE && !(s <= q < s + i) ==> EntryOf(q) == old(EntryOf(q))
      {
        ghost var before := frames.words[..];
        FrameLimits(before, frames.blocks);
        var paddr := frames.Alloc();
        ghost var f := paddr / PAGE;
        if paddr != 0 {
          forall g: nat ensures TakenIn(frames.words[..], g) <==> g == f || TakenIn(before, g) { FrameSet(before, f, g); }
        }
        label Before:
        MapPage(paddr, s + i);
        forall k | 0 <= k < i ensures MapsTo(s + k, FrameFor(got, k)) {
          assert EntryOf(s + k) == old@Before(EntryOf(s + k));
          assert old@Before(MapsTo(s + k, FrameFor(got, k)));
        }
        if paddr != 0 {
          ghost var had := got;
          got := got + [f];
          assert |had| == i && forall k :: 0 <= k < i ==> FrameFor(got, k) == FrameFor(had, k);
        }
        i := i + 1;
      }
    }

    /**
     * vmalloc: the lowest run of unmapped pages that is long enough gets fresh frames and a header. With too few frames the
     * call succeeds all the same, pages share frame 0, and the heap is no longer in order.
     */
    method Vmalloc(size: Word32) returns (r: nat, ghost got: seq<nat>)
      requires Valid()
      modifies this`words, this`regions, frames`used, frames.words, tables
      ensures var n, all := PagesFor((size + HEADER) % 0x1_0000_0000), |FreeFrames(old(frames.words[..]), frames.blocks)|;
              (Valid() <==> r == 0 || n <= all) && (r != 0 ==> |got| == if n < all then n else all)
      ensures Sized() && frames.Valid()
      ensures var n := PagesFor((size + HEADER) % 0x1_0000_0000);
              r == 0 <==> n == 0 || forall s: nat :: !RunIn(old(Entries()), s, n)
      ensures r == 0 ==> regions == old(regions) && frames.words[..] == old(frames.words[..]) && frames.used == old(frames.used)
                         && Entries() == old(Entries())
      ensures var n := PagesFor((size + HEADER) % 0x1_0000_0000);
              r != 0 ==>
                var s := (r - HEADER) / PAGE;
                r == s * PAGE + HEADER && LowestRun(old(Entries()), s, n) && s !in old(regions)
                && regions == old(regions)[s := Region(n, size)] && frames.used == old(frames.used) + |got|
                && Given(old(Entries()), Entries(), old(frames.words[..]), frames.words[..], frames.blocks, s, n, got)
    {
      hide Memory.EntryOf, TakenIn, FreeFrames, Scanned, FrameMap.Valid, HeapGood, Memory.Mapped;
      got := [];
      var total := (size + HEADER) % 0x1_0000_0000;
      WrapsBack(size);
      var n := PagesFor(total);
      if total == 0 {
        return 0, [];
      }
      MappedIs();
      ghost var es, m := Entries(), frames.words[..];
      var v := FindFree(n);
      assert Entries() == es;
      RunsAre(n);
      if v == 0 {
        return 0, [];
      }
      ghost var s := v / PAGE;
      FrameLimits(m, frames.blocks);
      got := MapRun(v / PAGE, n);
      GivenIs(es, m, s, n, got);
      MappedIs();
      words := words[v := n];
      words := words[v + 4 := (total - 16) % 0x1_0000_0000];
      ghost var region := Region(n, size);
      regions := regions[s := region];
      FreeOfRegions(es, old(words), old(regions), m, frames.blocks, s, n);
      if |got| == n {
        GivenGood(es, Entries(), m, frames.words[..], frames.blocks, s, n, got, old(words), old(regions), words, region);
      } else {
        GivenShort(es, Entries(), m, frames.words[..], frames.blocks, s, n, got, old(regions), words, region);
      }
      return v + HEADER, got;
    }

    lemma WrapsBack(size: Word32)
      ensures ((size + HEADER) % 0x1_0000_0000 - HEADER) % 0x1_0000_0000 == size
    {}

    lemma RunsAre(n: nat)
      requires Sized()
      ensures forall s: nat :: FreeRun(s, n) <==> RunIn(Entries(), s, n)
    {
      MappedIs();
      hide Memory.Mapped, Memory.EntryOf;
    }

    lemma MappedIs()
      requires Sized()
      ensures forall p :: 0 <= p < SPACE ==> (Mapped(p) <==> Present(Entries()[p]))
    {}

    lemma GivenIs(es: seq<Word32>, m: seq<Word32>, s: nat, n: nat, got: seq<nat>)
      requires Sized() && |es| == SPACE && s + n <= SPACE && |got| <= n
      requires Fresh(got, FreeFrames(m, frames.blocks))
      requires forall f: nat :: TakenIn(frames.words[..], f) <==> TakenIn(m, f) || f in got
      requires forall k :: 0 <= k < n ==> MapsTo(s + k, FrameFor(got, k))
      requires forall q :: 0 <= q < SPACE && !(s <= q < s + n) ==> EntryOf(q) == es[q]
      ensures Given(es, Entries(), m, frames.words[..], frames.blocks, s, n, got)
    {
      forall k | 0 <= k < n ensures HasFrame(Entries()[s + k], FrameFor(got, k)) {
        assert MapsTo(s + k, FrameFor(got, k));
      }
    }
  
    // -------------------------------------------------------------- vfree and vsize

    /** vfree: the pages the header counts are unmapped and their frames given back. */
    method Vfree(addr: nat)
      requires Valid() && addr >= HEADER && (addr - HEADER) % PAGE == 0 && (addr - HEADER) / PAGE in regions
      modifies this`regions, frames`used, frames.words, tables
      ensures Valid()
      ensures var s := (addr - HEADER) / PAGE;
              regions == old(regions) - {s} && frames.used == old(frames.used) - old(regions)[s].pages
              && Returned(old(Entries()), Entries(), old(frames.words[..]), frames.words[..], s, old(regions)[s].pages)
    {
      hide Memory.EntryOf, TakenIn, FreeFrames, Scanned, FrameMap.Valid, HeapGood, Memory.Mapped, Returned;
      ghost var es, m, s := Entries(), frames.words[..], (addr - HEADER) / PAGE;
      var vaddr := addr - HEADER;
      HeaderThere(es, words, regions, m, frames.blocks, s);
      var pages, i := words[vaddr], 0;
      ReturnedNone(es, m, s);
      MappedIs();
      while i < pages
        invariant i <= pages && Sized() && frames.Valid() && frames.used == old(frames.used) - i
        invariant words == old(words) && regions == old(regions)
        invariant Returned(es, Entries(), m, frames.words[..], s, i)
      {
        StillBacked(es, Entries(), words, regions, m, frames.words[..], frames.blocks, s, i);
        BackedIs(s + i);
        ghost var fs, w := Entries(), frames.words[..];
        InsideMap(FrameOf(s + i));
        FreePage(vaddr / PAGE + i);
        MappedIs();
        ReturnedOne(es, fs, Entries(), m, w, frames.words[..], s, i);
        i := i + 1;
      }
      ReturnedGood(es, Entries(), words, regions, m, frames.words[..], frames.blocks, s);
      ZeroKept(es, Entries(), m, frames.words[..], s, pages);
      MappedIs();
      regions := regions - {s};
    }

    lemma ZeroKept(es: seq<Word32>, fs: seq<Word32>, m: seq<Word32>, w: seq<Word32>, s: nat, n: nat)
      requires Returned(es, fs, m, w, s, n) && s > 0
      ensures fs[0] == es[0]
    {}

    lemma HeaderThere(es: seq<Word32>, ws: map<nat, nat>, rs: map<nat, Region>, m: seq<Word32>, blocks: nat, s: nat)
      requires HeapGood(es, ws, rs, m, blocks) && s in rs
      ensures HasHeader(ws, s, rs[s]) && s > 0 && s + rs[s].pages <= SPACE
    {
      assert Headed(ws, s, rs[s]);
    }

    lemma InsideMap(f: nat)
      requires frames.Valid()
      ensures f < Scanned(frames.blocks) ==> f / WORD_BITS < |frames.words[..]|
    {}

    lemma BackedIs(p: nat)
      requires Sized() && p < SPACE && Backed(Entries()[p], frames.words[..], frames.blocks)
      ensures Mapped(p) && 0 < FrameOf(p) < Scanned(frames.blocks) && TakenIn(frames.words[..], FrameOf(p))
    {}

    /** vsize: of a live allocation, whatever was allocated and freed since, the size that was asked for. */
    method Vsize(addr: nat) returns (size: nat)
      requires Valid() && addr >= HEADER && (addr - HEADER) % PAGE == 0 && (addr - HEADER) / PAGE in regions
      ensures size == regions[(addr - HEADER) / PAGE].size
    {
      hide Memory.EntryOf, FrameMap.Valid, HeapGood, Memory.Mapped;
      HeaderThere(Entries(), words, regions, frames.words[..], frames.blocks, (addr - HEADER) / PAGE);
      size := words[addr - HEADER + 4];
    }

    /** vfree(vmalloc(size)) leaves the present bits, the frame bitmap and the counter as they were. */
    method VmallocVfree(size: Word32)
      requires Valid() && |FreeFrames(frames.words[..], frames.blocks)| >= PagesFor((size + HEADER) % 0x1_0000_0000)
      modifies this`words, this`regions, frames`used, frames.words, tables
      ensures Valid() && regions == old(regions) && frames.words[..] == old(frames.words[..]) && frames.used == old(frames.used)
      ensures forall p :: 0 <= p < SPACE ==> Present(Entries()[p]) == Present(old(Entries())[p])
    {
      hide Memory.EntryOf, TakenIn, FreeFrames, Scanned, FrameMap.Valid, HeapGood, Memory.Mapped, Returned, Given, LowestRun;
      ghost var es, m, n := Entries(), frames.words[..], PagesFor((size + HEADER) % 0x1_0000_0000);
      var r, got := Vmalloc(size);
      if r != 0 {
        ghost var fs, w, s := Entries(), frames.words[..], (r - HEADER) / PAGE;
        LowestIsRun(es, s, n);
        Vfree(r);
        SameLength(m);
        GivenReturned(es, fs, Entries(), m, w, frames.words[..], frames.blocks, s, n, got);
        assert old(regions)[s := Region(n, size)] - {s} == old(regions);
      }
    }

    lemma LowestIsRun(es: seq<Word32>, s: nat, n: nat)
      requires LowestRun(es, s, n)
      ensures RunIn(es, s, n)
    {}

    lemma SameLength(m: seq<Word32>)
      requires frames.Valid()
      ensures |frames.words[..]| == BITMAP_WORDS
    {}
  
    /** Two live allocations share no page and no frame. */
    lemma LiveAllocationsApart(b: nat, c: nat, p: nat, q: nat)
      requires Valid() && b in regions && c in regions && b != c && b <= p < b + regions[b].pages && c <= q < c + regions[c].pages
      ensures p != q && p < SPACE && q < SPACE && FrameOf(p) != FrameOf(q)
    {
      assert Headed(words, b, regions[b]) && Headed(words, c, regions[c]);
      assert In(regions, p, b) && In(regions, q, c);
      hide FrameAddr;
      assert FrameAddr(Entries()[p]) != FrameAddr(Entries()[q]);
      if FrameOf(p) == FrameOf(q) { SameAddr(EntryOf(p), EntryOf(q)); }
    }
  }
}
