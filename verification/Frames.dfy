/** The physical frame allocator (kernel/mm/pmm.c, include/memory.h): a bitmap of 32-bit words and a counter. */
module Frames {
  import opened Bytes

  const WORD_BITS: nat := 32
  const PAGE: nat := 4096
  const BITMAP_WORDS: nat := 32768

  // ---------------------------------------------------------------- words as sets of bits

  /** A word of n bits is determined by them. */
  lemma {:induction false} BitsDetermine(x: nat, y: nat, n: nat)
    requires x < Pow2(n) && y < Pow2(n) && forall k :: 0 <= k < n ==> TestBit(x, k) == TestBit(y, k)
    ensures x == y
  {
    if n > 0 {
      assert TestBit(x, 0) == TestBit(y, 0);
      forall k | 0 <= k < n - 1 ensures TestBit(x / 2, k) == TestBit(y / 2, k) {
        assert TestBit(x, k + 1) == TestBit(y, k + 1);
      }
      BitsDetermine(x / 2, y / 2, n - 1);
    }
  }

  lemma WordLimit()
    ensures Pow2(32) == 0x1_0000_0000
  {
    assert Pow2(8) == 256;
    assert Pow2(16) == 65536;
    assert Pow2(24) == 16777216;
  }

  /** Frame f is taken. */
  predicate TakenIn(m: seq<Word32>, f: nat) {
    f / WORD_BITS < |m| && TestBit(m[f / WORD_BITS], f % WORD_BITS)
  }

  /** mmap_set and mmap_unset on the whole map. */
  function WithFrame(m: seq<Word32>, f: nat): (r: seq<Word32>)
    requires f / WORD_BITS < |m|
  {
    WordLimit();
    BitOpsBounded(m[f / WORD_BITS], f % WORD_BITS, 32);
    m[f / WORD_BITS := SetBit(m[f / WORD_BITS], f % WORD_BITS)]
  }

  function WithoutFrame(m: seq<Word32>, f: nat): (r: seq<Word32>)
    requires f / WORD_BITS < |m|
  {
    WordLimit();
    BitOpsBounded(m[f / WORD_BITS], f % WORD_BITS, 32);
    m[f / WORD_BITS := ClearBit(m[f / WORD_BITS], f % WORD_BITS)]
  }

  lemma FrameSet(m: seq<Word32>, f: nat, g: nat)
    requires f / WORD_BITS < |m|
    ensures TakenIn(WithFrame(m, f), g) <==> g == f || TakenIn(m, g)
    ensures TakenIn(WithoutFrame(m, f), g) <==> g != f && TakenIn(m, g)
  {
    if g / WORD_BITS == f / WORD_BITS {
      SetBitTests(m[f / WORD_BITS], f % WORD_BITS, g % WORD_BITS);
      ClearBitTests(m[f / WORD_BITS], f % WORD_BITS, g % WORD_BITS);
    }
  }

  /** Maps with the same frames taken are the same words. */
  lemma SameFrames(m: seq<Word32>, n: seq<Word32>)
    requires |m| == |n| && forall f: nat :: TakenIn(m, f) == TakenIn(n, f)
    ensures m == n
  {
    WordLimit();
    forall i | 0 <= i < |m| ensures m[i] == n[i] {
      forall k | 0 <= k < 32 ensures TestBit(m[i], k) == TestBit(n[i], k) {
        var f := i * WORD_BITS + k;
        assert f / WORD_BITS == i && f % WORD_BITS == k;
        assert TakenIn(m, f) == TakenIn(n, f);
      }
      BitsDetermine(m[i], n[i], 32);
    }
  }

  // ---------------------------------------------------------------- the allocator

  /** Frames that the scan looks at: whole words only. */
  function Scanned(blocks: nat): nat {
    blocks / WORD_BITS * WORD_BITS
  }

  /** The free frames the scan can find. */
  ghost function FreeFrames(m: seq<Word32>, blocks: nat): set<nat> {
    set f: nat | f < Scanned(blocks) && !TakenIn(m, f)
  }

  class FrameMap {
    const words: array<Word32>
    var blocks: nat
    var used: nat

    /** The counter and the clear bits add up; frame 0 is never handed out. */
    ghost predicate Valid()
      reads this, words
    {
      && words.Length == BITMAP_WORDS && 1024 <= blocks <= 0x8_0000 && TakenIn(words[..], 0)
      && used + |FreeFrames(words[..], blocks)| == Scanned(blocks)
    }

    constructor (blocks: nat)
      requires 1024 <= blocks <= 0x8_0000
      ensures Valid() && this.blocks == blocks && used == 1024 && fresh(words)
      ensures forall f: nat :: f < Scanned(blocks) ==> (TakenIn(words[..], f) <==> f < 1024)
    {
      words := new Word32[BITMAP_WORDS](_ => 0);
      this.blocks := blocks;
      used := 1024;
      new;
      var i := 0;
      while i < 32
        modifies words
        invariant i <= 32
        invariant forall k :: 0 <= k < BITMAP_WORDS ==> words[k] == if k < i then 0xFFFF_FFFF else 0
      {
        words[i] := 0xFFFF_FFFF;
        i := i + 1;
      }
      while i < blocks / 32
        modifies words
        invariant i >= 32
        invariant forall k :: 0 <= k < BITMAP_WORDS ==> words[k] == if k < 32 then 0xFFFF_FFFF else 0
      {
        words[i] := 0;
        i := i + 1;
      }
      InitialFrames(words[..], blocks);
    }

    /** mmap_get_first_free: the lowest free frame, word by word; all-ones words are skipped. */
    method FirstFree() returns (found: bool, frame: nat)
      requires Valid()
      ensures found == (FreeFrames(words[..], blocks) != {})
      ensures found ==> frame in FreeFrames(words[..], blocks) && forall g :: 0 <= g < frame ==> TakenIn(words[..], g)
    {
      var i := 0;
      while i < blocks / 32
        invariant i <= blocks / 32 && forall g :: 0 <= g < i * 32 ==> TakenIn(words[..], g)
      {
        if words[i] != 0xFFFF_FFFF {
          NotFull(words[..], i);
          frame := i * 32;
          while frame < (i + 1) * 32
            invariant i * 32 <= frame <= (i + 1) * 32 && forall g :: 0 <= g < frame ==> TakenIn(words[..], g)
          {
            if !TestBit(words[frame / 32], frame % 32) {
              assert !TakenIn(words[..], frame) && frame in FreeFrames(words[..], blocks);
              return true, frame;
            }
            frame := frame + 1;
          }
        } else {
          FullWord(words[..], i);
        }
        i := i + 1;
      }
      return false, 0;
    }

    /** pm_alloc: the address of the lowest free frame, 0 when there is none. */
    method Alloc() returns (addr: nat)
      requires Valid()
      modifies this`used, words
      ensures Valid() && (addr == 0 <==> FreeFrames(old(words[..]), blocks) == {})
      ensures addr == 0 ==> words[..] == old(words[..]) && used == old(used)
      ensures addr != 0 ==>
                var f := addr / PAGE;
                addr == f * PAGE && f in FreeFrames(old(words[..]), blocks) && used == old(used) + 1
                && words[..] == WithFrame(old(words[..]), f)
                && FreeFrames(words[..], blocks) == FreeFrames(old(words[..]), blocks) - {f}
                && forall g :: 0 <= g < f ==> TakenIn(old(words[..]), g)
    {
      if blocks - used == 0 {
        return 0;
      }
      var found, frame := FirstFree();
      if !found {
        return 0;
      }
      ghost var m := words[..];
      WordLimit();
      BitOpsBounded(words[frame / 32], frame % 32, 32);
      words[frame / 32] := SetBit(words[frame / 32], frame % 32);
      assert words[..] == WithFrame(m, frame);
      used := used + 1;
      OneTaken(m, blocks, frame);
      return frame * PAGE;
    }

    /**
     * pm_free: the frame's bit is cleared and the counter lowered, whatever the frame is. The two agree afterwards exactly
     * when the frame was taken and is one that the scan can find again.
     */
    method Free(addr: nat)
      requires Valid() && addr < 0x1_0000_0000
      modifies this`used, words
      ensures used == old(used) - 1 && words[..] == WithoutFrame(old(words[..]), addr / PAGE)
      ensures Valid() <==> 0 < addr / PAGE < Scanned(blocks) && TakenIn(old(words[..]), addr / PAGE)
      ensures 0 < addr / PAGE < Scanned(blocks) ==>
                FreeFrames(words[..], blocks) == FreeFrames(old(words[..]), blocks) + {addr / PAGE}
    {
      var frame := addr / PAGE;
      ghost var m := words[..];
      SomeUsed(m, blocks);
      WordLimit();
      BitOpsBounded(words[frame / 32], frame % 32, 32);
      words[frame / 32] := ClearBit(words[frame / 32], frame % 32);
      assert words[..] == WithoutFrame(m, frame);
      FreedFrames(m, blocks, frame);
      used := used - 1;
    }
  }

  lemma NotFull(m: seq<Word32>, i: nat)
    requires i < |m| && m[i] != 0xFFFF_FFFF
    ensures exists k :: 0 <= k < 32 && !TestBit(m[i], k)
  {
    WordLimit();
    AllOnes(m[i], 32);
  }

  lemma FullWord(m: seq<Word32>, i: nat)
    requires i < |m| && m[i] == 0xFFFF_FFFF
    ensures forall g :: i * 32 <= g < (i + 1) * 32 ==> TakenIn(m, g)
  {
    WordLimit();
    AllOnes(m[i], 32);
  }

  lemma OneTaken(m: seq<Word32>, blocks: nat, f: nat)
    requires f / WORD_BITS < |m| && f in FreeFrames(m, blocks)
    ensures FreeFrames(WithFrame(m, f), blocks) == FreeFrames(m, blocks) - {f}
    ensures |FreeFrames(WithFrame(m, f), blocks)| == |FreeFrames(m, blocks)| - 1
    ensures forall g: nat :: TakenIn(m, g) ==> TakenIn(WithFrame(m, f), g)
  {
    forall g: nat ensures TakenIn(WithFrame(m, f), g) <==> g == f || TakenIn(m, g) { FrameSet(m, f, g); }
  }

  /** Frame 0 is taken, so some scanned frame is. */
  lemma SomeUsed(m: seq<Word32>, blocks: nat)
    requires TakenIn(m, 0) && Scanned(blocks) > 0
    ensures |FreeFrames(m, blocks)| < Scanned(blocks)
  {
    RangeSize(1, Scanned(blocks));
    assert FreeFrames(m, blocks) <= Range(1, Scanned(blocks));
    SubsetSize(FreeFrames(m, blocks), Range(1, Scanned(blocks)));
  }

  lemma {:induction false} SubsetSize(a: set<nat>, b: set<nat>)
    requires a <= b
    ensures |a| <= |b|
    decreases a
  {
    if a != {} {
      var x :| x in a;
      SubsetSize(a - {x}, b - {x});
    }
  }

  /** Clearing a bit, taken or not, scanned or not: what the scan finds afterwards, and how many. */
  lemma FreedFrames(m: seq<Word32>, blocks: nat, f: nat)
    requires f / WORD_BITS < |m|
    ensures FreeFrames(WithoutFrame(m, f), blocks) == FreeFrames(m, blocks) + if f < Scanned(blocks) then {f} else {}
    ensures |FreeFrames(WithoutFrame(m, f), blocks)| ==
              |FreeFrames(m, blocks)| + if f < Scanned(blocks) && TakenIn(m, f) then 1 else 0
    ensures TakenIn(WithoutFrame(m, f), 0) <==> f != 0 && TakenIn(m, 0)
  {
    forall g: nat ensures TakenIn(WithoutFrame(m, f), g) <==> g != f && TakenIn(m, g) { FrameSet(m, f, g); }
    if f < Scanned(blocks) && !TakenIn(m, f) { assert FreeFrames(m, blocks) + {f} == FreeFrames(m, blocks); }
  }

  /** After pm_init exactly the first 4 MiB are taken. */
  lemma InitialFrames(m: seq<Word32>, blocks: nat)
    requires |m| == BITMAP_WORDS && 1024 <= blocks <= 0x8_0000
    requires forall k :: 0 <= k < |m| ==> m[k] == if k < 32 then 0xFFFF_FFFF else 0
    ensures TakenIn(m, 0) && 1024 + |FreeFrames(m, blocks)| == Scanned(blocks)
    ensures forall f: nat :: f < Scanned(blocks) ==> (TakenIn(m, f) <==> f < 1024)
  {
    WordLimit();
    AllOnes(0xFFFF_FFFF, 32);
    forall f: nat | f < Scanned(blocks) ensures TakenIn(m, f) <==> f < 1024 {
      ZeroBits(f % 32);
    }
    RangeSize(1024, Scanned(blocks));
    assert FreeFrames(m, blocks) == Range(1024, Scanned(blocks));
  }

  lemma {:induction false} ZeroBits(k: nat)
    ensures !TestBit(0, k)
  {
    if k > 0 { ZeroBits(k - 1); }
  }
}
