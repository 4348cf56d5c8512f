/** Little-endian words, memory copies, single bits and strings, as the kernel uses them on raw buffers. */
module Bytes {

  type Byte = x: int | 0 <= x < 256
  type Word16 = x: int | 0 <= x < 0x1_0000
  type Word32 = x: int | 0 <= x < 0x1_0000_0000

  /** The two names that every directory lists for itself and its parent. */
  const DOT: seq<Byte> := [46]
  const DOTDOT: seq<Byte> := [46, 46]

  // ---------------------------------------------------------------- words

  function Le16(b: seq<Byte>, p: nat): Word16
    requires p + 2 <= |b|
  {
    b[p] as int + 256 * b[p + 1] as int
  }

  function Le32(b: seq<Byte>, p: nat): Word32
    requires p + 4 <= |b|
  {
    b[p] as int + 256 * b[p + 1] as int + 65536 * b[p + 2] as int + 16777216 * b[p + 3] as int
  }

  function Enc16(x: Word16): (r: seq<Byte>)
    ensures |r| == 2 && Le16(r, 0) == x
  {
    [x % 256, x / 256]
  }

  function Enc32(x: Word32): (r: seq<Byte>)
    ensures |r| == 4 && Le32(r, 0) == x
  {
    [x % 256, (x / 256) % 256, (x / 65536) % 256, x / 16777216]
  }

  /** The memcpy of w into buffer b at offset p. */
  function Patch(b: seq<Byte>, p: nat, w: seq<Byte>): (r: seq<Byte>)
    requires p + |w| <= |b|
    ensures |r| == |b|
    ensures forall i {:trigger r[i]} :: 0 <= i < |b| ==> r[i] == if p <= i < p + |w| then w[i - p] else b[i]
  {
    b[..p] + w + b[p + |w|..]
  }

  /** What lies beside the bytes written stays. */
  lemma PatchApart(b: seq<Byte>, p: nat, w: seq<Byte>, q: nat, n: nat)
    requires p + |w| <= |b| && q + n <= |b|
    requires p + |w| <= q || q + n <= p
    ensures Patch(b, p, w)[q..q + n] == b[q..q + n]
  {}

  // ---------------------------------------------------------------- strings

  /** Bytes that can be a C string. */
  predicate NulFree(s: seq<Byte>) {
    forall i :: 0 <= i < |s| ==> s[i] != 0
  }

  // ---------------------------------------------------------------- pointer tables

  /** A block read as an array of 32-bit pointers. */
  function AsPtrs(b: seq<Byte>): (r: seq<Word32>)
    ensures |r| == |b| / 4
    ensures forall i {:trigger r[i]} :: 0 <= i < |r| ==> r[i] == Le32(b, 4 * i)
  {
    seq(|b| / 4, i requires 0 <= i < |b| / 4 => Le32(b, 4 * i))
  }

  /** An array of 32-bit pointers laid out as a block. */
  function FromPtrs(p: seq<Word32>): (r: seq<Byte>)
    ensures |r| == 4 * |p|
    ensures AsPtrs(r) == p
  {
    if p == [] then []
    else
      var r := FromPtrs(p[..|p| - 1]) + Enc32(p[|p| - 1]);
      FromPtrsStep(p, r);
      r
  }

  lemma FromPtrsStep(p: seq<Word32>, r: seq<Byte>)
    requires p != [] && |r| == 4 * |p|
    requires AsPtrs(r[..4 * (|p| - 1)]) == p[..|p| - 1]
    requires r[4 * (|p| - 1)..] == Enc32(p[|p| - 1])
    ensures AsPtrs(r) == p
  {
    var m := |p| - 1;
    forall i | 0 <= i < |p| ensures AsPtrs(r)[i] == p[i] {
      if i < m {
        assert r[..4 * m][4 * i..4 * i + 4] == r[4 * i..4 * i + 4];
        assert AsPtrs(r[..4 * m])[i] == Le32(r[..4 * m], 4 * i);
      } else {
        assert forall k :: 0 <= k < 4 ==> r[4 * m..][k] == r[4 * m + k];
      }
    }
  }

  // ---------------------------------------------------------------- bits

  function Pow2(k: nat): (r: nat)
    ensures r > 0
  {
    if k == 0 then 1 else 2 * Pow2(k - 1)
  }

  /** x & (1 << k), as a truth value. */
  predicate TestBit(x: nat, k: nat) {
    if k == 0 then x % 2 == 1 else TestBit(x / 2, k - 1)
  }

  /** x | (1 << k) */
  function SetBit(x: nat, k: nat): nat {
    if k == 0 then x / 2 * 2 + 1 else 2 * SetBit(x / 2, k - 1) + x % 2
  }

  /** x & ~(1 << k) */
  function ClearBit(x: nat, k: nat): nat {
    if k == 0 then x / 2 * 2 else 2 * ClearBit(x / 2, k - 1) + x % 2
  }

  /** Clearing a clear bit changes nothing. */
  lemma {:induction false} ClearOfClear(x: nat, k: nat)
    requires !TestBit(x, k)
    ensures ClearBit(x, k) == x
  {
    if k > 0 { ClearOfClear(x / 2, k - 1); }
  }

  lemma {:induction false} SetBitTests(x: nat, k: nat, j: nat)
    ensures TestBit(SetBit(x, k), j) <==> j == k || TestBit(x, j)
  {
    if k > 0 && j > 0 {
      SetBitTests(x / 2, k - 1, j - 1);
    }
  }

  lemma {:induction false} ClearBitTests(x: nat, k: nat, j: nat)
    ensures TestBit(ClearBit(x, k), j) <==> j != k && TestBit(x, j)
  {
    if k > 0 && j > 0 {
      ClearBitTests(x / 2, k - 1, j - 1);
    }
  }

  /** Clearing a bit that was just set restores the word. */
  lemma {:induction false} ClearUndoesSet(x: nat, k: nat)
    requires !TestBit(x, k)
    ensures ClearBit(SetBit(x, k), k) == x
  {
    if k > 0 {
      ClearUndoesSet(x / 2, k - 1);
      assert SetBit(x, k) / 2 == SetBit(x / 2, k - 1) && SetBit(x, k) % 2 == x % 2;
    }
  }

  /** Neither operation carries out of an n-bit word. */
  lemma {:induction false} BitOpsBounded(x: nat, k: nat, n: nat)
    requires k < n && x < Pow2(n)
    ensures SetBit(x, k) < Pow2(n) && ClearBit(x, k) < Pow2(n)
  {
    if k > 0 {
      BitOpsBounded(x / 2, k - 1, n - 1);
    }
  }

  /** The lowest n bits of x are all set. */
  predicate AllSet(x: nat, n: nat) {
    forall k :: 0 <= k < n ==> TestBit(x, k)
  }

  /** A word of n bits is all ones exactly when every one of its bits tests true. */
  lemma {:induction false} AllOnes(x: nat, n: nat)
    requires x < Pow2(n)
    ensures x == Pow2(n) - 1 <==> AllSet(x, n)
  {
    if n > 0 {
      AllOnes(x / 2, n - 1);
      assert TestBit(x, 0) <==> x % 2 == 1;
      if AllSet(x, n) {
        forall k | 0 <= k < n - 1 ensures TestBit(x / 2, k) {
          assert TestBit(x, k + 1);
        }
      } else if AllSet(x / 2, n - 1) && x % 2 == 1 {
        forall k | 0 <= k < n ensures TestBit(x, k) {
          if k > 0 {
            var j := k - 1;
            assert TestBit(x / 2, j);
          }
        }
      }
    }
  }

  /** The numbers from lo up to, but not including, hi. */
  function Range(lo: nat, hi: nat): (r: set<nat>)
    ensures forall x :: x in r <==> lo <= x < hi
  {
    if lo >= hi then {} else Range(lo, hi - 1) + {hi - 1}
  }

  lemma {:induction false} RangeSize(lo: nat, hi: nat)
    requires lo <= hi
    ensures |Range(lo, hi)| == hi - lo
  {
    if lo < hi { RangeSize(lo, hi - 1); }
  }
}
