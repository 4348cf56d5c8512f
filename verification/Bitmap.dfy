/** Allocation maps: the lowest free entry, counts of free entries, and entries numbered through equal groups. */
module Bitmap {

  /** The lowest number in lo..hi that is not in s, or hi. */
  function LowestOut(s: set<nat>, lo: nat, hi: nat): (r: nat)
    requires lo <= hi
    ensures lo <= r <= hi
    ensures forall k :: lo <= k < r ==> k in s
    ensures r < hi ==> r !in s
    decreases hi - lo
  {
    if lo == hi || lo !in s then lo else LowestOut(s, lo + 1, hi)
  }

  /** Number of clear entries. */
  function CountFree(s: seq<bool>): nat {
    if s == [] then 0 else (if s[0] then 0 else 1) + CountFree(s[1..])
  }

  function Sum(s: seq<nat>): nat {
    if s == [] then 0 else s[0] + Sum(s[1..])
  }

  lemma {:induction false} CountUpdate(s: seq<bool>, i: nat, v: bool)
    requires i < |s| && s[i] != v
    ensures CountFree(s[i := v]) == CountFree(s) + if v then -1 else 1
  {
    if i == 0 {
      assert s[0 := v][1..] == s[1..];
    } else {
      CountUpdate(s[1..], i - 1, v);
      assert s[i := v][1..] == s[1..][i - 1 := v];
    }
  }

  lemma {:induction false} CountBound(s: seq<bool>)
    ensures CountFree(s) <= |s|
  {
    if s != [] { CountBound(s[1..]); }
  }

  lemma {:induction false} SumBound(s: seq<nat>, n: nat)
    requires forall k :: 0 <= k < |s| ==> s[k] <= n
    ensures Sum(s) <= Start(|s|, n)
  {
    if s != [] { SumBound(s[1..], n); }
  }

  ghost predicate Full(s: seq<bool>) {
    forall k :: 0 <= k < |s| ==> s[k]
  }

  lemma {:induction false} CountZero(s: seq<bool>)
    ensures CountFree(s) == 0 <==> Full(s)
  {
    if s != [] {
      CountZero(s[1..]);
      assert s == [s[0]] + s[1..];
      if Full(s) {
        assert s[0];
      }
    }
  }

  lemma {:induction false} SumUpdate(s: seq<nat>, i: nat, x: nat)
    requires i < |s|
    ensures Sum(s[i := x]) == Sum(s) - s[i] + x
  {
    if i == 0 {
      assert s[0 := x][1..] == s[1..];
    } else {
      SumUpdate(s[1..], i - 1, x);
      assert s[i := x][1..] == s[1..][i - 1 := x];
    }
  }

  lemma {:induction false} SumLast(s: seq<nat>)
    requires s != []
    ensures Sum(s) == Sum(s[..|s| - 1]) + s[|s| - 1]
  {
    if |s| > 1 {
      SumLast(s[1..]);
      assert s[1..][..|s| - 2] == s[..|s| - 1][1..];
    }
  }

  lemma {:induction false} SumZero(s: seq<nat>)
    ensures Sum(s) == 0 <==> forall k :: 0 <= k < |s| ==> s[k] == 0
  {
    if s != [] {
      SumZero(s[1..]);
      assert s == [s[0]] + s[1..];
    }
  }

  // ---------------------------------------------------------------- equal groups

  /** First entry of group g when every group has n entries; g * n, without the product. */
  function Start(g: nat, n: nat): (r: nat)
  {
    if g == 0 then 0 else Start(g - 1, n) + n
  }

  lemma {:induction false} StartIsProduct(g: nat, n: nat)
    ensures Start(g, n) == g * n
  {
    if g > 0 {
      StartIsProduct(g - 1, n);
      assert (g - 1) * n + n == g * n;
    }
  }

  lemma {:induction false} StartMono(g: nat, h: nat, n: nat)
    requires g < h
    ensures Start(g, n) + n <= Start(h, n)
  {
    if g + 1 < h {
      StartMono(g, h - 1, n);
    }
  }

  /** i / n and i % n, by repeated subtraction. */
  function Quot(i: nat, n: nat): nat {
    if n == 0 || i < n then 0 else 1 + Quot(i - n, n)
  }

  function Rem(i: nat, n: nat): nat {
    if n == 0 || i < n then i else Rem(i - n, n)
  }

  lemma {:induction false} QuotRem(i: nat, n: nat)
    requires n > 0
    ensures Start(Quot(i, n), n) + Rem(i, n) == i && Rem(i, n) < n
    ensures Quot(i, n) == i / n && Rem(i, n) == i % n
  {
    if i >= n {
      QuotRem(i - n, n);
      StartIsProduct(Quot(i, n), n);
      DivUnique(i, n, Quot(i, n), Rem(i, n));
    }
  }

  lemma DivUnique(i: int, n: nat, q: int, r: nat)
    requires i == q * n + r && r < n
    ensures q == i / n && r == i % n
  {
    var p, s := i / n, i % n;
    assert p * n + s == i;
    assert (p - q) * n == r - s by { Distribute(p, q, n); }
    if p > q { AtLeastOnce(p - q, n); } else if q > p {
      assert (q - p) * n == s - r by { Distribute(q, p, n); }
      AtLeastOnce(q - p, n);
    }
  }

  lemma Distribute(p: int, q: int, n: int)
    ensures (p - q) * n == p * n - q * n
  {}

  lemma AtLeastOnce(d: int, n: nat)
    requires d >= 1
    ensures d * n >= n
  {}

  lemma {:induction false} QuotOfStart(g: nat, b: nat, n: nat)
    requires b < n
    ensures Quot(Start(g, n) + b, n) == g && Rem(Start(g, n) + b, n) == b
  {
    if g > 0 {
      QuotOfStart(g - 1, b, n);
    }
  }

  /** Groups that start before a total of whole groups fit in it. */
  lemma QuotBound(i: nat, n: nat, groups: nat)
    requires n > 0
    ensures Quot(i, n) < groups <==> i < Start(groups, n)
  {
    QuotRem(i, n);
    if Quot(i, n) < groups {
      StartMono(Quot(i, n), groups, n);
    } else if groups < Quot(i, n) {
      StartMono(groups, Quot(i, n), n);
    }
  }
}
