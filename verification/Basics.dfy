/** Distances on a circle, sizes of finite sets and powers of two, shared by several
    modules. */
module Basics {
  /** Cyclic distance, how far to lies after from in a ring of n. */
  function Dist(from: nat, to: nat, n: nat): (d: nat)
    requires from < n && to < n
    ensures d < n
  {
    if to >= from then to - from else to + n - from
  }

  ghost function Below(n: nat): (s: set<nat>)
    ensures |s| == n && forall x: nat :: x in s <==> x < n
  {
    if n == 0 then {} else Below(n - 1) + {n - 1}
  }

  lemma SubsetSize<T>(a: set<T>, b: set<T>)
    requires a <= b
    ensures |a| <= |b|
  {
    assert b == a + (b - a);
  }

  function Pow2(k: nat): (n: nat)
    ensures n >= 1
  {
    if k == 0 then 1 else 2 * Pow2(k - 1)
  }

  lemma {:induction false} Pow2Add(a: nat, b: nat)
    ensures Pow2(a + b) == Pow2(a) * Pow2(b)
  {
    if b > 0 { Pow2Add(a, b - 1); }
  }

  lemma {:induction false} Pow2Monotone(a: nat, b: nat)
    ensures a < b ==> 2 * Pow2(a) <= Pow2(b)
    ensures a <= b ==> Pow2(a) <= Pow2(b)
  {
    if a < b { Pow2Monotone(a, b - 1); }
  }

  lemma Pow2Double(a: nat)
    ensures Pow2(a + a) == Pow2(a) * Pow2(a)
  {
    Pow2Add(a, a);
  }

  lemma QuotientUnique(x: nat, n: nat, q: nat, r: nat)
    requires n > 0 && x == q * n + r && r < n
    ensures x / n == q
  {
    var d := x / n - q;
    assert x == (x / n) * n + x % n;
    assert d * n == r - x % n;
    assert d >= 1 ==> d * n >= n;
    assert d <= -1 ==> d * n + n <= 0;
  }

  /** Dropping the last binary digit of dividend and divisor does not change the quotient. */
  lemma HalveBoth(v: nat, b: nat, n: nat)
    requires n > 0 && b < 2
    ensures (2 * v + b) / (2 * n) == v / n
  {
    var q, r := v / n, v % n;
    assert v == q * n + r;
    assert 2 * v + b == q * (2 * n) + (2 * r + b);
    QuotientUnique(2 * v + b, 2 * n, q, 2 * r + b);
  }

  /** x shifted right by k binary digits. */
  function ShiftRight(x: nat, k: nat): nat {
    if k == 0 then x else ShiftRight(x / 2, k - 1)
  }

  lemma {:induction false} ShiftIsQuotient(x: nat, k: nat)
    ensures ShiftRight(x, k) == x / Pow2(k)
  {
    if k > 0 {
      ShiftIsQuotient(x / 2, k - 1);
      HalveBoth(x / 2, x % 2, Pow2(k - 1));
      assert x == 2 * (x / 2) + x % 2;
    }
  }
}
