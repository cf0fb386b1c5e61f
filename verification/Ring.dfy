/** Fixed rings: a run of slots that starts at head and wraps around. */
module Ring {
  function Without<T>(q: seq<T>, k: nat): seq<T>
    requires k < |q|
  {
    q[..k] + q[k + 1..]
  }

  /** Position of slot k after head in a ring of n. */
  function Slot(head: nat, k: nat, n: nat): (i: nat)
    requires head < n && k <= n
    ensures i < n
  {
    if head + k < n then head + k else head + k - n
  }

  /** The source writes the position with a remainder. */
  lemma SlotIsRemainder(head: nat, k: nat, n: nat)
    requires head < n && k <= n
    ensures Slot(head, k, n) == (head + k) % n
  {
    if head + k < n {
      RemainderUnique(head + k, n, 0, head + k);
    } else {
      RemainderUnique(head + k, n, 1, head + k - n);
    }
  }

  lemma RemainderUnique(x: nat, n: nat, q: nat, r: nat)
    requires n > 0 && x == q * n + r && r < n
    ensures x % n == r
  {
    var d := x / n - q;
    assert x == (x / n) * n + x % n;
    assert d * n == r - x % n;
    assert d >= 1 ==> d * n >= n;
    assert d <= -1 ==> d * n + n <= 0;
  }

  lemma SlotInjective(head: nat, i: nat, j: nat, n: nat)
    requires head < n && i < n && j < n && i != j
    ensures Slot(head, i, n) != Slot(head, j, n)
  {}

  lemma SlotNext(head: nat, i: nat, n: nat)
    requires head < n && i < n
    ensures Slot(Slot(head, i, n), 1, n) == Slot(head, i + 1, n)
  {}

  /** The ring from head on holds q. */
  ghost predicate Holds<T>(slots: seq<T>, head: nat, q: seq<T>) {
    && head < |slots| && |q| <= |slots|
    && forall k {:trigger Slot(head, k, |slots|)} :: 0 <= k < |q| ==> slots[Slot(head, k, |slots|)] == q[k]
  }

  /** The ring while the entries after k move one slot back; those before j have moved. */
  ghost predicate Shifting<T>(slots: seq<T>, head: nat, q: seq<T>, k: nat, j: nat) {
    && head < |slots| && |q| <= |slots| && k <= j < |q|
    && forall i {:trigger Slot(head, i, |slots|)} ::
         0 <= i < |q| ==> slots[Slot(head, i, |slots|)] == if k <= i < j then q[i + 1] else q[i]
  }

  lemma ShiftOne<T>(slots: seq<T>, head: nat, q: seq<T>, k: nat, j: nat)
    requires Shifting(slots, head, q, k, j) && j + 1 < |q|
    ensures Shifting(slots[Slot(head, j, |slots|) := slots[Slot(head, j + 1, |slots|)]], head, q, k, j + 1)
  {
    var n := |slots|;
    var slots' := slots[Slot(head, j, n) := slots[Slot(head, j + 1, n)]];
    forall i | 0 <= i < |q| ensures slots'[Slot(head, i, n)] == if k <= i < j + 1 then q[i + 1] else q[i] {
      if i != j { SlotInjective(head, i, j, n); }
    }
  }

  lemma ShiftDone<T>(slots: seq<T>, head: nat, q: seq<T>, k: nat, blank: T)
    requires k < |q| && Shifting(slots, head, q, k, |q| - 1)
    ensures Holds(slots[Slot(head, |q| - 1, |slots|) := blank], head, Without(q, k))
  {
    var n, last := |slots|, |q| - 1;
    var slots' := slots[Slot(head, last, n) := blank];
    forall i | 0 <= i < last ensures slots'[Slot(head, i, n)] == Without(q, k)[i] { SlotInjective(head, i, last, n); }
  }

  lemma PopFront<T>(slots: seq<T>, head: nat, q: seq<T>, blank: T)
    requires Holds(slots, head, q) && q != []
    ensures Holds(slots[head := blank], Slot(head, 1, |slots|), q[1..])
  {
    var n := |slots|;
    assert Slot(head, 0, n) == head;
    forall i | 0 <= i < |q| - 1 ensures slots[head := blank][Slot(Slot(head, 1, n), i, n)] == q[1..][i] {
      SlotInjective(head, 0, i + 1, n);
      assert Slot(Slot(head, 1, n), i, n) == Slot(head, i + 1, n);
    }
  }

  lemma PushBack<T>(slots: seq<T>, head: nat, q: seq<T>, d: T)
    requires Holds(slots, head, q) && |q| < |slots|
    ensures Holds(slots[Slot(head, |q|, |slots|) := d], head, q + [d])
  {
    var n := |slots|;
    forall i | 0 <= i < |q| + 1 ensures slots[Slot(head, |q|, n) := d][Slot(head, i, n)] == (q + [d])[i] {
      if i < |q| { SlotInjective(head, i, |q|, n); }
    }
  }

  lemma Replace<T>(slots: seq<T>, head: nat, q: seq<T>, k: nat, d: T)
    requires Holds(slots, head, q) && k < |q|
    ensures Holds(slots[Slot(head, k, |slots|) := d], head, q[k := d])
  {
    forall i | 0 <= i < |q| ensures slots[Slot(head, k, |slots|) := d][Slot(head, i, |slots|)] == q[k := d][i] {
      if i != k { SlotInjective(head, i, k, |slots|); }
    }
  }

  // ----- order-preserving filters

  function FilterUpTo<T>(q: seq<T>, keep: T -> bool, n: nat): seq<T>
    requires n <= |q|
  {
    if n == 0 then [] else FilterUpTo(q, keep, n - 1) + if keep(q[n - 1]) then [q[n - 1]] else []
  }

  /** The entries that satisfy keep, in order. */
  function Filter<T>(q: seq<T>, keep: T -> bool): seq<T> { FilterUpTo(q, keep, |q|) }

  lemma {:induction false} FilterHas<T>(q: seq<T>, keep: T -> bool, n: nat, i: nat) returns (j: nat)
    requires i < n <= |q| && keep(q[i])
    ensures j < |FilterUpTo(q, keep, n)| && FilterUpTo(q, keep, n)[j] == q[i]
  {
    if i == n - 1 {
      j := |FilterUpTo(q, keep, n - 1)|;
    } else {
      j := FilterHas(q, keep, n - 1, i);
    }
  }

  lemma {:induction false} FilterFrom<T>(q: seq<T>, keep: T -> bool, n: nat, j: nat) returns (i: nat)
    requires n <= |q| && j < |FilterUpTo(q, keep, n)|
    ensures i < n && keep(q[i]) && FilterUpTo(q, keep, n)[j] == q[i]
  {
    if j < |FilterUpTo(q, keep, n - 1)| {
      i := FilterFrom(q, keep, n - 1, j);
    } else {
      i := n - 1;
    }
  }

  lemma {:induction false} FilterSame<T>(a: seq<T>, b: seq<T>, keep: T -> bool, n: nat)
    requires n <= |a| && n <= |b| && forall i :: 0 <= i < n ==> a[i] == b[i]
    ensures FilterUpTo(a, keep, n) == FilterUpTo(b, keep, n)
  {
    if n > 0 { FilterSame(a, b, keep, n - 1); }
  }

  /** f is the first n entries of q without those that keep refuses: at lists the
      places that stay, in order. */
  ghost predicate Sieved<T(!new)>(q: seq<T>, n: nat, f: seq<T>, keep: T -> bool, at: seq<nat>) {
    && n <= |q| && |at| == |f|
    && (forall j {:trigger at[j]} :: 0 <= j < |at| ==> at[j] < n && f[j] == q[at[j]] && keep(q[at[j]]))
    && (forall j, k {:trigger at[j], at[k]} :: 0 <= j < k < |at| ==> at[j] < at[k])
    && (forall i {:trigger i in at} :: 0 <= i < n && keep(q[i]) ==> i in at)
  }

  lemma SieveKeeps<T(!new)>(q: seq<T>, n: nat, f: seq<T>, keep: T -> bool, at: seq<nat>)
    requires Sieved(q, n, f, keep, at) && n < |q| && keep(q[n])
    ensures Sieved(q, n + 1, f + [q[n]], keep, at + [n])
  {
    var at' := at + [n];
    forall i | 0 <= i < n + 1 && keep(q[i]) ensures i in at' {
      if i < n { assert i in at; } else { assert at'[|at|] == i; }
    }
  }

  lemma SieveSkips<T(!new)>(q: seq<T>, n: nat, f: seq<T>, keep: T -> bool, at: seq<nat>)
    requires Sieved(q, n, f, keep, at) && n < |q| && !keep(q[n])
    ensures Sieved(q, n + 1, f, keep, at)
  {}

  lemma {:induction false} FilterIsSieved<T(!new)>(q: seq<T>, keep: T -> bool, n: nat) returns (at: seq<nat>)
    requires n <= |q|
    ensures Sieved(q, n, FilterUpTo(q, keep, n), keep, at)
  {
    at := [];
    if n > 0 {
      at := FilterIsSieved(q, keep, n - 1);
      var f := FilterUpTo(q, keep, n - 1);
      if keep(q[n - 1]) {
        SieveKeeps(q, n - 1, f, keep, at);
        at := at + [n - 1];
      } else {
        SieveSkips(q, n - 1, f, keep, at);
        assert f + [] == f;
      }
    }
  }
}
