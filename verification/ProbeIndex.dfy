/** The open-addressed key index of internal/core/reassembly/reassembly.go as a
    mathematical object: linear probing with backshift deletion over a cyclic
    table whose entry e > 0 names slot e - 1. Home positions are arbitrary, so
    nothing here depends on the hash function. */
module ProbeIndex {

  import opened Basics

  function Next(p: nat, n: nat): (q: nat)
    requires p < n
    ensures q < n
  {
    if p + 1 == n then 0 else p + 1
  }

  /** One step from next towards z, seen from any hole before next. */
  lemma StepTowards(hole: nat, next: nat, z: nat, n: nat)
    requires hole < n && next < n && z < n && next != z && Dist(hole, next, n) + Dist(next, z, n) == Dist(hole, z, n)
    ensures Dist(next, Next(next, n), n) + Dist(Next(next, n), z, n) == Dist(next, z, n)
    ensures Dist(hole, Next(next, n), n) + Dist(Next(next, n), z, n) == Dist(hole, z, n)
    ensures Dist(Next(next, n), z, n) < Dist(next, z, n)
  {}

  ghost predicate InRange(table: seq<nat>, homes: seq<nat>, where: map<nat, nat>) {
    && |table| > 0
    && (forall i :: i in where ==> i < |homes| && homes[i] < |table| && where[i] < |table|)
  }

  /** where is the inverse of the non-empty part of the table. */
  ghost predicate Inverse(table: seq<nat>, homes: seq<nat>, where: map<nat, nat>)
    requires InRange(table, homes, where)
  {
    && (forall p :: 0 <= p < |table| && table[p] != 0 ==> table[p] - 1 in where)
    && (forall i, p :: i in where && 0 <= p < |table| ==> (table[p] == i + 1 <==> where[i] == p))
  }

  /** No probe chain has a hole: every position between home and entry is taken. */
  ghost predicate NoHoles(table: seq<nat>, homes: seq<nat>, where: map<nat, nat>)
    requires InRange(table, homes, where)
  {
    forall i, q ::
        i in where && 0 <= q < |table| && Dist(homes[i], q, |table|) < Dist(homes[i], where[i], |table|) ==>
        table[q] != 0
  }

  ghost predicate Indexed(table: seq<nat>, homes: seq<nat>, where: map<nat, nat>) {
    InRange(table, homes, where) && Inverse(table, homes, where) && NoHoles(table, homes, where)
  }

  /** During a deletion: the only hole a chain may cross is hole, and only the
      chains of entries not yet scanned, those at next or later, may cross it. */
  ghost predicate OneHole(table: seq<nat>, homes: seq<nat>, where: map<nat, nat>, hole: nat, next: nat)
    requires InRange(table, homes, where) && hole < |table| && next < |table|
  {
    forall i, q :: i in where && 0 <= q < |table| && Dist(homes[i], q, |table|) < Dist(homes[i], where[i], |table|) ==>
      table[q] != 0 || (q == hole && Dist(hole, where[i], |table|) >= Dist(hole, next, |table|))
  }

  ghost predicate Deleting(table: seq<nat>, homes: seq<nat>, where: map<nat, nat>, hole: nat, next: nat) {
    && InRange(table, homes, where) && Inverse(table, homes, where)
    && hole < |table| && next < |table| && hole != next && table[hole] == 0
    && OneHole(table, homes, where, hole, next)
  }

  /** A probe that meets an empty position has already passed every entry of its chain. */
  lemma ProbeStops(table: seq<nat>, homes: seq<nat>, where: map<nat, nat>, i: nat, q: nat)
    requires Indexed(table, homes, where) && i in where && q < |table| && table[q] == 0
    ensures Dist(homes[i], where[i], |table|) < Dist(homes[i], q, |table|)
  {
    assert where[i] != q;
  }

  lemma Insert(table: seq<nat>, homes: seq<nat>, where: map<nat, nat>, i: nat, q: nat)
    requires Indexed(table, homes, where) && i !in where && i < |homes| && homes[i] < |table|
    requires q < |table| && table[q] == 0
    requires forall p :: 0 <= p < |table| && Dist(homes[i], p, |table|) < Dist(homes[i], q, |table|) ==> table[p] != 0
    ensures Indexed(table[q := i + 1], homes, where[i := q])
  {}

  lemma StartDelete(table: seq<nat>, homes: seq<nat>, where: map<nat, nat>, i: nat)
    requires Indexed(table, homes, where) && i in where && |table| > 1
    ensures Deleting(table[where[i] := 0], homes, where - {i}, where[i], Next(where[i], |table|))
  {
    var n, hole, table', where' := |table|, where[i], table[where[i] := 0], where - {i};
    var next := Next(hole, n);
    forall j, q | j in where' && 0 <= q < n && Dist(homes[j], q, n) < Dist(homes[j], where'[j], n)
      ensures table'[q] != 0 || (q == hole && Dist(hole, where'[j], n) >= Dist(hole, next, n))
    {
      assert table[q] != 0;
      assert table[hole] == i + 1 && where'[j] == where[j];
      assert where[j] == hole <==> table[hole] == j + 1;
    }
  }

  lemma SkipEntry(table: seq<nat>, homes: seq<nat>, where: map<nat, nat>, hole: nat, next: nat)
    requires Deleting(table, homes, where, hole, next) && table[next] != 0 && Next(next, |table|) != hole
    requires var h := homes[table[next] - 1]; Dist(h, next, |table|) <= Dist(h, hole, |table|)
    ensures Deleting(table, homes, where, hole, Next(next, |table|))
  {
    var n, next' := |table|, Next(next, |table|);
    forall j, q | j in where && 0 <= q < n && Dist(homes[j], q, n) < Dist(homes[j], where[j], n)
      ensures table[q] != 0 || (q == hole && Dist(hole, where[j], n) >= Dist(hole, next', n))
    {
      if where[j] == next { assert j == table[next] - 1; }
    }
  }

  lemma MoveKeepsInverse(table: seq<nat>, homes: seq<nat>, where: map<nat, nat>, hole: nat, next: nat)
    requires Deleting(table, homes, where, hole, next) && table[next] != 0
    ensures var table', where' := table[hole := table[next]][next := 0], where[table[next] - 1 := hole];
            InRange(table', homes, where') && Inverse(table', homes, where')
  {
    var e := table[next] - 1;
    var table', where' := table[hole := table[next]][next := 0], where[e := hole];
    assert where[e] == next;
    forall i, p | i in where' && 0 <= p < |table| ensures table'[p] == i + 1 <==> where'[i] == p {
      assert i in where;
      if p == hole { assert table[hole] != i + 1; }
      if p == next { assert table[next] == i + 1 <==> where[i] == next; }
    }
    forall p | 0 <= p < |table| && table'[p] != 0 ensures table'[p] - 1 in where' {
      assert p != hole ==> table[p] != 0;
    }
  }

  lemma MoveChain(table: seq<nat>, homes: seq<nat>, where: map<nat, nat>, hole: nat, next: nat, j: nat, q: nat)
    requires Deleting(table, homes, where, hole, next) && table[next] != 0 && j in where && q < |table|
    requires var h := homes[table[next] - 1]; Dist(h, next, |table|) > Dist(h, hole, |table|)
    requires var w := if where[j] == next then hole else where[j];
             Dist(homes[j], q, |table|) < Dist(homes[j], w, |table|)
    ensures q == hole || q == next || table[q] != 0
    ensures where[j] == next ==> q != next
  {
    assert where[j] == next ==> j == table[next] - 1;
    assert Dist(homes[j], q, |table|) < Dist(homes[j], where[j], |table|);
  }

  lemma MoveEntry(table: seq<nat>, homes: seq<nat>, where: map<nat, nat>, hole: nat, next: nat)
    requires Deleting(table, homes, where, hole, next) && table[next] != 0
    requires var h := homes[table[next] - 1]; Dist(h, next, |table|) > Dist(h, hole, |table|)
    ensures Deleting(table[hole := table[next]][next := 0], homes, where[table[next] - 1 := hole], next,
            Next(next, |table|))
  {
    MoveKeepsInverse(table, homes, where, hole, next);
    var n, e := |table|, table[next] - 1;
    var table', where', next' := table[hole := table[next]][next := 0], where[e := hole], Next(next, n);
    forall j, q | j in where' && 0 <= q < n && Dist(homes[j], q, n) < Dist(homes[j], where'[j], n)
      ensures table'[q] != 0 || (q == next && Dist(next, where'[j], n) >= Dist(next, next', n))
    {
      assert where'[j] != next && (j != e ==> where'[j] == where[j] != next);
      MoveChain(table, homes, where, hole, next, j, q);
    }
  }

  /** A chain that crosses the hole and reaches past next also crosses next. */
  lemma CrossesNext(h: nat, w: nat, hole: nat, next: nat, n: nat)
    requires h < n && w < n && hole < n && next < n
    ensures Dist(h, hole, n) < Dist(h, w, n) && Dist(hole, w, n) > Dist(hole, next, n) ==>
            Dist(h, next, n) < Dist(h, w, n)
  {}

  lemma FinishDelete(table: seq<nat>, homes: seq<nat>, where: map<nat, nat>, hole: nat, next: nat)
    requires Deleting(table, homes, where, hole, next) && table[next] == 0
    ensures Indexed(table, homes, where)
  {
    var n := |table|;
    forall j, q | j in where && 0 <= q < n && Dist(homes[j], q, n) < Dist(homes[j], where[j], n)
      ensures table[q] != 0
    {
      var h, w := homes[j], where[j];
      CrossesNext(h, w, hole, next, n);
      assert w != next;
    }
  }

  // ----- an index that is not full has an empty position

  ghost function Entries(table: seq<nat>, k: nat): set<nat>
    requires k <= |table|
  {
    set p | 0 <= p < k :: table[p]
  }

  lemma {:induction false} EntriesCount(table: seq<nat>, k: nat)
    requires k <= |table| && forall p, q :: 0 <= p < q < |table| ==> table[p] != table[q]
    ensures |Entries(table, k)| == k
  {
    if k > 0 {
      EntriesCount(table, k - 1);
      assert Entries(table, k) == Entries(table, k - 1) + {table[k - 1]};
    }
  }

  /** The numbers 1 to n. */
  ghost function UpTo(n: nat): (s: set<nat>)
    ensures |s| == n && forall x :: x in s <==> 1 <= x <= n
  {
    if n == 0 then {} else UpTo(n - 1) + {n}
  }

  /** With more positions than slots the index always has an empty one, so the
      "key index exhausted" panic is unreachable. */
  lemma HasEmpty(table: seq<nat>, homes: seq<nat>, where: map<nat, nat>) returns (z: nat)
    requires InRange(table, homes, where) && Inverse(table, homes, where) && |homes| < |table|
    ensures z < |table| && table[z] == 0
  {
    if forall p :: 0 <= p < |table| ==> table[p] != 0 {
      forall p, q | 0 <= p < q < |table| ensures table[p] != table[q] {
        assert table[q] - 1 in where;
      }
      EntriesCount(table, |table|);
      forall e | e in Entries(table, |table|) ensures e in UpTo(|homes|) {
        assert e - 1 in where;
      }
      SubsetSize(Entries(table, |table|), UpTo(|homes|));
    }
    z :| 0 <= z < |table| && table[z] == 0;
  }
}
