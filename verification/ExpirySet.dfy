/** Tombstones in deadline order (internal/core/control/state/expiry.go): an
    indexed binary heap as a bounded map from key to latest deadline. */
module ExpirySets {

  datatype Entry<K> = Entry(key: K, expires: int)

  // ----- the index

  ghost predicate Placed<K>(entries: seq<Entry<K>>, index: map<K, nat>, i: nat) {
    i < |entries| && entries[i].key in index && index[entries[i].key] == i
  }

  ghost predicate Found<K>(entries: seq<Entry<K>>, index: map<K, nat>, k: K) {
    k in index && index[k] < |entries| && entries[index[k]].key == k
  }

  /** Positions and keys name each other. */
  ghost predicate Indexed<K(!new)>(entries: seq<Entry<K>>, index: map<K, nat>) {
    && |index| == |entries|
    && (forall i {:trigger Placed(entries, index, i)} :: 0 <= i < |entries| ==> Placed(entries, index, i))
    && (forall k {:trigger Found(entries, index, k)} :: k in index ==> Found(entries, index, k))
  }

  ghost function Deadlines<K(!new)>(entries: seq<Entry<K>>, index: map<K, nat>): (m: map<K, int>)
    requires Indexed(entries, index)
    ensures m.Keys == index.Keys && |m| == |entries|
  {
    var m := map k | k in index :: assert Found(entries, index, k); entries[index[k]].expires;
    assert m.Keys == index.Keys && |m| == |m.Keys| && |index| == |index.Keys|;
    m
  }

  lemma DeadlineAt<K(!new)>(entries: seq<Entry<K>>, index: map<K, nat>, i: nat)
    requires Indexed(entries, index) && i < |entries|
    ensures entries[i].key in Deadlines(entries, index) &&
            Deadlines(entries, index)[entries[i].key] == entries[i].expires
  {
    assert Placed(entries, index, i);
  }

  // ----- the heap

  function Parent(i: nat): (p: nat)
    ensures i > 0 ==> p < i && (i == 2 * p + 1 || i == 2 * p + 2)
  {
    if i == 0 then 0 else (i - 1) / 2
  }

  predicate Ordered<K>(entries: seq<Entry<K>>, i: nat) {
    0 < i < |entries| ==> entries[Parent(i)].expires <= entries[i].expires
  }

  ghost predicate Heap<K>(entries: seq<Entry<K>>) {
    forall i {:trigger Ordered(entries, i)} :: 0 <= i < |entries| ==> Ordered(entries, i)
  }

  /** i is not before the parent of x, where x is i's own parent. */
  predicate Skips<K>(entries: seq<Entry<K>>, x: nat, i: nat) {
    0 < x < |entries| && 0 < i < |entries| && Parent(i) == x ==> entries[Parent(x)].expires <= entries[i].expires
  }

  /** A heap but for the order between x and its parent. */
  ghost predicate HeapButUp<K>(entries: seq<Entry<K>>, x: nat) {
    && (forall i {:trigger Ordered(entries, i)} :: 0 <= i < |entries| && i != x ==> Ordered(entries, i))
    && (forall i {:trigger Skips(entries, x, i)} :: 0 <= i < |entries| ==> Skips(entries, x, i))
  }

  /** A heap but for the order between x and its children. */
  ghost predicate HeapButDown<K>(entries: seq<Entry<K>>, x: nat) {
    && (forall i {:trigger Ordered(entries, i)} ::
         0 <= i < |entries| && (i == 0 || Parent(i) != x) ==> Ordered(entries, i))
    && (forall i {:trigger Skips(entries, x, i)} :: 0 <= i < |entries| ==> Skips(entries, x, i))
  }

  lemma {:induction false} RootIsLeast<K>(entries: seq<Entry<K>>, i: nat)
    requires Heap(entries) && i < |entries|
    ensures entries[0].expires <= entries[i].expires
  {
    if i > 0 {
      assert Ordered(entries, i);
      RootIsLeast(entries, Parent(i));
    }
  }

  function Swapped<K>(entries: seq<Entry<K>>, i: nat, j: nat): seq<Entry<K>>
    requires i < |entries| && j < |entries|
  {
    entries[i := entries[j]][j := entries[i]]
  }

  lemma SiftUpStep<K>(entries: seq<Entry<K>>, x: nat)
    requires 0 < x < |entries| && HeapButUp(entries, x) && entries[x].expires < entries[Parent(x)].expires
    ensures HeapButUp(Swapped(entries, x, Parent(x)), Parent(x))
  {
    var p, e' := Parent(x), Swapped(entries, x, Parent(x));
    forall i | 0 <= i < |e'| && i != p ensures Ordered(e', i) {
      assert Ordered(entries, i) || i == x;
      assert Skips(entries, x, i);
      assert Ordered(entries, p);
    }
    forall i | 0 <= i < |e'| ensures Skips(e', p, i) {
      assert i != x ==> Ordered(entries, i);
      assert Ordered(entries, p);
    }
  }

  lemma SiftUpDone<K>(entries: seq<Entry<K>>, x: nat)
    requires x < |entries| && HeapButUp(entries, x) && Ordered(entries, x)
    ensures Heap(entries)
  {
    forall i | 0 <= i < |entries| ensures Ordered(entries, i) { assert i != x ==> Ordered(entries, i); }
  }

  lemma SiftDownStep<K>(entries: seq<Entry<K>>, x: nat, s: nat)
    requires x < s < |entries| && Parent(s) == x && HeapButDown(entries, x) && entries[s].expires < entries[x].expires
    requires forall i :: 0 < i < |entries| && Parent(i) == x ==> entries[s].expires <= entries[i].expires
    ensures HeapButDown(Swapped(entries, x, s), s)
  {
    var e' := Swapped(entries, x, s);
    forall i | 0 <= i < |e'| && (i == 0 || Parent(i) != s) ensures Ordered(e', i) {
      assert i == 0 || Parent(i) != x ==> Ordered(entries, i);
      assert Skips(entries, x, s);
    }
    forall i | 0 <= i < |e'| ensures Skips(e', s, i) {
      assert i == 0 || Parent(i) != x ==> Ordered(entries, i);
    }
  }

  lemma SiftDownDone<K>(entries: seq<Entry<K>>, x: nat)
    requires HeapButDown(entries, x) && forall i ::
             0 < i < |entries| && Parent(i) == x ==> entries[x].expires <= entries[i].expires
    ensures Heap(entries)
  {
    forall i | 0 <= i < |entries|
      ensures Ordered(entries, i)
    {
      assert i == 0 || Parent(i) != x ==> Ordered(entries, i);
    }
  }

  /** Making an entry later disturbs at most the order with its children. */
  lemma LaterIsHeapButDown<K>(entries: seq<Entry<K>>, x: nat, expires: int)
    requires Heap(entries) && x < |entries| && entries[x].expires <= expires
    ensures HeapButDown(entries[x := entries[x].(expires := expires)], x)
  {
    var e' := entries[x := entries[x].(expires := expires)];
    forall i | 0 <= i < |e'| && (i == 0 || Parent(i) != x) ensures Ordered(e', i) { assert Ordered(entries, i); }
    forall i | 0 <= i < |e'| ensures Skips(e', x, i) { assert Ordered(entries, i) && Ordered(entries, x); }
  }

  lemma AppendIsHeapButUp<K>(entries: seq<Entry<K>>, e: Entry<K>)
    requires Heap(entries)
    ensures HeapButUp(entries + [e], |entries|)
  {
    var e' := entries + [e];
    forall i | 0 <= i < |e'| && i != |entries| ensures Ordered(e', i) { assert Ordered(entries, i); }
    forall i | 0 <= i < |e'| ensures Skips(e', |entries|, i) {}
  }

  /** The last entry takes the place of the root. */
  lemma MoveLastIsHeapButDown<K>(entries: seq<Entry<K>>)
    requires Heap(entries) && |entries| > 1
    ensures HeapButDown(entries[0 := entries[|entries| - 1]][..|entries| - 1], 0)
  {
    var e' := entries[0 := entries[|entries| - 1]][..|entries| - 1];
    forall i | 0 <= i < |e'| && (i == 0 || Parent(i) != 0) ensures Ordered(e', i) { assert Ordered(entries, i); }
    forall i | 0 <= i < |e'| ensures Skips(e', 0, i) {}
  }

  lemma HeapIsHeapButUp<K>(entries: seq<Entry<K>>, x: nat)
    requires Heap(entries)
    ensures HeapButUp(entries, x)
  {
    forall i | 0 <= i < |entries|
      ensures Skips(entries, x, i)
    {
      assert Ordered(entries, i) && (x < |entries| ==> Ordered(entries, x));
    }
  }

  // ----- what the steps do to the map

  lemma SwapKeepsIndex<K(!new)>(entries: seq<Entry<K>>, index: map<K, nat>, i: nat, j: nat)
    requires Indexed(entries, index) && i < |entries| && j < |entries| && i != j
    ensures var e', n' := Swapped(entries, i, j), index[entries[j].key := i][entries[i].key := j];
            Indexed(e', n') && Deadlines(e', n') == Deadlines(entries, index)
  {
    assert Placed(entries, index, i) && Placed(entries, index, j);
    var e', n' := Swapped(entries, i, j), index[entries[j].key := i][entries[i].key := j];
    assert n'.Keys == index.Keys && |n'| == |n'.Keys| && |index| == |index.Keys|;
    forall x | 0 <= x < |e'| ensures Placed(e', n', x) { assert Placed(entries, index, x); }
    forall k | k in n'
      ensures Found(e', n', k) && e'[n'[k]].expires == entries[index[k]].expires
    {
      assert Found(entries, index, k);
    }
  }

  lemma SetKeepsIndex<K(!new)>(entries: seq<Entry<K>>, index: map<K, nat>, i: nat, expires: int)
    requires Indexed(entries, index) && i < |entries|
    ensures var e' := entries[i := entries[i].(expires := expires)];
            Indexed(e', index) && Deadlines(e', index) == Deadlines(entries, index)[entries[i].key := expires]
  {
    var e' := entries[i := entries[i].(expires := expires)];
    forall x | 0 <= x < |e'| ensures Placed(e', index, x) { assert Placed(entries, index, x); }
    assert Placed(entries, index, i);
    forall k | k in index
      ensures Found(e', index, k) && e'[index[k]].expires == if k == entries[i].key then expires
              else entries[index[k]].expires
    {
      assert Found(entries, index, k);
    }
  }

  lemma AppendKeepsIndex<K(!new)>(entries: seq<Entry<K>>, index: map<K, nat>, e: Entry<K>)
    requires Indexed(entries, index) && e.key !in index
    ensures var e', n' := entries + [e], index[e.key := |entries|];
            Indexed(e', n') && Deadlines(e', n') == Deadlines(entries, index)[e.key := e.expires]
  {
    var e', n' := entries + [e], index[e.key := |entries|];
    assert n'.Keys == index.Keys + {e.key};
    forall x | 0 <= x < |e'| ensures Placed(e', n', x) { assert x < |entries| ==> Placed(entries, index, x); }
    forall k | k in n'
      ensures Found(e', n', k) && e'[n'[k]].expires == if k == e.key then e.expires else entries[index[k]].expires
    {
      assert k != e.key ==> Found(entries, index, k);
    }
  }

  /** The index once the root is gone and the last entry sits in its place. */
  function IndexWithoutRoot<K(==)>(entries: seq<Entry<K>>, index: map<K, nat>): map<K, nat>
    requires entries != []
  {
    var n := index - {entries[0].key};
    if |entries| == 1 then n else n[entries[|entries| - 1].key := 0]
  }

  function WithoutRoot<K>(entries: seq<Entry<K>>): seq<Entry<K>>
    requires entries != []
  {
    entries[0 := entries[|entries| - 1]][..|entries| - 1]
  }

  lemma RemoveKeepsIndex<K(!new)>(entries: seq<Entry<K>>, index: map<K, nat>)
    requires Indexed(entries, index) && entries != []
    ensures var e', n' := WithoutRoot(entries), IndexWithoutRoot(entries, index);
            Indexed(e', n') && Deadlines(e', n') == Deadlines(entries, index) - {entries[0].key}
  {
    var e', n', last := WithoutRoot(entries), IndexWithoutRoot(entries, index), |entries| - 1;
    assert Placed(entries, index, 0) && Placed(entries, index, last);
    assert n'.Keys == index.Keys - {entries[0].key};
    forall x | 0 <= x < |e'| ensures Placed(e', n', x) { assert Placed(entries, index, x); }
    forall k | k in n' ensures Found(e', n', k) && e'[n'[k]].expires == entries[index[k]].expires {
      assert Found(entries, index, k);
    }
  }

  /** Pruning keeps exactly the keys whose deadline is after now. */
  function Pruned<K(==, !new)>(m: map<K, int>, now: int): map<K, int> {
    map k | k in m && m[k] > now :: m[k]
  }

  lemma PruneRoot<K(!new)>(entries: seq<Entry<K>>, index: map<K, nat>, now: int)
    requires Indexed(entries, index) && entries != [] && entries[0].expires <= now
    ensures Pruned(Deadlines(entries, index) - {entries[0].key}, now) == Pruned(Deadlines(entries, index), now)
  {
    DeadlineAt(entries, index, 0);
  }

  lemma PruneDone<K(!new)>(entries: seq<Entry<K>>, index: map<K, nat>, now: int)
    requires Indexed(entries, index) && Heap(entries) && (entries != [] ==> now < entries[0].expires)
    ensures Pruned(Deadlines(entries, index), now) == Deadlines(entries, index)
  {
    forall k | k in index ensures Deadlines(entries, index)[k] > now {
      assert Found(entries, index, k);
      RootIsLeast(entries, index[k]);
    }
  }

  class ExpirySet<K(==, !new)> {
    var entries: seq<Entry<K>>
    var index: map<K, nat>
    const limit: int

    ghost predicate Valid()
      reads this
    {
      Indexed(entries, index) && Heap(entries) && (entries != [] ==> |entries| <= limit)
    }

    /** The retained keys with their deadlines. */
    ghost function Contents(): map<K, int>
      requires Indexed(entries, index)
      reads this
    {
      Deadlines(entries, index)
    }

    constructor (limit: int)
      ensures Valid() && Contents() == map[] && this.limit == limit
    {
      this.limit, entries, index := limit, [], map[];
    }

    method Full() returns (full: bool)
      requires Valid()
      ensures full <==> |Contents()| >= limit
    {
      full := |entries| >= limit;
    }

    method Contains(key: K) returns (found: bool)
      requires Valid()
      ensures found <==> key in Contents()
    {
      found := key in index;
    }

    /** Extends the deadline of a retained key, or retains a new one if there is room. */
    method Retain(key: K, expires: int) returns (retained: bool)
      requires Valid()
      modifies this
      ensures Valid() && retained == (key in old(Contents()) || |old(Contents())| < limit)
      ensures Contents() == if !retained ||
              (key in old(Contents()) && expires <= old(Contents())[key]) then old(Contents())
                            else old(Contents())[key := expires]
    {
      if key in index {
        assert Found(entries, index, key);
        if expires > entries[index[key]].expires { Extend(key, expires); }
        return true;
      }
      if |entries| >= limit { return false; }
      AppendKeepsIndex(entries, index, Entry(key, expires));
      AppendIsHeapButUp(entries, Entry(key, expires));
      index := index[key := |entries|];
      entries := entries + [Entry(key, expires)];
      SiftUp(|entries| - 1);
      retained := true;
    }

    method Extend(key: K, expires: int)
      requires Valid() && Found(entries, index, key) && entries[index[key]].expires < expires
      modifies this
      ensures Valid() && Contents() == old(Contents())[key := expires]
    {
      var i := index[key];
      SetKeepsIndex(entries, index, i, expires);
      LaterIsHeapButDown(entries, i, expires);
      entries := entries[i := entries[i].(expires := expires)];
      SiftDown(i);
      assert Found(entries, index, key);
      HeapIsHeapButUp(entries, index[key]);
      SiftUp(index[key]);
    }

    /** Drops exactly the keys whose deadline is not after now. */
    method Prune(now: int)
      requires Valid()
      modifies this
      ensures Valid() && Contents() == Pruned(old(Contents()), now)
      ensures forall k :: k in Contents() <==> k in old(Contents()) && now < old(Contents())[k]
    {
      while entries != [] && now >= entries[0].expires
        invariant Valid() && Pruned(Contents(), now) == Pruned(old(Contents()), now)
        decreases |entries|
      {
        PruneRoot(entries, index, now);
        RemoveRoot();
      }
      PruneDone(entries, index, now);
    }

    method RemoveRoot()
      requires Valid() && entries != []
      modifies this
      ensures Valid() && |entries| == old(|entries|) - 1 && Contents() == old(Contents()) - {old(entries[0].key)}
    {
      RemoveKeepsIndex(entries, index);
      var last := |entries| - 1;
      ghost var was := entries;
      index := index - {entries[0].key};
      if last == 0 {
        entries := [];
        assert entries == WithoutRoot(was);
        return;
      }
      MoveLastIsHeapButDown(entries);
      entries := entries[0 := entries[last]];
      index := index[entries[0].key := 0];
      entries := entries[..last];
      SiftDown(0);
    }

    method SiftUp(start: nat)
      requires Indexed(entries, index) && start < |entries| && HeapButUp(entries, start)
      modifies this
      ensures Indexed(entries, index) && Heap(entries) && |entries| == old(|entries|) && Contents() == old(Contents())
    {
      var i: nat := start;
      while i > 0
        invariant i < |entries| == old(|entries|) && Indexed(entries, index) && HeapButUp(entries, i) &&
                  Contents() == old(Contents())
        decreases i
      {
        var parent := (i - 1) / 2;
        if entries[i].expires >= entries[parent].expires { break; }
        SiftUpStep(entries, i);
        Swap(i, parent);
        i := parent;
      }
      SiftUpDone(entries, i);
    }

    method SiftDown(start: nat)
      requires Indexed(entries, index) && start < |entries| && HeapButDown(entries, start)
      modifies this
      ensures Indexed(entries, index) && Heap(entries) && |entries| == old(|entries|) && Contents() == old(Contents())
    {
      var i: nat := start;
      while true
        invariant i < |entries| == old(|entries|) && Indexed(entries, index) && HeapButDown(entries, i) &&
                  Contents() == old(Contents())
        decreases |entries| - i
      {
        var left := i * 2 + 1;
        if left >= |entries| { break; }
        var smallest, right := left, left + 1;
        if right < |entries| && entries[right].expires < entries[left].expires { smallest := right; }
        if entries[smallest].expires >= entries[i].expires { break; }
        SiftDownStep(entries, i, smallest);
        Swap(i, smallest);
        i := smallest;
      }
      SiftDownDone(entries, i);
    }

    method Swap(left: nat, right: nat)
      requires Indexed(entries, index) && left < |entries| && right < |entries| && left != right
      modifies this
      ensures Indexed(entries, index) && entries == Swapped(old(entries), left, right) && Contents() == old(Contents())
    {
      SwapKeepsIndex(entries, index, left, right);
      entries := entries[left := entries[right]][right := entries[left]];
      index := index[entries[left].key := left];
      index := index[entries[right].key := right];
    }
  }
}
