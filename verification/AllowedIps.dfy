/** The AllowedIPs table (internal/core/peerroute/allowedips.go): an array trie
    against longest-prefix match over the configured list. */
module AllowedIps {
  import opened Wire
  import opened Basics

  type PeerID = u32
  type Path = seq<bool>

  const MAX_UINT32 := 0xffff_ffff

  // ----- addresses and prefixes

  datatype Addr = NoAddr | V4(bytes: seq<byte>) | V6(bytes: seq<byte>, zone: string)

  predicate IsValid(a: Addr) {
    match a
    case NoAddr => false
    case V4(bytes) => |bytes| == 4
    case V6(bytes, _) => |bytes| == 16
  }

  predicate Is4In6(a: Addr) {
    a.V6? && |a.bytes| == 16 && a.bytes[..12] == [0, 0, 0, 0, 0, 0, 0, 0, 0, 0, 0xff, 0xff]
  }

  /** A usable address: valid, unscoped and not IPv4 mapped into IPv6. */
  predicate ValidLookupAddress(a: Addr) {
    IsValid(a) && (a.V6? ==> a.zone == "") && !Is4In6(a)
  }

  datatype Prefix = Prefix(addr: Addr, bits: int)

  predicate ValidAllowedPrefix(p: Prefix) {
    ValidLookupAddress(p.addr) && 0 <= p.bits <= 8 * |p.addr.bytes|
  }

  /** Bit k of a byte, most significant first. */
  function BitOf(x: byte, k: nat): nat {
    match k
    case 0 => x as nat / 128
    case 1 => x as nat / 64 % 2
    case 2 => x as nat / 32 % 2
    case 3 => x as nat / 16 % 2
    case 4 => x as nat / 8 % 2
    case 5 => x as nat / 4 % 2
    case 6 => x as nat / 2 % 2
    case _ => x as nat % 2
  }

  function AddressBit(bytes: seq<byte>, depth: nat): nat
    requires depth < 8 * |bytes|
  {
    BitOf(bytes[depth / 8], depth % 8)
  }

  function Bits(bytes: seq<byte>): (p: Path)
    ensures |p| == 8 * |bytes|
  {
    seq(8 * |bytes|, d requires 0 <= d < 8 * |bytes| => AddressBit(bytes, d) == 1)
  }

  datatype AllowedIP = AllowedIP(prefix: Prefix, peer: PeerID)

  // ----- addresses as numbers

  /** The big-endian number of the bytes. */
  function Value(bytes: seq<byte>): nat {
    if bytes == [] then 0 else 0x100 * Value(bytes[..|bytes| - 1]) + bytes[|bytes| - 1] as nat
  }

  function AddressBits(a: Addr): nat { if a.V4? then 32 else 128 }

  /** The number that the first bits bits of an address spell: all others are shifted out. */
  function Leading(a: Addr, bits: nat): nat
    requires IsValid(a) && bits <= AddressBits(a)
  {
    ShiftRight(Value(a.bytes), AddressBits(a) - bits)
  }

  /** The number that a path spells, most significant digit first. */
  function PathValue(p: Path): nat {
    if p == [] then 0 else 2 * PathValue(p[..|p| - 1]) + if p[|p| - 1] then 1 else 0
  }

  lemma PathValueSnoc(p: Path, b: bool)
    ensures PathValue(p + [b]) == 2 * PathValue(p) + if b then 1 else 0
  {
    assert (p + [b])[..|p|] == p;
  }

  lemma PathValueTwo(p: Path, a: bool, b: bool)
    ensures PathValue(p + [a, b]) == 4 * PathValue(p) + (if a then 2 else 0) + if b then 1 else 0
  {
    assert p + [a, b] == p + [a] + [b];
    PathValueSnoc(p, a);
    PathValueSnoc(p + [a], b);
  }

  function BytePath(x: byte): (p: Path)
    ensures |p| == 8
  {
    ([BitOf(x, 0) == 1, BitOf(x, 1) == 1] + [BitOf(x, 2) == 1, BitOf(x, 3) == 1])
    + ([BitOf(x, 4) == 1, BitOf(x, 5) == 1] + [BitOf(x, 6) == 1, BitOf(x, 7) == 1])
  }

  function Digit(b: bool, weight: nat): nat { if b then weight else 0 }

  lemma PathValueFour(p: Path, a: bool, b: bool, c: bool, d: bool)
    ensures PathValue(p + ([a, b] + [c, d])) == 16 * PathValue(p) + Digit(a, 8) + Digit(b, 4) + Digit(c, 2)
            + Digit(d, 1)
  {
    assert p + ([a, b] + [c, d]) == p + [a, b] + [c, d];
    PathValueTwo(p, a, b);
    PathValueTwo(p + [a, b], c, d);
  }

  lemma PathValueByte(p: Path, x: byte)
    ensures PathValue(p + BytePath(x)) == 0x100 * PathValue(p) + x as nat
  {
    var hi := [BitOf(x, 0) == 1, BitOf(x, 1) == 1] + [BitOf(x, 2) == 1, BitOf(x, 3) == 1];
    var lo := [BitOf(x, 4) == 1, BitOf(x, 5) == 1] + [BitOf(x, 6) == 1, BitOf(x, 7) == 1];
    Assoc(p, hi, lo);
    PathValueFour(p, BitOf(x, 0) == 1, BitOf(x, 1) == 1, BitOf(x, 2) == 1, BitOf(x, 3) == 1);
    PathValueFour(p + hi, BitOf(x, 4) == 1, BitOf(x, 5) == 1, BitOf(x, 6) == 1, BitOf(x, 7) == 1);
    ByteIsItsDigits(x);
  }

  lemma ByteIsItsDigits(x: byte)
    ensures x as nat == 16 * (Digit(BitOf(x, 0) == 1, 8) + Digit(BitOf(x, 1) == 1, 4) + Digit(BitOf(x, 2) == 1, 2)
                              + Digit(BitOf(x, 3) == 1, 1))
                        + Digit(BitOf(x, 4) == 1, 8) + Digit(BitOf(x, 5) == 1, 4) + Digit(BitOf(x, 6) == 1, 2)
                        + Digit(BitOf(x, 7) == 1, 1)
  {
    BitsAreBinary(x);
    ByteIsItsBits(x);
    SumOfDigits(x as nat, BitOf(x, 0), BitOf(x, 1), BitOf(x, 2), BitOf(x, 3), BitOf(x, 4), BitOf(x, 5), BitOf(x, 6),
                BitOf(x, 7));
  }

  lemma SumOfDigits(x: nat, b0: nat, b1: nat, b2: nat, b3: nat, b4: nat, b5: nat, b6: nat, b7: nat)
    requires b0 < 2 && b1 < 2 && b2 < 2 && b3 < 2 && b4 < 2 && b5 < 2 && b6 < 2 && b7 < 2
    requires x == 64 * (2 * b0 + b1) + 16 * (2 * b2 + b3) + 4 * (2 * b4 + b5) + 2 * b6 + b7
    ensures x == 16 * (Digit(b0 == 1, 8) + Digit(b1 == 1, 4) + Digit(b2 == 1, 2) + Digit(b3 == 1, 1))
                 + Digit(b4 == 1, 8) + Digit(b5 == 1, 4) + Digit(b6 == 1, 2) + Digit(b7 == 1, 1)
  {
    DigitIs(b0, 8);
    DigitIs(b1, 4);
    DigitIs(b2, 2);
    DigitIs(b3, 1);
    DigitIs(b4, 8);
    DigitIs(b5, 4);
    DigitIs(b6, 2);
    DigitIs(b7, 1);
  }

  lemma DigitIs(b: nat, weight: nat)
    requires b < 2
    ensures Digit(b == 1, weight) == weight * b
  {}

  lemma BitsAreBinary(x: byte)
    ensures BitOf(x, 0) < 2 && BitOf(x, 1) < 2 && BitOf(x, 2) < 2 && BitOf(x, 3) < 2
    ensures BitOf(x, 4) < 2 && BitOf(x, 5) < 2 && BitOf(x, 6) < 2 && BitOf(x, 7) < 2
  {}

  /** The bits of an address spell its number. */
  lemma {:induction false} BitsSpellValue(bytes: seq<byte>)
    ensures PathValue(Bits(bytes)) == Value(bytes)
  {
    if bytes != [] {
      var n := |bytes| - 1;
      BitsSpellValue(bytes[..n]);
      BitsSnoc(bytes[..n], bytes[n]);
      assert bytes == bytes[..n] + [bytes[n]];
      PathValueByte(Bits(bytes[..n]), bytes[n]);
    }
  }

  lemma BitAt(bytes: seq<byte>, i: nat, k: nat)
    requires i < |bytes| && k < 8
    ensures Bits(bytes)[8 * i + k] == (BitOf(bytes[i], k) == 1)
  {
    assert (8 * i + k) / 8 == i && (8 * i + k) % 8 == k;
  }

  lemma BytePathAt(x: byte, k: nat)
    requires k < 8
    ensures BytePath(x)[k] == (BitOf(x, k) == 1)
  {}

  lemma BitSnocAt(bytes: seq<byte>, x: byte, i: nat, k: nat)
    requires i <= |bytes| && k < 8
    ensures Bits(bytes + [x])[8 * i + k] == (Bits(bytes) + BytePath(x))[8 * i + k]
  {
    BitAt(bytes + [x], i, k);
    if i < |bytes| { BitAt(bytes, i, k); } else { BytePathAt(x, k); }
  }

  lemma BitsSnoc(bytes: seq<byte>, x: byte)
    ensures Bits(bytes + [x]) == Bits(bytes) + BytePath(x)
  {
    var a, b := Bits(bytes + [x]), Bits(bytes) + BytePath(x);
    forall d | 0 <= d < |a| ensures a[d] == b[d] { BitSnocAt(bytes, x, d / 8, d % 8); }
  }

  /** The first k bits spell what is left when the others are shifted out. */
  lemma {:induction false} PathShift(p: Path, k: nat)
    requires k <= |p|
    ensures PathValue(p[..k]) == ShiftRight(PathValue(p), |p| - k)
    decreases |p| - k
  {
    if k == |p| {
      assert p[..k] == p;
    } else {
      var q := p[..|p| - 1];
      PathShift(q, k);
      assert q[..k] == p[..k];
    }
  }

  lemma {:induction false} PathValueInjective(p: Path, q: Path)
    requires |p| == |q| && PathValue(p) == PathValue(q)
    ensures p == q
  {
    if p != [] {
      var n := |p| - 1;
      PathValueInjective(p[..n], q[..n]);
      assert p == p[..n] + [p[n]] && q == q[..n] + [q[n]];
    }
  }

  lemma LeadingSpells(a: Addr, bits: nat)
    requires IsValid(a) && bits <= AddressBits(a)
    ensures PathValue(Bits(a.bytes)[..bits]) == Leading(a, bits)
  {
    BitsSpellValue(a.bytes);
    PathShift(Bits(a.bytes), bits);
  }

  /** The first bits bits of two addresses agree exactly when the numbers they spell do. */
  lemma LeadingIsPath(a: Addr, b: Addr, bits: nat)
    requires IsValid(a) && IsValid(b) && a.V4? == b.V4? && bits <= AddressBits(a)
    ensures Bits(a.bytes)[..bits] == Bits(b.bytes)[..bits] <==> Leading(a, bits) == Leading(b, bits)
  {
    var p, q := Bits(a.bytes)[..bits], Bits(b.bytes)[..bits];
    LeadingSpells(a, bits);
    LeadingSpells(b, bits);
    if PathValue(p) == PathValue(q) { PathValueInjective(p, q); }
  }

  /** What Prefix.Masked keeps: the family and the leading bits. */
  datatype Masked = Masked(v4: bool, path: Path)

  function MaskedOf(p: Prefix): Masked
    requires ValidAllowedPrefix(p)
  {
    Masked(p.addr.V4?, Bits(p.addr.bytes)[..p.bits])
  }

  /** Prefixes normalize to the same one exactly when family, length and leading number agree. */
  lemma SameMasked(p: Prefix, q: Prefix)
    requires ValidAllowedPrefix(p) && ValidAllowedPrefix(q)
    ensures MaskedOf(p) == MaskedOf(q) <==>
              p.addr.V4? == q.addr.V4? && p.bits == q.bits && Leading(p.addr, p.bits) == Leading(q.addr, p.bits)
  {
    assert |MaskedOf(p).path| == p.bits && |MaskedOf(q).path| == q.bits;
    if p.addr.V4? == q.addr.V4? && p.bits == q.bits { LeadingIsPath(p.addr, q.addr, p.bits); }
  }

  // ----- the trie

  /** A child is a node index plus one; zero means absent. */
  datatype Node = Node(zero: nat, one: nat, peer: PeerID, hasPeer: bool)

  const EMPTY := Node(0, 0, 0, false)

  function ChildOf(n: Node, b: bool): nat { if b then n.one else n.zero }

  function SetChild(n: Node, b: bool, link: nat): Node { if b then n.(one := link) else n.(zero := link) }

  type Places = map<Path, nat>
  type Routes = map<Path, PeerID>

  function Link(at: Places, p: Path): nat { if p in at then at[p] + 1 else 0 }

  /** The node at path p has p's children, p's owner and its parent in the trie. */
  ghost predicate NodeOk(nodes: seq<Node>, at: Places, path: seq<Path>, routes: Routes, p: Path) {
    && p in at && at[p] < |nodes| == |path| && path[at[p]] == p
    && nodes[at[p]].zero == Link(at, p + [false]) && nodes[at[p]].one == Link(at, p + [true])
    && (nodes[at[p]].hasPeer <==> p in routes) && (p in routes ==> nodes[at[p]].peer == routes[p])
    && (p != [] ==> p[..|p| - 1] in at)
  }

  ghost predicate TrieOk(nodes: seq<Node>, at: Places, path: seq<Path>, routes: Routes) {
    && [] in at && at[[]] == 0 && routes.Keys <= at.Keys && 0 < |nodes| == |path| == |at|
    && (forall p {:trigger NodeOk(nodes, at, path, routes, p)} :: p in at ==> NodeOk(nodes, at, path, routes, p))
  }

  lemma {:induction false} PrefixesPresent(nodes: seq<Node>, at: Places, path: seq<Path>, routes: Routes, p: Path,
                                n: nat)
    requires TrieOk(nodes, at, path, routes) && p in at && n <= |p|
    ensures p[..n] in at
    decreases |p|
  {
    if n == |p| {
      assert p[..n] == p;
    } else {
      assert NodeOk(nodes, at, path, routes, p);
      PrefixesPresent(nodes, at, path, routes, p[..|p| - 1], n);
      assert p[..|p| - 1][..n] == p[..n];
    }
  }

  lemma SnocInjective(p: Path, a: bool, q: Path, b: bool)
    requires p + [a] == q + [b]
    ensures p == q && a == b
  {
    assert (p + [a])[..|p|] == p && (q + [b])[..|q|] == q;
    assert (p + [a])[|p|] == a && (q + [b])[|q|] == b;
  }

  lemma NothingBelowAbsent(nodes: seq<Node>, at: Places, path: seq<Path>, routes: Routes, q: Path, x: bool)
    requires TrieOk(nodes, at, path, routes) && q !in at
    ensures q + [x] !in at
  {
    assert (q + [x])[..|q|] == q;
    if q + [x] in at { PrefixesPresent(nodes, at, path, routes, q + [x], |q|); }
  }

  lemma LinkElsewhere(at: Places, p: Path, b: bool, r: Path, x: bool, index: nat)
    ensures Link(at[p + [b] := index], r + [x]) == if r == p && x == b then index + 1 else Link(at, r + [x])
  {
    if r + [x] == p + [b] { SnocInjective(r, x, p, b); }
  }

  function WithLeaf(nodes: seq<Node>, i: nat, b: bool): seq<Node>
    requires i < |nodes|
  {
    (nodes + [EMPTY])[i := SetChild(nodes[i], b, |nodes| + 1)]
  }

  lemma OldNodeKept(nodes: seq<Node>, at: Places, path: seq<Path>, routes: Routes, p: Path, b: bool, r: Path)
    requires NodeOk(nodes, at, path, routes, p) && NodeOk(nodes, at, path, routes, r) && p + [b] !in at
    ensures NodeOk(WithLeaf(nodes, at[p], b), at[p + [b] := |nodes|], path + [p + [b]], routes, r)
  {
    LinkElsewhere(at, p, b, r, false, |nodes|);
    LinkElsewhere(at, p, b, r, true, |nodes|);
  }

  /** A new leaf below p. */
  lemma LeafKeepsTrie(nodes: seq<Node>, at: Places, path: seq<Path>, routes: Routes, p: Path, b: bool)
    requires TrieOk(nodes, at, path, routes) && p in at && p + [b] !in at
    ensures at[p] < |nodes|
    ensures TrieOk(WithLeaf(nodes, at[p], b), at[p + [b] := |nodes|], path + [p + [b]], routes)
  {
    assert NodeOk(nodes, at, path, routes, p);
    var q, nodes', path' := p + [b], WithLeaf(nodes, at[p], b), path + [p + [b]];
    var at' := at[q := |nodes|];
    forall r | r in at' ensures NodeOk(nodes', at', path', routes, r) {
      if r == q {
        assert q[..|q| - 1] == p;
        NothingBelowAbsent(nodes, at, path, routes, q, false);
        NothingBelowAbsent(nodes, at, path, routes, q, true);
      } else {
        assert NodeOk(nodes, at, path, routes, r);
        OldNodeKept(nodes, at, path, routes, p, b, r);
      }
    }
    assert at'.Keys == at.Keys + {q};
  }

  lemma OwnerKeepsTrie(nodes: seq<Node>, at: Places, path: seq<Path>, routes: Routes, p: Path, peer: PeerID)
    requires TrieOk(nodes, at, path, routes) && p in at
    ensures at[p] < |nodes|
    ensures TrieOk(nodes[at[p] := nodes[at[p]].(peer := peer, hasPeer := true)], at, path, routes[p := peer])
  {
    assert NodeOk(nodes, at, path, routes, p);
    var nodes', routes' := nodes[at[p] := nodes[at[p]].(peer := peer, hasPeer := true)], routes[p := peer];
    forall r | r in at ensures NodeOk(nodes', at, path, routes', r) {
      assert NodeOk(nodes, at, path, routes, r);
      assert at[r] == at[p] ==> r == p;
    }
  }

  /** The longest of the first n prefixes of p that has an owner. */
  function Longest(routes: Routes, p: Path, n: nat): Option<PeerID>
    requires n <= |p|
  {
    if p[..n] in routes then Some(routes[p[..n]]) else if n == 0 then None else Longest(routes, p, n - 1)
  }

  /** Where the trie ends, nothing longer has an owner. */
  lemma {:induction false} NothingBelow(nodes: seq<Node>, at: Places, path: seq<Path>, routes: Routes, p: Path, d: nat,
                                n: nat)
    requires TrieOk(nodes, at, path, routes) && d < n <= |p| && p[..d + 1] !in at
    ensures Longest(routes, p, n) == Longest(routes, p, d)
    decreases n
  {
    assert p[..n][..d + 1] == p[..d + 1];
    if p[..n] in routes { PrefixesPresent(nodes, at, path, routes, p[..n], d + 1); }
    if d + 1 < n { NothingBelow(nodes, at, path, routes, p, d, n - 1); }
  }

  class RouteTrie {
    var nodes: seq<Node>
    ghost var at: Places
    ghost var path: seq<Path>
    /** Who owns which prefix. */
    ghost var routes: Routes

    ghost predicate Valid()
      reads this
    {
      TrieOk(nodes, at, path, routes) && |nodes| <= MAX_UINT32
    }

    constructor ()
      ensures Valid() && routes == map[] && |nodes| == 1
    {
      nodes, at, path, routes := [EMPTY], map[[] := 0], [[]], map[];
    }

    method Child(parent: nat, b: bool, ghost p: Path) returns (child: Option<nat>)
      requires Valid() && p in at && at[p] == parent
      modifies this
      ensures Valid() && routes == old(routes) && (forall r :: r in old(at) ==> r in at && at[r] == old(at)[r])
      ensures child.Some? ==> p + [b] in at && at[p + [b]] == child.value && |nodes| <= old(|nodes|) + 1
      ensures child.None? ==> |nodes| >= MAX_UINT32 && |nodes| == old(|nodes|)
    {
      assert NodeOk(nodes, at, path, routes, p);
      var encoded := ChildOf(nodes[parent], b);
      if encoded != 0 { return Some(encoded - 1); }
      if |nodes| >= MAX_UINT32 { return None; }
      LeafKeepsTrie(nodes, at, path, routes, p, b);
      var index := |nodes|;
      ghost var before := nodes;
      nodes := nodes + [EMPTY];
      nodes := nodes[parent := SetChild(nodes[parent], b, index + 1)];
      assert nodes == WithLeaf(before, parent, b);
      at, path := at[p + [b] := index], path + [p + [b]];
      child := Some(index);
    }

    /** Makes peer the owner of the first bits bits of bytes. */
    method Insert(bytes: seq<byte>, bits: nat, peer: PeerID) returns (ok: bool)
      requires Valid() && bits <= 8 * |bytes|
      modifies this
      ensures Valid() && routes == if ok then old(routes)[Bits(bytes)[..bits] := peer] else old(routes)
      ensures |nodes| <= old(|nodes|) + bits
      ensures !ok ==> |nodes| >= MAX_UINT32
    {
      ghost var p := Bits(bytes);
      var nodeIndex, depth := 0, 0;
      assert p[..0] == [];
      while depth < bits
        invariant Valid() && routes == old(routes) && depth <= bits && |nodes| <= old(|nodes|) + depth
        invariant p[..depth] in at && at[p[..depth]] == nodeIndex
      {
        assert p[..depth] + [AddressBit(bytes, depth) == 1] == p[..depth + 1];
        var child := Child(nodeIndex, AddressBit(bytes, depth) == 1, p[..depth]);
        if child.None? { return false; }
        nodeIndex := child.value;
        depth := depth + 1;
      }
      OwnerKeepsTrie(nodes, at, path, routes, p[..bits], peer);
      nodes := nodes[nodeIndex := nodes[nodeIndex].(peer := peer, hasPeer := true)];
      routes := routes[p[..bits] := peer];
      ok := true;
    }

    /** The owner of the longest prefix of bytes that has one. */
    method Lookup(bytes: seq<byte>) returns (owner: Option<PeerID>)
      requires Valid()
      ensures owner == Longest(routes, Bits(bytes), 8 * |bytes|)
    {
      ghost var p := Bits(bytes);
      var nodeIndex, depth := 0, 0;
      assert p[..0] == [] && NodeOk(nodes, at, path, routes, []);
      owner := if nodes[0].hasPeer then Some(nodes[0].peer) else None;
      while depth < 8 * |bytes|
        invariant depth <= 8 * |bytes| && p[..depth] in at && at[p[..depth]] == nodeIndex
        invariant owner == Longest(routes, p, depth)
      {
        assert NodeOk(nodes, at, path, routes, p[..depth]);
        assert p[..depth] + [p[depth]] == p[..depth + 1];
        var encoded := ChildOf(nodes[nodeIndex], AddressBit(bytes, depth) == 1);
        if encoded == 0 {
          NothingBelow(nodes, at, path, routes, p, depth, 8 * |bytes|);
          return;
        }
        nodeIndex := encoded - 1;
        depth := depth + 1;
        assert NodeOk(nodes, at, path, routes, p[..depth]);
        if nodes[nodeIndex].hasPeer { owner := Some(nodes[nodeIndex].peer); }
      }
    }
  }

  // ----- longest-prefix match over the configured list

  /** The first n entries are valid and no two normalize to the same prefix. */
  ghost predicate Usable(allowed: seq<AllowedIP>, n: nat)
    requires n <= |allowed|
  {
    && (forall i {:trigger ValidAllowedPrefix(allowed[i].prefix)} ::
         0 <= i < n ==> ValidAllowedPrefix(allowed[i].prefix))
    && (forall i, j {:trigger MaskedOf(allowed[i].prefix), MaskedOf(allowed[j].prefix)} ::
          0 <= i < j < n && ValidAllowedPrefix(allowed[i].prefix) && ValidAllowedPrefix(allowed[j].prefix) ==>
          MaskedOf(allowed[i].prefix) != MaskedOf(allowed[j].prefix))
  }

  /** Both addresses begin with the same number in the entry's leading bits. */
  predicate Covers(e: AllowedIP, a: Addr)
    requires ValidLookupAddress(a)
  {
    && ValidAllowedPrefix(e.prefix) && e.prefix.addr.V4? == a.V4?
    && Leading(e.prefix.addr, e.prefix.bits) == Leading(a, e.prefix.bits)
  }

  /** An entry covers an address exactly when the families agree and so do the
      quotients of both numbers by the power of two of the bits behind the prefix. */
  lemma CoversIsQuotient(e: AllowedIP, a: Addr)
    requires ValidLookupAddress(a)
    ensures Covers(e, a) <==>
              && ValidAllowedPrefix(e.prefix) && e.prefix.addr.V4? == a.V4?
              && Value(e.prefix.addr.bytes) / Pow2((if a.V4? then 32 else 128) - e.prefix.bits)
                 == Value(a.bytes) / Pow2((if a.V4? then 32 else 128) - e.prefix.bits)
  {
    if ValidAllowedPrefix(e.prefix) && e.prefix.addr.V4? == a.V4? {
      ShiftIsQuotient(Value(e.prefix.addr.bytes), AddressBits(a) - e.prefix.bits);
      ShiftIsQuotient(Value(a.bytes), AddressBits(a) - e.prefix.bits);
    }
  }

  lemma CoversIsPath(e: AllowedIP, a: Addr)
    requires ValidLookupAddress(a)
    ensures Covers(e, a) <==>
              && ValidAllowedPrefix(e.prefix) && e.prefix.addr.V4? == a.V4?
              && Bits(e.prefix.addr.bytes)[..e.prefix.bits] == Bits(a.bytes)[..e.prefix.bits]
  {
    if ValidAllowedPrefix(e.prefix) && e.prefix.addr.V4? == a.V4? { LeadingIsPath(e.prefix.addr, a, e.prefix.bits); }
  }

  /** Entry i covers the address and no entry covers it with a longer prefix. */
  ghost predicate IsOwner(allowed: seq<AllowedIP>, a: Addr, i: nat)
    requires ValidLookupAddress(a)
  {
    && i < |allowed| && Covers(allowed[i], a)
    && forall j :: 0 <= j < |allowed| && Covers(allowed[j], a) ==> allowed[j].prefix.bits <= allowed[i].prefix.bits
  }

  ghost predicate OwnedBy(allowed: seq<AllowedIP>, a: Addr, peer: PeerID)
    requires ValidLookupAddress(a)
  {
    exists i: nat :: IsOwner(allowed, a, i) && allowed[i].peer == peer
  }

  lemma OwnerIsUnique(allowed: seq<AllowedIP>, a: Addr, i: nat, j: nat)
    requires ValidLookupAddress(a) && Usable(allowed, |allowed|) && IsOwner(allowed, a, i) && IsOwner(allowed, a, j)
    ensures i == j
  {
    SameMasked(allowed[i].prefix, allowed[j].prefix);
  }

  /** The order of the list does not matter. */
  lemma OrderDoesNotMatter(xs: seq<AllowedIP>, ys: seq<AllowedIP>, a: Addr, peer: PeerID)
    requires ValidLookupAddress(a) && forall e :: e in xs <==> e in ys
    ensures OwnedBy(xs, a, peer) <==> OwnedBy(ys, a, peer)
  {
    if OwnedBy(xs, a, peer) { SameOwner(xs, ys, a, peer); }
    if OwnedBy(ys, a, peer) { SameOwner(ys, xs, a, peer); }
  }

  lemma SameOwner(xs: seq<AllowedIP>, ys: seq<AllowedIP>, a: Addr, peer: PeerID)
    requires ValidLookupAddress(a) && (forall e :: e in xs <==> e in ys) && OwnedBy(xs, a, peer)
    ensures OwnedBy(ys, a, peer)
  {
    var i: nat :| IsOwner(xs, a, i) && xs[i].peer == peer;
    assert xs[i] in ys;
    var k :| 0 <= k < |ys| && ys[k] == xs[i];
    forall j | 0 <= j < |ys| && Covers(ys[j], a) ensures ys[j].prefix.bits <= ys[k].prefix.bits { assert ys[j] in xs; }
    assert IsOwner(ys, a, k);
  }

  /** The routes of one family among the first n entries. */
  function RoutesOf(allowed: seq<AllowedIP>, n: nat, v4: bool): Routes
    requires n <= |allowed|
  {
    if n == 0 then map[]
    else
      var e, rest := allowed[n - 1], RoutesOf(allowed, n - 1, v4);
      if ValidAllowedPrefix(e.prefix) && e.prefix.addr.V4? == v4 then rest[MaskedOf(e.prefix).path := e.peer] else rest
  }

  lemma {:induction false} RouteOfEntry(allowed: seq<AllowedIP>, n: nat, v4: bool, i: nat)
    requires n <= |allowed| && Usable(allowed, n) && i < n && ValidAllowedPrefix(allowed[i].prefix) &&
             allowed[i].prefix.addr.V4? == v4
    ensures MaskedOf(allowed[i].prefix).path in RoutesOf(allowed, n, v4)
    ensures RoutesOf(allowed, n, v4)[MaskedOf(allowed[i].prefix).path] == allowed[i].peer
  {
    assert ValidAllowedPrefix(allowed[n - 1].prefix);
    if i < n - 1 {
      RouteOfEntry(allowed, n - 1, v4, i);
      assert MaskedOf(allowed[i].prefix) != MaskedOf(allowed[n - 1].prefix);
    }
  }

  lemma {:induction false} EntryOfRoute(allowed: seq<AllowedIP>, n: nat, v4: bool, p: Path) returns (i: nat)
    requires n <= |allowed| && p in RoutesOf(allowed, n, v4)
    ensures i < n && ValidAllowedPrefix(allowed[i].prefix) && MaskedOf(allowed[i].prefix) == Masked(v4, p)
  {
    var e := allowed[n - 1];
    if ValidAllowedPrefix(e.prefix) && MaskedOf(e.prefix) == Masked(v4, p) {
      i := n - 1;
    } else {
      i := EntryOfRoute(allowed, n - 1, v4, p);
    }
  }

  lemma {:induction false} LongestIsLongest(routes: Routes, p: Path, n: nat) returns (m: nat)
    requires n <= |p|
    ensures Longest(routes, p, n).Some? ==> m <= n && p[..m] in routes && Longest(routes, p, n) == Some(routes[p[..m]])
    ensures Longest(routes, p, n).Some? ==> forall k :: m < k <= n ==> p[..k] !in routes
    ensures Longest(routes, p, n).None? ==> forall k :: 0 <= k <= n ==> p[..k] !in routes
  {
    m := n;
    if p[..n] !in routes && n > 0 { m := LongestIsLongest(routes, p, n - 1); }
  }

  /** The trie's answer is the owner of the longest covering entry of the list. */
  lemma LookupIsLongestMatch(allowed: seq<AllowedIP>, a: Addr)
    requires ValidLookupAddress(a) && Usable(allowed, |allowed|)
    ensures var answer := Longest(RoutesOf(allowed, |allowed|, a.V4?), Bits(a.bytes), 8 * |a.bytes|);
            && (answer.Some? ==> OwnedBy(allowed, a, answer.value))
            && (answer.None? ==> forall i :: 0 <= i < |allowed| ==> !Covers(allowed[i], a))
  {
    var n, p, routes := 8 * |a.bytes|, Bits(a.bytes), RoutesOf(allowed, |allowed|, a.V4?);
    var m := LongestIsLongest(routes, p, n);
    forall j | 0 <= j < |allowed| && Covers(allowed[j], a)
      ensures Longest(routes, p, n).Some? && allowed[j].prefix.bits <= m
    {
      CoversIsPath(allowed[j], a);
      RouteOfEntry(allowed, |allowed|, a.V4?, j);
      assert p[..allowed[j].prefix.bits] in routes;
    }
    if Longest(routes, p, n).Some? {
      var i := EntryOfRoute(allowed, |allowed|, a.V4?, p[..m]);
      RouteOfEntry(allowed, |allowed|, a.V4?, i);
      CoversIsPath(allowed[i], a);
      assert IsOwner(allowed, a, i);
    }
  }

  lemma {:induction false} ValueIsFaithful(a: seq<byte>, b: seq<byte>)
    requires |a| == |b| && Value(a) == Value(b)
    ensures a == b
  {
    if a != [] {
      var n := |a| - 1;
      ValueIsFaithful(a[..n], b[..n]);
      assert a == a[..n] + [a[n]] && b == b[..n] + [b[n]];
    }
  }

  /** The bits determine the address. */
  lemma BitsAreFaithful(a: seq<byte>, b: seq<byte>)
    requires |a| == |b| && Bits(a) == Bits(b)
    ensures a == b
  {
    BitsSpellValue(a);
    BitsSpellValue(b);
    ValueIsFaithful(a, b);
  }

  lemma Bits01(x: byte)
    ensures x as nat / 64 == 2 * BitOf(x, 0) + BitOf(x, 1)
  {}

  lemma Bits23(x: byte)
    ensures x as nat / 16 == 4 * (x as nat / 64) + 2 * BitOf(x, 2) + BitOf(x, 3)
  {}

  lemma Bits45(x: byte)
    ensures x as nat / 4 == 4 * (x as nat / 16) + 2 * BitOf(x, 4) + BitOf(x, 5)
  {}

  lemma Bits67(x: byte)
    ensures x as nat == 4 * (x as nat / 4) + 2 * BitOf(x, 6) + BitOf(x, 7)
  {}

  /** A byte is the value of its eight bits. */
  lemma ByteIsItsBits(x: byte)
    ensures x as nat == 64 * (2 * BitOf(x, 0) + BitOf(x, 1)) + 16 * (2 * BitOf(x, 2) + BitOf(x, 3))
                      + 4 * (2 * BitOf(x, 4) + BitOf(x, 5)) + 2 * BitOf(x, 6) + BitOf(x, 7)
  {
    Bits01(x);
    Bits23(x);
    Bits45(x);
    Bits67(x);
  }

  // ----- the snapshot

  datatype BuildError =
    | InvalidEntry(index: nat)
    | DuplicateEntry(prefix: Masked, first: nat, second: nat, firstPeer: PeerID, secondPeer: PeerID)
    | TooManyEntries(index: nat)

  datatype Seen = Seen(index: nat, peer: PeerID)

  /** seen records the first n entries by their normalized prefix. */
  ghost predicate Recorded(allowed: seq<AllowedIP>, n: nat, seen: map<Masked, Seen>)
    requires n <= |allowed|
  {
    && Usable(allowed, n)
    && (forall m {:trigger m in seen} :: m in seen ==>
          && seen[m].index < n && ValidAllowedPrefix(allowed[seen[m].index].prefix)
          && MaskedOf(allowed[seen[m].index].prefix) == m && seen[m].peer == allowed[seen[m].index].peer)
    && (forall i {:trigger MaskedOf(allowed[i].prefix)} ::
         0 <= i < n && ValidAllowedPrefix(allowed[i].prefix) ==> MaskedOf(allowed[i].prefix) in seen)
  }

  lemma RecordOne(allowed: seq<AllowedIP>, n: nat, seen: map<Masked, Seen>)
    requires n < |allowed| && Recorded(allowed, n, seen) && ValidAllowedPrefix(allowed[n].prefix) &&
             MaskedOf(allowed[n].prefix) !in seen
    ensures Recorded(allowed, n + 1, seen[MaskedOf(allowed[n].prefix) := Seen(n, allowed[n].peer)])
  {
    forall i | 0 <= i < n + 1
      ensures ValidAllowedPrefix(allowed[i].prefix)
    {
      assert i < n ==> ValidAllowedPrefix(allowed[i].prefix);
    }
  }

  class Snapshot {
    const v4: RouteTrie
    const v6: RouteTrie
    const entries: nat
    /** The list the snapshot was built from. */
    ghost const allowed: seq<AllowedIP>

    ghost predicate Valid()
      reads v4, v6
    {
      && v4.Valid() && v6.Valid() && entries == |allowed| && Usable(allowed, |allowed|)
      && v4.routes == RoutesOf(allowed, |allowed|, true) && v6.routes == RoutesOf(allowed, |allowed|, false)
    }

    constructor (v4: RouteTrie, v6: RouteTrie, allowed: seq<AllowedIP>)
      requires v4.Valid() && v6.Valid() && Usable(allowed, |allowed|)
      requires v4.routes == RoutesOf(allowed, |allowed|, true) && v6.routes == RoutesOf(allowed, |allowed|, false)
      ensures Valid() && this.allowed == allowed
    {
      this.v4, this.v6, this.entries, this.allowed := v4, v6, |allowed|, allowed;
    }

    /** The owner of the longest configured prefix that covers the address. */
    method LookupPeer(a: Addr) returns (owner: Option<PeerID>)
      requires Valid()
      ensures !ValidLookupAddress(a) ==> owner == None
      ensures ValidLookupAddress(a) && owner.Some? ==> OwnedBy(allowed, a, owner.value)
      ensures ValidLookupAddress(a) && owner.None? ==> forall i :: 0 <= i < |allowed| ==> !Covers(allowed[i], a)
    {
      if !ValidLookupAddress(a) { return None; }
      LookupIsLongestMatch(allowed, a);
      if a.V4? {
        owner := v4.Lookup(a.bytes);
      } else {
        owner := v6.Lookup(a.bytes);
      }
    }

    /** Accepts a source exactly when its global longest-prefix owner is peer. */
    method ValidateSource(peer: PeerID, source: Addr) returns (ok: bool)
      requires Valid()
      ensures ok <==> ValidLookupAddress(source) && OwnedBy(allowed, source, peer)
    {
      var owner := LookupPeer(source);
      ok := owner == Some(peer);
      if ValidLookupAddress(source) && OwnedBy(allowed, source, peer) { OwnerIsAnswer(allowed, source, peer, owner); }
    }
  }

  lemma OwnerIsAnswer(allowed: seq<AllowedIP>, a: Addr, peer: PeerID, owner: Option<PeerID>)
    requires ValidLookupAddress(a) && Usable(allowed, |allowed|) && OwnedBy(allowed, a, peer)
    requires owner.Some? ==> OwnedBy(allowed, a, owner.value)
    requires owner.None? ==> forall i :: 0 <= i < |allowed| ==> !Covers(allowed[i], a)
    ensures owner == Some(peer)
  {
    var i: nat :| IsOwner(allowed, a, i) && allowed[i].peer == peer;
    if owner.Some? {
      var j: nat :| IsOwner(allowed, a, j) && allowed[j].peer == owner.value;
      OwnerIsUnique(allowed, a, i, j);
    }
  }

  method InsertEntry(v4: RouteTrie, v6: RouteTrie, allowed: seq<AllowedIP>, index: nat) returns (ok: bool)
    requires index < |allowed| && ValidAllowedPrefix(allowed[index].prefix) && v4 != v6 && v4.Valid() && v6.Valid()
    requires v4.routes == RoutesOf(allowed, index, true) && v6.routes == RoutesOf(allowed, index, false)
    modifies v4, v6
    ensures v4.Valid() && v6.Valid() && |v4.nodes| <= old(|v4.nodes|) + 128 && |v6.nodes| <= old(|v6.nodes|) + 128
    ensures ok ==> v4.routes == RoutesOf(allowed, index + 1, true) && v6.routes == RoutesOf(allowed, index + 1, false)
    ensures !ok ==> |v4.nodes| >= MAX_UINT32 || |v6.nodes| >= MAX_UINT32
  {
    var e := allowed[index];
    if e.prefix.addr.V4? {
      ok := v4.Insert(e.prefix.addr.bytes, e.prefix.bits, e.peer);
    } else {
      ok := v6.Insert(e.prefix.addr.bytes, e.prefix.bits, e.peer);
    }
  }

  /** The error names the first entry that is invalid, repeats an earlier prefix,
      or exceeds what 32-bit node indexes can hold. */
  ghost predicate Blames(allowed: seq<AllowedIP>, error: BuildError) {
    match error
    case InvalidEntry(i) => i < |allowed| && Usable(allowed, i) && !ValidAllowedPrefix(allowed[i].prefix)
    case DuplicateEntry(prefix, i, j, firstPeer, secondPeer) =>
      && i < j < |allowed| && Usable(allowed, j) && ValidAllowedPrefix(allowed[i].prefix) &&
           ValidAllowedPrefix(allowed[j].prefix)
      && prefix == MaskedOf(allowed[i].prefix) == MaskedOf(allowed[j].prefix)
      && firstPeer == allowed[i].peer && secondPeer == allowed[j].peer
    case TooManyEntries(i) => MAX_UINT32 / 128 <= i < |allowed| && Usable(allowed, i + 1)
  }

  method CheckEntry(allowed: seq<AllowedIP>, index: nat, seen: map<Masked, Seen>) returns (fault: Option<BuildError>)
    requires index < |allowed| && Recorded(allowed, index, seen)
    ensures fault.Some? ==> Blames(allowed, fault.value)
    ensures fault.None? ==> ValidAllowedPrefix(allowed[index].prefix) && MaskedOf(allowed[index].prefix) !in seen
  {
    var e := allowed[index];
    if !ValidAllowedPrefix(e.prefix) { return Some(InvalidEntry(index)); }
    var prefix := MaskedOf(e.prefix);
    if prefix in seen { return Some(DuplicateEntry(prefix, seen[prefix].index, index, seen[prefix].peer, e.peer)); }
    fault := None;
  }

  /** Adds one entry to the list of prefixes and to its family's trie. */
  method AddEntry(v4: RouteTrie, v6: RouteTrie, allowed: seq<AllowedIP>, index: nat, seen: map<Masked, Seen>)
    returns (fault: Option<BuildError>, seen': map<Masked, Seen>)
    requires index < |allowed| && Recorded(allowed, index, seen) && v4 != v6 && v4.Valid() && v6.Valid()
    requires v4.routes == RoutesOf(allowed, index, true) && v6.routes == RoutesOf(allowed, index, false)
    requires |v4.nodes| <= 1 + 128 * index && |v6.nodes| <= 1 + 128 * index
    modifies v4, v6
    ensures fault.Some? ==> Blames(allowed, fault.value)
    ensures fault.None? ==>
              && Recorded(allowed, index + 1, seen') && v4.Valid() && v6.Valid()
              && v4.routes == RoutesOf(allowed, index + 1, true) && v6.routes == RoutesOf(allowed, index + 1, false)
              && |v4.nodes| <= 1 + 128 * (index + 1) && |v6.nodes| <= 1 + 128 * (index + 1)
  {
    seen' := seen;
    fault := CheckEntry(allowed, index, seen);
    if fault.Some? { return; }
    RecordOne(allowed, index, seen);
    seen' := seen[MaskedOf(allowed[index].prefix) := Seen(index, allowed[index].peer)];
    var ok := InsertEntry(v4, v6, allowed, index);
    if !ok { fault := Some(TooManyEntries(index)); }
  }

  /** Builds the snapshot, or says what is wrong with the list. */
  method NewSnapshot(allowed: seq<AllowedIP>) returns (r: Result<Snapshot, BuildError>)
    ensures r.Ok? ==> fresh(r.value) && r.value.Valid() && r.value.allowed == allowed && Usable(allowed, |allowed|)
    ensures r.Err? ==> Blames(allowed, r.error)
  {
    var v4 := new RouteTrie();
    var v6 := new RouteTrie();
    var seen: map<Masked, Seen> := map[];
    var index: nat := 0;
    while index < |allowed|
      invariant index <= |allowed| && Recorded(allowed, index, seen)
      invariant fresh(v4) && fresh(v6) && v4 != v6 && v4.Valid() && v6.Valid()
      invariant v4.routes == RoutesOf(allowed, index, true) && v6.routes == RoutesOf(allowed, index, false)
      invariant |v4.nodes| <= 1 + 128 * index && |v6.nodes| <= 1 + 128 * index
    {
      var fault;
      fault, seen := AddEntry(v4, v6, allowed, index, seen);
      if fault.Some? { return Err(fault.value); }
      index := index + 1;
    }
    var snapshot := new Snapshot(v4, v6, allowed);
    r := Ok(snapshot);
  }
}
