// IPv4 address blocks in prefix notation (section 3.1 of RFC 4632).
// An address is a natural number below 2^32; a CIDR is its network address and
// its prefix length.
module Blocks {
  import opened Powers

  const ADDRESS_SPACE: nat := Pow2(32)

  datatype Cidr = Cidr(base: nat, len: nat)

  ghost predicate Canonical(c: Cidr)
  {
    && c.len <= 32
    && c.base < ADDRESS_SPACE
    && c.base % Pow2(32 - c.len) == 0
  }

  function Size(c: Cidr): nat
    requires c.len <= 32
  {
    Pow2(32 - c.len)
  }

  // The addresses a block holds.
  predicate In(a: int, c: Cidr)
    requires c.len <= 32
  {
    c.base <= a < c.base + Size(c)
  }

  ghost predicate Disjoint(c: Cidr, d: Cidr)
    requires c.len <= 32 && d.len <= 32
  {
    c.base + Size(c) <= d.base || d.base + Size(d) <= c.base
  }

  ghost predicate Inside(inner: Cidr, outer: Cidr)
    requires inner.len <= 32 && outer.len <= 32
  {
    outer.base <= inner.base && inner.base + Size(inner) <= outer.base + Size(outer)
  }

  // net.IPNet.Contains: the address and the network agree on the prefix bits.
  predicate Contains(c: Cidr, a: nat)
    requires c.len <= 32
  {
    a / Size(c) == c.base / Size(c)
  }

  lemma ContainsIsIn(c: Cidr, a: nat)
    requires Canonical(c)
    ensures Contains(c, a) <==> In(a, c)
  {
    Aligned(c.base, Size(c));
    DivIsInterval(a, c.base / Size(c), Size(c));
  }

  // The top of a canonical block is still an address.
  lemma CanonicalFits(c: Cidr)
    requires Canonical(c)
    ensures c.base + Size(c) <= ADDRESS_SPACE
  {
    Pow2Add(c.len, 32 - c.len);
    AlignedRoom(c.base, Pow2(c.len), Size(c));
  }

  // Two canonical blocks never overlap partially: the longer prefix lies inside
  // the shorter one, or they share no address.
  lemma NestedOrDisjoint(outer: Cidr, inner: Cidr)
    requires Canonical(outer) && Canonical(inner) && outer.len <= inner.len
    ensures Contains(outer, inner.base) ==> Inside(inner, outer)
    ensures !Contains(outer, inner.base) ==> Disjoint(inner, outer)
  {
    Pow2Add(inner.len - outer.len, 32 - inner.len);
    UnitsNest(inner.base, outer.base, Pow2(inner.len - outer.len), Size(inner));
    ContainsIsIn(outer, inner.base);
  }

  // The i-th of the 2^b equal parts of a block.
  function Block(c: Cidr, b: nat, i: nat): Cidr
    requires c.len + b <= 32
  {
    Cidr(c.base + i * Pow2(32 - c.len - b), c.len + b)
  }

  lemma SizeSplits(c: Cidr, b: nat)
    requires c.len + b <= 32
    ensures Size(c) == Pow2(b) * Pow2(32 - c.len - b)
  {
    Pow2Add(b, 32 - c.len - b);
  }

  lemma BaseAligned(c: Cidr, b: nat)
    requires Canonical(c) && c.len + b <= 32
    ensures c.base % Pow2(32 - c.len - b) == 0
  {
    SizeSplits(c, b);
    AlignedFiner(c.base, Pow2(b), Pow2(32 - c.len - b));
  }

  lemma BlockAligned(c: Cidr, b: nat, i: nat)
    requires c.len + b <= 32 && c.base % Pow2(32 - c.len - b) == 0
    ensures Block(c, b, i).base % Pow2(32 - c.len - b) == 0
  {
    AlignedSum(c.base, i, Pow2(32 - c.len - b));
  }

  lemma BlockFits(c: Cidr, b: nat, i: nat)
    requires c.len + b <= 32 && i < Pow2(b)
    ensures Inside(Block(c, b, i), c)
  {
    SizeSplits(c, b);
    UnitFits(i, Pow2(b), Pow2(32 - c.len - b), Size(c));
  }

  lemma BlockInside(c: Cidr, b: nat, i: nat)
    requires Canonical(c) && c.len + b <= 32 && i < Pow2(b)
    ensures Canonical(Block(c, b, i)) && Inside(Block(c, b, i), c)
  {
    BaseAligned(c, b);
    BlockAligned(c, b, i);
    BlockFits(c, b, i);
    CanonicalFits(c);
  }

  lemma BlocksDisjoint(c: Cidr, b: nat, i: nat, j: nat)
    requires c.len + b <= 32 && i != j
    ensures Disjoint(Block(c, b, i), Block(c, b, j))
  {
    var u := Pow2(32 - c.len - b);
    if i < j { UnitGap(i, j, u); } else { UnitGap(j, i, u); }
  }

  // The parts cover the whole: every address of c is in exactly one of them.
  lemma BlocksTile(c: Cidr, b: nat, a: nat) returns (i: nat)
    requires Canonical(c) && c.len + b <= 32 && In(a, c)
    ensures i < Pow2(b) && In(a, Block(c, b, i))
    ensures forall j: nat :: j < Pow2(b) && In(a, Block(c, b, j)) ==> j == i
  {
    i := TileOf(c, b, a);
    forall j: nat | j < Pow2(b) && In(a, Block(c, b, j)) ensures j == i {
      SameTile(c, b, a, i, j);
    }
  }

  lemma TileOf(c: Cidr, b: nat, a: nat) returns (i: nat)
    requires c.len + b <= 32 && In(a, c)
    ensures i < Pow2(b) && In(a, Block(c, b, i))
  {
    SizeSplits(c, b);
    UnitOf(a - c.base, Pow2(b), Pow2(32 - c.len - b));
    i := (a - c.base) / Pow2(32 - c.len - b);
  }

  lemma SameTile(c: Cidr, b: nat, a: nat, i: nat, j: nat)
    requires c.len + b <= 32 && In(a, Block(c, b, i)) && In(a, Block(c, b, j))
    ensures i == j
  {
    if i != j { BlocksDisjoint(c, b, i, j); }
  }
}
