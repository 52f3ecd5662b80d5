// Integer powers of two, the only arithmetic the address plan needs beyond
// addition.
module Powers {

  function Pow2(n: nat): (r: nat)
    ensures r >= 1
  {
    if n == 0 then 1 else 2 * Pow2(n - 1)
  }

  lemma {:induction false} Pow2Add(a: nat, b: nat)
    ensures Pow2(a + b) == Pow2(a) * Pow2(b)
  {
    if a == 0 {
    } else {
      Pow2Add(a - 1, b);
      assert Pow2(a + b) == 2 * (Pow2(a - 1) * Pow2(b));
      assert 2 * (Pow2(a - 1) * Pow2(b)) == (2 * Pow2(a - 1)) * Pow2(b);
    }
  }

  lemma {:induction false} Pow2Mono(a: nat, b: nat)
    requires a <= b
    ensures Pow2(a) <= Pow2(b)
  {
    if a < b {
      Pow2Mono(a, b - 1);
    }
  }

  // x < y at unit u leaves room for one whole unit.
  lemma UnitGap(x: int, y: int, u: int)
    requires x < y && u >= 0
    ensures x * u + u <= y * u
  {
    assert y * u - x * u == (y - x) * u;
    assert (y - x) * u == u + (y - x - 1) * u;
    assert (y - x - 1) * u >= 0;
  }

  // Comparison of multiples of a positive unit.
  lemma UnitLess(x: int, y: int, u: int)
    requires u > 0 && x * u < y * u
    ensures x < y
  {
  }

  // The quotient and remainder of q * u + r by u.
  lemma DivModUnique(n: int, q: int, r: int, u: int)
    requires 0 <= r < u && n == q * u + r
    ensures n / u == q && n % u == r
  {
    var q', r' := n / u, n % u;
    assert n == q' * u + r';
    if q < q' {
      UnitGap(q, q', u);
    } else if q' < q {
      UnitGap(q', q, u);
    }
  }

  // a / u == q says that a lies in the q-th unit.
  lemma DivIsInterval(a: int, q: int, u: int)
    requires u > 0
    ensures a / u == q <==> q * u <= a < q * u + u
  {
    var q', r' := a / u, a % u;
    assert a == q' * u + r';
    if q * u <= a < q * u + u {
      DivModUnique(a, q, a - q * u, u);
    }
  }

  lemma Aligned(a: int, u: int)
    requires u > 0
    ensures a % u == 0 <==> a == (a / u) * u
  {
    assert a == (a / u) * u + a % u;
  }

  // A multiple of u below n * u leaves room for one whole unit below n * u.
  lemma AlignedRoom(a: int, n: int, u: int)
    requires u > 0 && a % u == 0 && a < n * u
    ensures a + u <= n * u
  {
    Aligned(a, u);
    UnitLess(a / u, n, u);
    UnitGap(a / u, n, u);
  }

  lemma AlignedSum(a: int, i: int, u: int)
    requires u > 0 && a % u == 0
    ensures (a + i * u) % u == 0
  {
    Aligned(a, u);
    assert a + i * u == (a / u + i) * u + 0;
    DivModUnique(a + i * u, a / u + i, 0, u);
  }

  // A multiple of k * u is a multiple of u.
  lemma AlignedFiner(a: int, k: int, u: int)
    requires u > 0 && k > 0 && k * u > 0 && a % (k * u) == 0
    ensures a % u == 0 && a == ((a / (k * u)) * k) * u
  {
    var q := a / (k * u);
    Aligned(a, k * u);
    assert q * (k * u) == (q * k) * u;
    DivModUnique(a, q * k, 0, u);
  }

  // A unit that starts before the end of a coarser unit ends no later than it.
  lemma UnitsNest(a: int, b: int, k: int, u: int)
    requires u > 0 && k > 0 && k * u > 0
    requires a % u == 0 && b % (k * u) == 0
    ensures a < b ==> a + u <= b
    ensures a < b + k * u ==> a + u <= b + k * u
  {
    AlignedFiner(b, k, u);
    var q := (b / (k * u)) * k;
    if a < b { AlignedRoom(a, q, u); }
    if a < b + k * u {
      assert b + k * u == (q + k) * u;
      AlignedRoom(a, q + k, u);
    }
  }

  // Of n units, each one fits into the whole.
  lemma UnitFits(i: int, n: int, u: int, size: int)
    requires u > 0 && 0 <= i < n && size == n * u
    ensures 0 <= i * u && i * u + u <= size
  {
    assert i * u >= 0;
    UnitGap(i, n, u);
  }

  // The unit a number below n units lies in.
  lemma UnitOf(a: int, n: int, u: int)
    requires u > 0 && 0 <= a < n * u
    ensures 0 <= a / u < n && (a / u) * u <= a < (a / u) * u + u
  {
    DivIsInterval(a, a / u, u);
    UnitLess(a / u, n, u);
  }
}
