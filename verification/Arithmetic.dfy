/** The few facts about integer multiplication and Euclidean division that the
    proofs name explicitly. */
module Arithmetic {

  lemma MulMono(a: int, x: int, y: int)
    requires a >= 0 && x <= y
    ensures a * x <= a * y
  {
    assert a * (y - x) >= 0;
    assert a * (y - x) == a * y - a * x;
  }

  lemma MulStep(a: int, x: int, y: int)
    requires a >= 0 && x < y
    ensures a * x + a <= a * y
  {
    MulMono(a, x + 1, y);
    assert a * (x + 1) == a * x + a;
  }

  lemma DivMod(x: int, d: int)
    requires d > 0
    ensures x == d * (x / d) + x % d && 0 <= x % d < d
  {
  }

  lemma QuotientUnique(d: int, q: int, r: int, q': int, r': int)
    requires 0 <= r < d && 0 <= r' < d
    requires d * q + r == d * q' + r'
    ensures q == q' && r == r'
  {
    if q < q' {
      MulStep(d, q, q');
    } else if q > q' {
      MulStep(d, q', q);
    }
  }

  lemma DivUnique(x: int, d: int, q: int, r: int)
    requires 0 <= r < d && x == d * q + r
    ensures x / d == q && x % d == r
  {
    DivMod(x, d);
    QuotientUnique(d, q, r, x / d, x % d);
  }

  /** Dividing a natural never grows it, and by two or more shrinks it. */
  lemma DivShrinks(z: int, d: int)
    requires z >= 0 && d > 0
    ensures 0 <= z / d <= z
    ensures d > 1 && z > 0 ==> z / d < z
  {
    DivMod(z, d);
    DivShrinksWith(z, d, z / d, z % d);
  }

  lemma DivShrinksWith(z: int, d: int, q: int, r: int)
    requires z >= 0 && 0 <= r < d && z == d * q + r
    ensures 0 <= q <= z
    ensures d > 1 && z > 0 ==> q < z
  {
    if q < 0 {
      MulStep(d, q, 0);
    } else {
      assert q * d >= q;
      if d > 1 {
        assert q * (d - 1) >= q;
      }
    }
  }

  lemma ModShift(x: int, d: int, p: int)
    requires d > 0
    ensures (x + d * p) % d == x % d
    ensures (x + d * p) / d == x / d + p
  {
    DivMod(x, d);
    assert d * (x / d + p) == d * (x / d) + d * p;
    DivUnique(x + d * p, d, x / d + p, x % d);
  }

  lemma ModAdd(x: int, y: int, d: int)
    requires d > 0
    ensures (x % d + y) % d == (x + y) % d
  {
    DivMod(x, d);
    ModShift(x % d + y, d, x / d);
  }

  lemma ModEqual(x: int, y: int, d: int)
    requires d > 0
    ensures x % d == y % d <==> (x - y) % d == 0
  {
    DivMod(x, d);
    DivMod(y, d);
    DivMod(x - y, d);
    if x % d == y % d {
      assert d * (x / d - y / d) == d * (x / d) - d * (y / d);
      DivUnique(x - y, d, x / d - y / d, 0);
    }
    if (x - y) % d == 0 {
      ModShift(y, d, (x - y) / d);
    }
  }
}
