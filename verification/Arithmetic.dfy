/** Powers of two, quotients and remainders. */
module Arithmetic {
  function Pow2(k: nat): (p: nat)
    ensures p >= 1
  {
    if k == 0 then 1 else 2 * Pow2(k - 1)
  }

  /** Bits needed to number n things. */
  function Log2Ceil(n: nat): (k: nat)
    ensures n <= Pow2(k) && (n > 1 ==> k >= 1 && Pow2(k - 1) < n)
  {
    if n <= 1 then 0 else 1 + Log2Ceil((n + 1) / 2)
  }

  lemma {:induction false} PowAdd(a: nat, b: nat)
    ensures Pow2(a + b) == Pow2(a) * Pow2(b)
  {
    if a == 0 {
    } else {
      PowAdd(a - 1, b);
      assert Pow2(a + b) == 2 * Pow2(a - 1 + b);
      assert 2 * (Pow2(a - 1) * Pow2(b)) == (2 * Pow2(a - 1)) * Pow2(b);
    }
  }

  lemma {:induction false} PowMonotone(a: nat, b: nat)
    requires a <= b
    ensures Pow2(a) <= Pow2(b)
  {
    if a < b {
      PowMonotone(a, b - 1);
    }
  }

  lemma SmallPowers()
    ensures Pow2(4) == 16 && Pow2(5) == 32 && Pow2(6) == 64 && Pow2(7) == 128
  {
    assert Pow2(1) == 2 * Pow2(0);
    assert Pow2(2) == 2 * Pow2(1);
    assert Pow2(3) == 2 * Pow2(2);
    assert Pow2(4) == 2 * Pow2(3);
    assert Pow2(5) == 2 * Pow2(4);
    assert Pow2(6) == 2 * Pow2(5);
  }

  lemma WordPowers()
    ensures Pow2(32) == 0x1_0000_0000 && Pow2(64) == 0x1_0000_0000_0000_0000
  {
    var p16 := Pow2(16);
    assert p16 == 0x1_0000 by {
      SmallPowers();
      PowAdd(4, 4);
      PowAdd(8, 8);
    }
    var p32 := Pow2(32);
    assert p32 == 0x1_0000_0000 by {
      PowAdd(16, 16);
    }
    PowAdd(32, 32);
  }

  lemma AtLeastOnce(k: int, n: nat)
    requires k >= 1
    ensures k * n >= n
  {
  }

  lemma QuotientUnique(n: nat, q: int, r: nat, q': int, r': nat)
    requires r < n && r' < n
    requires q * n + r == q' * n + r'
    ensures q == q' && r == r'
  {
    assert (q' - q) * n == r - r' && (q - q') * n == r' - r;
    if q' > q {
      AtLeastOnce(q' - q, n);
    } else if q > q' {
      AtLeastOnce(q - q', n);
    }
  }

  lemma DivModOfSum(n: nat, q: nat, r: nat)
    requires r < n
    ensures (q * n + r) / n == q && (q * n + r) % n == r
  {
    var x := q * n + r;
    QuotientUnique(n, q, r, x / n, x % n);
  }

  lemma ModHalves(x: nat, p: nat)
    requires p >= 1
    ensures x % (2 * p) == x % 2 + 2 * (x / 2 % p)
  {
    var q, r := x / 2 / p, x / 2 % p;
    assert x == 2 * (q * p + r) + x % 2;
    assert q * (2 * p) == 2 * (q * p);
    DivModOfSum(2 * p, q, 2 * r + x % 2);
  }

  /** One wrap of a number that is at most one modulus out of range. */
  lemma Wrap(x: int, n: int)
    requires n > 0 && -n <= x < 2 * n
    ensures x % n == if x < 0 then x + n else if x < n then x else x - n
  {
    var q := if x < 0 then -1 else if x < n then 0 else 1;
    QuotientUnique(n, q, x - q * n, x / n, x % n);
  }
}
