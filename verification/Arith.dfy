/** Powers and modular arithmetic shared by the other modules. */
module Arith {
  const TWO32: nat := 0x1_0000_0000
  const TWO64: nat := 0x1_0000_0000_0000_0000

  function Pow2(e: nat): (r: nat)
    ensures r > 0
  {
    if e == 0 then 1 else 2 * Pow2(e - 1)
  }

  lemma {:induction false} Pow2Add(a: nat, b: nat)
    ensures Pow2(a + b) == Pow2(a) * Pow2(b)
  {
    if a > 0 {
      Pow2Add(a - 1, b);
    }
  }

  lemma {:induction false} Pow2Mono(a: nat, b: nat)
    requires a <= b
    ensures Pow2(a) <= Pow2(b)
  {
    if a < b {
      Pow2Mono(a, b - 1);
    }
  }

  /** The quotient and remainder are determined by the division identity. */
  lemma DivModUnique(x: int, m: int, q: int, r: int)
    requires m > 0 && 0 <= r < m
    requires x == q * m + r
    ensures x / m == q && x % m == r
  {
    var d := x / m - q;
    assert d * m == r - x % m;
    if d > 0 {
      MulMono(m, 1, d);
    } else if d < 0 {
      MulMono(m, d, -1);
    }
  }

  lemma ModShift(x: int, k: int, m: int)
    requires m > 0
    ensures (x + k * m) % m == x % m
  {
    DivModUnique(x + k * m, m, x / m + k, x % m);
  }

  /** Equal remainders mean a difference that is a multiple of the modulus. */
  lemma ModEqual(x: int, y: int, k: int, m: int)
    requires m > 0
    requires x == y + k * m
    ensures x % m == y % m
  {
    ModShift(y, k, m);
  }

  lemma ModMul(x: int, y: int, m: int)
    requires m > 0
    ensures (x * y) % m == ((x % m) * (y % m)) % m
  {
    var r, s := x % m, y % m;
    assert (x * y) % m == (s * x) % m by {
      ModFactor(x, y, m);
    }
    assert (s * x) % m == (r * s) % m by {
      ModFactor(s, x, m);
    }
  }

  lemma ModFactor(x: int, y: int, m: int)
    requires m > 0
    ensures (x * y) % m == (x * (y % m)) % m
  {
    FactorAt(x, y, m, y / m, y % m);
  }

  lemma FactorAt(x: int, y: int, m: int, q: int, r: int)
    requires m > 0 && y == q * m + r
    ensures (x * y) % m == (x * r) % m
  {
    Spread(x, q, m, r);
    ModShift(x * r, x * q, m);
  }

  lemma Spread(x: int, q: int, m: int, r: int)
    ensures x * (q * m + r) == x * r + (x * q) * m
  {
    assert x * (q * m) == (x * q) * m;
  }

  lemma ModAdd(x: int, y: int, m: int)
    requires m > 0
    ensures (x + y) % m == ((x % m) + (y % m)) % m
  {
    var a, b := x / m, y / m;
    assert x + y == (x % m) + (y % m) + (a + b) * m;
    ModShift(x % m + y % m, a + b, m);
  }

  lemma ModSub(x: int, y: int, m: int)
    requires m > 0
    ensures (x - y) % m == ((x % m) - (y % m)) % m
  {
    var a, b := x / m, y / m;
    assert x - y == (x % m) - (y % m) + (a - b) * m;
    ModShift(x % m - y % m, a - b, m);
  }

  lemma ModSmall(x: int, m: int)
    requires 0 <= x < m
    ensures x % m == x && x / m == 0
  {
    DivModUnique(x, m, 0, x);
  }

  lemma MulAssoc(x: int, y: int, z: int)
    ensures x * (y * z) == (x * y) * z
  {
  }

  lemma Distribute(d: int, x: int, y: int)
    ensures d * (x + y) == d * x + d * y
  {
  }

  lemma ModTwice(x: int, m: int)
    requires m > 0
    ensures (x % m) % m == x % m
  {
    ModSmall(x % m, m);
  }

  lemma DivTwice(n: nat, a: nat, b: nat)
    requires a > 0 && b > 0
    ensures a * b > 0 && n / (a * b) == (n / a) / b
  {
    var q, r := n / a, n % a;
    var h, l := q / b, q % b;
    assert q == h * b + l && n == q * a + r;
    Distribute(a, h * b, l);
    MulMono(a, l + 1, b);
    MulAssoc(h, b, a);
    DivModUnique(n, a * b, h, l * a + r);
  }

  lemma DigitSplit(n: nat, m: nat)
    requires m > 0
    ensures n % 256 + 256 * ((n / 256) % m) == n % (256 * m)
  {
    var q := n / 256;
    var h, l := q / m, q % m;
    assert q == h * m + l;
    assert n == h * (256 * m) + (256 * l + n % 256);
    DivModUnique(n, 256 * m, h, 256 * l + n % 256);
  }

  lemma MulBounds(x: int, y: int, a: int, b: int)
    requires -a <= x <= a && -b <= y <= b
    ensures -(a * b) <= x * y <= a * b
  {
    if x >= 0 {
      MulMono(x, y, b);
      MulMono(x, -b, y);
    } else {
      MulMono(-x, y, b);
      MulMono(-x, -b, y);
    }
    MulMono(b, if x >= 0 then x else -x, a);
  }

  lemma MulMono(k: int, x: int, y: int)
    requires k >= 0 && x <= y
    ensures k * x <= k * y
  {
  }
}
