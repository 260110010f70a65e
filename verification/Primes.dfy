/** Primes: Fermat's little theorem, and a test that needs only a few prime factors of n - 1. */
module Primes {
  import opened Arith

  function Pow(x: int, e: nat): int
  {
    if e == 0 then 1 else x * Pow(x, e - 1)
  }

  ghost predicate IsPrime(p: nat)
  {
    p > 1 && forall d: nat :: 1 < d < p ==> p % d != 0
  }

  lemma AboveOne(p: nat)
    requires IsPrime(p)
    ensures p > 1
  {
  }

  // --- powers ----------------------------------------------------------------------------------

  lemma {:induction false} PowAdd(x: int, a: nat, b: nat)
    ensures Pow(x, a + b) == Pow(x, a) * Pow(x, b)
  {
    if a > 0 {
      PowAdd(x, a - 1, b);
      MulAssoc(x, Pow(x, a - 1), Pow(x, b));
    }
  }

  lemma {:induction false} PowTimes(x: int, a: nat, b: nat)
    ensures a * b >= 0 && Pow(Pow(x, a), b) == Pow(x, a * b)
  {
    if b > 0 {
      PowTimes(x, a, b - 1);
      assert a * b == a + a * (b - 1);
      PowAdd(x, a, a * (b - 1));
    }
  }

  lemma {:induction false} PowMod(x: int, e: nat, m: nat)
    requires m > 0
    ensures Pow(x, e) % m == Pow(x % m, e) % m
  {
    if e > 0 {
      PowMod(x, e - 1, m);
      ModMul(x, Pow(x, e - 1), m);
      ModMul(x % m, Pow(x % m, e - 1), m);
      ModTwice(x, m);
    }
  }

  lemma {:induction false} PowOne(e: nat)
    ensures Pow(1, e) == 1
  {
    if e > 0 {
      PowOne(e - 1);
    }
  }

  /** Powers of what leaves 1 leave 1. */
  lemma PowOfOne(x: int, e: nat, m: nat)
    requires m > 1 && x % m == 1
    ensures Pow(x, e) % m == 1
  {
    PowMod(x, e, m);
    PowOne(e);
    ModSmall(1, m);
  }

  // --- divisibility -----------------------------------------------------------------------------

  lemma DivisorOf(n: int, d: int, k: int)
    requires d > 0 && n == d * k
    ensures n % d == 0
  {
    DivModUnique(n, d, k, 0);
  }

  lemma Quotient(n: int, d: int)
    requires d > 0 && n % d == 0
    ensures n == d * (n / d)
  {
  }

  lemma DividesSum(x: int, y: int, u: int, v: int, d: int)
    requires d > 0 && x % d == 0 && y % d == 0
    ensures (u * x + v * y) % d == 0
  {
    Quotient(x, d);
    Quotient(y, d);
    Combine(u, v, x / d, y / d, d);
    DivisorOf(u * x + v * y, d, u * (x / d) + v * (y / d));
  }

  lemma Combine(u: int, v: int, a: int, b: int, d: int)
    ensures u * (d * a) + v * (d * b) == d * (u * a + v * b)
  {
    MulAssoc(u, d, a);
    MulAssoc(v, d, b);
    MulAssoc(d, u, a);
    MulAssoc(d, v, b);
    Distribute(d, u * a, v * b);
  }

  lemma DividesTransitive(n: int, m: int, d: int)
    requires m > 0 && d > 0 && n % m == 0 && m % d == 0
    ensures n % d == 0
  {
    Quotient(n, m);
    Quotient(m, d);
    MulAssoc(d, m / d, n / m);
    DivisorOf(n, d, (m / d) * (n / m));
  }

  lemma DivisorBound(n: int, d: int)
    requires d > 0 && n > 0 && n % d == 0
    ensures d <= n
  {
    if n < d {
      ModSmall(n, d);
    }
  }

  /** A common divisor that is a combination of the two numbers. */
  lemma {:induction false} Bezout(a: nat, b: nat) returns (g: nat, u: int, v: int)
    requires a > 0
    ensures g > 0 && a % g == 0 && b % g == 0 && g == u * a + v * b
    decreases b
  {
    if b == 0 {
      g, u, v := a, 1, 0;
      DivisorOf(a, a, 1);
      DivisorOf(0, a, 0);
    } else {
      var s, t;
      g, s, t := Bezout(b, a % b);
      var q := a / b;
      assert a == b * q + a % b;
      DividesSum(b, a % b, q, 1, g);
      assert q * b + 1 * (a % b) == a;
      u, v := t, s - t * q;
      Back(s, t, a, b, q, a % b);
    }
  }

  lemma Back(s: int, t: int, a: int, b: int, q: int, r: int)
    requires a == b * q + r
    ensures s * b + t * r == t * a + (s - t * q) * b
  {
    Distribute(t, b * q, r);
    MulAssoc(t, q, b);
    assert (s - t * q) * b == s * b - (t * q) * b;
  }

  /** A prime that does not divide x is a combination with x of 1. */
  lemma Coprime(p: nat, x: nat) returns (u: int, v: int)
    requires IsPrime(p) && x % p != 0
    ensures u * p + v * x == 1
  {
    var g;
    g, u, v := Bezout(p, x);
    if g > 1 {
      DivisorBound(p, g);
      assert false;
    }
  }

  /** Euclid's lemma. */
  lemma PrimeDivides(p: nat, x: nat, y: int)
    requires IsPrime(p) && (x * y) % p == 0 && x % p != 0
    ensures y % p == 0
  {
    hide IsPrime;
    AboveOne(p);
    var u, v := Coprime(p, x);
    Expand(u, p, v, x, y);
    DivisorOf(p * (u * y), p, u * y);
    DividesSum(p * (u * y), x * y, 1, v, p);
  }

  lemma Expand(u: int, p: int, v: int, x: int, y: int)
    requires u * p + v * x == 1
    ensures p * (u * y) + v * (x * y) == y
  {
    MulAssoc(u, p, y);
    MulAssoc(p, u, y);
    MulAssoc(v, x, y);
    Distribute(y, u * p, v * x);
  }

  // --- Fermat's little theorem ----------------------------------------------------------------------

  function Choose(n: nat, k: nat): nat
  {
    if k == 0 then 1 else if n == 0 then 0 else Choose(n - 1, k - 1) + Choose(n - 1, k)
  }

  lemma {:induction false} ChooseBeyond(n: nat, k: nat)
    requires k > n
    ensures Choose(n, k) == 0
  {
    if n > 0 {
      ChooseBeyond(n - 1, k - 1);
      ChooseBeyond(n - 1, k);
    }
  }

  lemma {:induction false} ChooseAll(n: nat)
    ensures Choose(n, n) == 1
  {
    if n > 0 {
      ChooseAll(n - 1);
      ChooseBeyond(n - 1, n);
    }
  }

  lemma {:induction false} Absorb(n: nat, k: nat)
    requires n > 0 && k > 0
    ensures k * Choose(n, k) == n * Choose(n - 1, k - 1)
  {
    if n == 1 {
      if k > 1 {
        ChooseBeyond(0, k - 1);
        ChooseBeyond(0, k);
      }
    } else {
      Absorb(n - 1, k);
      if k > 1 {
        Absorb(n - 1, k - 1);
        AbsorbStep(n, k, Choose(n - 1, k - 1), Choose(n - 1, k), Choose(n - 2, k - 2), Choose(n - 2, k - 1));
      }
    }
  }

  lemma AbsorbStep(n: int, k: int, a: int, b: int, c: int, d: int)
    requires (k - 1) * a == (n - 1) * c && k * b == (n - 1) * d && a == c + d
    ensures k * (a + b) == n * a
  {
    Distribute(k, a, b);
    Distribute(n - 1, c, d);
  }

  /** The first m + 1 terms of the binomial expansion of (a + 1)^n. */
  function Terms(a: int, n: nat, m: nat): int
  {
    Choose(n, m) * Pow(a, m) + if m == 0 then 0 else Terms(a, n, m - 1)
  }

  lemma {:induction false} TermsStep(a: int, n: nat, m: nat)
    requires n > 0
    ensures Terms(a, n, m) == Terms(a, n - 1, m) + if m == 0 then 0 else a * Terms(a, n - 1, m - 1)
  {
    if m > 0 {
      TermsStep(a, n, m - 1);
      TermSplit(Choose(n - 1, m - 1), Choose(n - 1, m), a, Pow(a, m - 1));
      Distribute(a, Choose(n - 1, m - 1) * Pow(a, m - 1), if m == 1 then 0 else Terms(a, n - 1, m - 2));
    }
  }

  lemma TermSplit(c: int, d: int, a: int, w: int)
    ensures (c + d) * (a * w) == d * (a * w) + a * (c * w)
  {
    MulAssoc(a, c, w);
    MulAssoc(c, a, w);
  }

  lemma {:induction false} Binomial(a: int, n: nat)
    ensures Pow(a + 1, n) == Terms(a, n, n)
  {
    if n > 0 {
      Binomial(a, n - 1);
      TermsStep(a, n, n);
      ChooseBeyond(n - 1, n);
      OnceMore(a, Terms(a, n - 1, n - 1), Pow(a, n));
    }
  }

  lemma OnceMore(a: int, t: int, w: int)
    ensures (a + 1) * t == 0 * w + t + a * t
  {
  }

  lemma {:induction false} MiddleVanishes(a: int, p: nat, m: nat)
    requires IsPrime(p) && m < p
    ensures Terms(a, p, m) % p == 1
  {
    if m == 0 {
      ModSmall(1, p);
    } else {
      MiddleVanishes(a, p, m - 1);
      Absorb(p, m);
      DivisorOf(p * Choose(p - 1, m - 1), p, Choose(p - 1, m - 1));
      ModSmall(m, p);
      PrimeDivides(p, m, Choose(p, m));
      Quotient(Choose(p, m), p);
      MulAssoc(p, Choose(p, m) / p, Pow(a, m));
      ModShift(Terms(a, p, m - 1), (Choose(p, m) / p) * Pow(a, m), p);
    }
  }

  /** The form that holds of every number. */
  lemma {:induction false} FermatAll(a: nat, p: nat)
    requires IsPrime(p)
    ensures Pow(a, p) % p == a % p
  {
    if a == 0 {
      assert Pow(0, p) == 0 * Pow(0, p - 1);
    } else {
      FermatAll(a - 1, p);
      Binomial(a - 1, p);
      MiddleVanishes(a - 1, p, p - 1);
      ChooseAll(p);
      ModAdd(Pow(a - 1, p), Terms(a - 1, p, p - 1), p);
      ModAdd(a - 1, 1, p);
      ModSmall(1, p);
    }
  }

  lemma Fermat(a: nat, p: nat)
    requires IsPrime(p) && a % p != 0
    ensures Pow(a, p - 1) % p == 1
  {
    FermatAll(a, p);
    var w := Pow(a, p - 1);
    ModEqualDiffers(a * w, a, p);
    assert a * w - a == a * (w - 1);
    PrimeDivides(p, a, w - 1);
    ModSmall(1, p);
    Quotient(w - 1, p);
    ModShift(1, (w - 1) / p, p);
  }

  lemma ModEqualDiffers(x: int, y: int, m: nat)
    requires m > 0 && x % m == y % m
    ensures (x - y) % m == 0
  {
    ModSub(x, y, m);
    ModSmall(0, m);
  }

  // --- proving a number prime ---------------------------------------------------------------------

  /** No divisor above 1 up to d. */
  predicate NoneUpTo(n: nat, d: nat)
  {
    d <= 1 || (n % d != 0 && NoneUpTo(n, d - 1))
  }

  lemma {:induction false} NoneIsNone(n: nat, d: nat, e: nat)
    requires NoneUpTo(n, d) && 1 < e <= d
    ensures n % e != 0
  {
    if e < d {
      NoneIsNone(n, d - 1, e);
    }
  }

  /** A number that is not prime has a prime divisor at most its root. */
  lemma SmallDivisor(n: nat) returns (d: nat)
    requires n > 1 && !IsPrime(n)
    ensures IsPrime(d) && n % d == 0 && d * d <= n
  {
    d := 2;
    while n % d != 0
      invariant 2 <= d <= n && forall e: nat :: 1 < e < d ==> n % e != 0
      decreases n - d
    {
      ModSelf(n);
      d := d + 1;
    }
    assert d < n;
    forall e: nat | 1 < e < d
      ensures d % e != 0
    {
      if d % e == 0 {
        DividesTransitive(n, d, e);
      }
    }
    var k := n / d;
    Quotient(n, d);
    Cofactor(n, d, k);
    if k < d {
      DivisorOf(n, k, d);
    } else {
      MulMono(d, d, k);
    }
  }

  lemma ModSelf(n: nat)
    requires n > 0
    ensures n % n == 0
  {
    DivisorOf(n, n, 1);
  }

  lemma Cofactor(n: nat, d: nat, k: int)
    requires n == d * k && 1 < d < n
    ensures k > 1
  {
    if k <= 1 {
      MulMono(d, k, 1);
    }
  }

  lemma TrialDivision(n: nat, d: nat)
    requires n > 1 && NoneUpTo(n, d) && n < (d + 1) * (d + 1)
    ensures IsPrime(n)
  {
    if !IsPrime(n) {
      var e := SmallDivisor(n);
      if e > d {
        MulMono(e, d + 1, e);
        MulMono(d + 1, d + 1, e);
      } else {
        NoneIsNone(n, d, e);
      }
    }
  }

  /** c to the e leaves r. */
  ghost predicate Leaves(m: nat, c: nat, e: nat, r: nat)
  {
    m > 1 && Pow(c, e) % m == r
  }

  /** c has order q modulo every divisor of n: its power by q leaves 1, and c - 1 has an inverse. */
  ghost predicate HasOrder(n: nat, c: nat, q: nat, inverse: nat)
  {
    Leaves(n, c, q, 1) && (inverse * (c - 1)) % n == 1
  }

  /** Then q divides d - 1 for every prime divisor d of n. */
  lemma DivisorIsOneModulo(n: nat, c: nat, q: nat, inverse: nat, d: nat)
    requires IsPrime(q) && HasOrder(n, c, q, inverse) && IsPrime(d) && n % d == 0
    ensures (d - 1) % q == 0
  {
    hide IsPrime, Pow;
    AboveOne(d);
    AboveOne(q);
    Reduced(Pow(c, q), n, d);
    NotOne(c, n, inverse, d);
    if (d - 1) % q != 0 {
      OrderClash(c, q, d);
    }
  }

  lemma Reduced(x: int, n: nat, d: nat)
    requires n > 1 && d > 1 && n % d == 0 && x % n == 1
    ensures x % d == 1
  {
    ModSmall(1, n);
    ModSmall(1, d);
    ModEqualDiffers(x, 1, n);
    DividesTransitive(x - 1, n, d);
    Quotient(x - 1, d);
    ModShift(1, (x - 1) / d, d);
  }

  lemma NotOne(c: int, n: nat, inverse: nat, d: nat)
    requires n > 1 && d > 1 && n % d == 0 && (inverse * (c - 1)) % n == 1
    ensures c % d != 1
  {
    Reduced(inverse * (c - 1), n, d);
    if c % d == 1 {
      ModSmall(1, d);
      ModEqualDiffers(c, 1, d);
      DividesSum(c - 1, 0, inverse, 0, d);
    }
  }

  /** A power by q and one by d - 1 that both leave 1 make the number itself leave 1, if q does not divide d - 1. */
  lemma OrderClash(c: nat, q: nat, d: nat)
    requires IsPrime(q) && IsPrime(d) && Pow(c, q) % d == 1 && (d - 1) % q != 0
    ensures c % d == 1
  {
    hide Pow, IsPrime;
    AboveOne(q);
    AboveOne(d);
    assert c % d != 0 by {
      if c % d == 0 {
        PowMod(c, q, d);
        PowZero(q);
      }
    }
    Fermat(c, d);
    var u, v := Coprime(q, d - 1);
    Signs(u, q, v, d - 1);
    if u > 0 {
      Ladder(c, q, u, d - 1, -v, d);
    } else {
      Ladder(c, d - 1, v, q, -u, d);
    }
  }

  lemma PowZero(e: nat)
    requires e > 0
    ensures Pow(0, e) == 0
  {
    assert Pow(0, e) == 0 * Pow(0, e - 1);
  }

  lemma Signs(u: int, a: nat, v: int, b: nat)
    requires u * a + v * b == 1 && a > 0 && b > 0
    ensures u > 0 ==> v <= 0
    ensures u <= 0 ==> v > 0
  {
    if u <= 0 && v <= 0 {
      MulMono(a, u, 0);
      MulMono(b, v, 0);
    } else if u > 0 && v > 0 {
      MulMono(a, 1, u);
      MulMono(b, 1, v);
    }
  }

  lemma Ladder(c: int, a: nat, u: nat, b: nat, v: nat, d: nat)
    requires d > 1 && u * a == 1 + v * b && Pow(c, a) % d == 1 && Pow(c, b) % d == 1
    ensures c % d == 1
  {
    PowTimes(c, a, u);
    PowOfOne(Pow(c, a), u, d);
    PowTimes(c, b, v);
    PowOfOne(Pow(c, b), v, d);
    assert a * u == 1 + b * v;
    PowAdd(c, 1, b * v);
    assert Pow(c, 1) == c * Pow(c, 0) == c;
    ModMul(c, Pow(c, b * v), d);
    ModTwice(c, d);
  }

  /** Pocklington's test: a prime order above the root of n. */
  lemma PrimeByOrder(n: nat, c: nat, q: nat, inverse: nat)
    requires IsPrime(q) && HasOrder(n, c, q, inverse) && n < q * q
    ensures IsPrime(n)
  {
    if !IsPrime(n) {
      var d := SmallDivisor(n);
      DivisorIsOneModulo(n, c, q, inverse, d);
      DivisorBound(d - 1, q);
      MulMono(d, q, d);
      MulMono(q, q, d);
    }
  }

  /** No number has this square. */
  predicate NoSquare(x: int, root: nat)
  {
    x < 0 || root * root < x < (root + 1) * (root + 1)
  }

  /** The test of Brillhart, Lehmer and Selfridge: a prime order above the cube root of n, which divides n - 1. */
  lemma PrimeByCube(n: nat, c: nat, q: nat, inverse: nat, s: nat, t: nat, root: nat)
    requires IsPrime(q) && HasOrder(n, c, q, inverse) && n < q * q * q && n - 1 == (s * q + t) * q && t < q
    requires NoSquare(t * t - 4 * s, root)
    ensures IsPrime(n)
  {
    hide NoSquare, Pow;
    if !IsPrime(n) {
      var d := SmallDivisor(n);
      DivisorIsOneModulo(n, c, q, inverse, d);
      DivisorMakesSquare(n, q, d, s, t, root);
    }
  }

  lemma DivisorMakesSquare(n: nat, q: nat, d: nat, s: nat, t: nat, root: nat)
    requires q > 1 && d > 1 && n % d == 0 && (d - 1) % q == 0 && d * d <= n < q * q * q && n - 1 == (s * q + t) * q && t < q
    ensures !NoSquare(t * t - 4 * s, root)
  {
    hide NoSquare;
    var a, k := (d - 1) / q, n / d;
    Quotient(n, d);
    Quotient(d - 1, q);
    if k < d {
      MulMono(d, k + 1, d);
    }
    var b := (s * q + t) - a * k;
    CofactorIsOneModulo(n, q, a, k, s * q + t);
    FactorsAboveZero(q, a, d);
    TwoFactors(n, q, a, b, s, t);
    Discriminant(a, b, root);
  }

  lemma FactorsAboveZero(q: nat, a: int, d: nat)
    requires q > 0 && d > 1 && d - 1 == q * a
    ensures a > 0
  {
    if a <= 0 {
      MulMono(q, a, 0);
    }
  }

  lemma CofactorIsOneModulo(n: nat, q: nat, a: nat, k: nat, r: nat)
    requires n == (q * a + 1) * k && n - 1 == r * q && q > 0
    ensures k == 1 + q * (r - a * k)
  {
    assert (q * a + 1) * k == q * (a * k) + k by {
      MulAssoc(q, a, k);
    }
    Distribute(q, r, -(a * k));
  }

  lemma TwoFactors(n: nat, q: nat, a: nat, b: int, s: nat, t: nat)
    requires q > 1 && n == (q * a + 1) * (1 + q * b) && a > 0 && q * a + 1 <= 1 + q * b && n - 1 == (s * q + t) * q && t < q && n < q * q * q
    ensures b > 0 && t == a + b && s == a * b
  {
    if b < a {
      MulMono(q, b + 1, a);
    }
    FactorsOut(q, a, b);
    Cancel(q, s * q + t, q * (a * b) + (a + b));
    if s * q + t >= q * q {
      MulMono(q, q * q, s * q + t);
    }
    MulMono(a, 0, b);
    TwoDigits(q, a, b, a * b, s * q + t);
    DivModUnique(s * q + t, q, s, t);
  }

  lemma TwoDigits(q: nat, a: nat, b: nat, ab: nat, x: int)
    requires q > 0 && a > 0 && b > 0 && ab == a * b && x == q * ab + (a + b) && x < q * q
    ensures x / q == ab && x % q == a + b
  {
    SumBelowProduct(a, b);
    if ab >= q {
      MulMono(q, q, ab);
    }
    if a + b == q {
      MulMono(q, q, ab + 1);
    }
    DivModUnique(x, q, ab, a + b);
  }

  lemma FactorsOut(q: int, a: int, b: int)
    ensures (q * a + 1) * (1 + q * b) == 1 + q * (q * (a * b) + (a + b))
  {
    Distribute(q * a + 1, 1, q * b);
    MulAssoc(q * a + 1, q, b);
    assert (q * a + 1) * q == q * (q * a) + q;
    assert (q * (q * a)) * b == q * (q * (a * b)) by {
      MulAssoc(q, q * a, b);
      MulAssoc(q, a, b);
    }
  }

  lemma Cancel(q: int, x: int, y: int)
    requires q > 0 && x * q == q * y
    ensures x == y
  {
    if x < y {
      MulMono(q, x + 1, y);
    } else if y < x {
      MulMono(q, y + 1, x);
    }
  }

  lemma SumBelowProduct(a: int, b: int)
    requires a > 0 && b > 0
    ensures a + b <= a * b + 1
  {
    MulMono(a - 1, 1, b);
  }

  lemma Discriminant(a: nat, b: nat, root: nat)
    ensures !NoSquare((a + b) * (a + b) - 4 * (a * b), root)
  {
    var d := if a < b then b - a else a - b;
    assert (a + b) * (a + b) - 4 * (a * b) == d * d;
    if d <= root {
      MulMono(d, d, root);
      MulMono(root, d, root);
    } else {
      MulMono(d, root + 1, d);
      MulMono(root + 1, root + 1, d);
    }
  }
}
