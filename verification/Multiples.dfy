/** Multiples of a point by number, and that X25519 computes them; the field is one because 2^255 - 19 is prime. */
module CurveMultiples {
  import opened Arith
  import opened Bytes
  import opened Field25519
  import opened X25519
  import opened FieldUnits
  import opened MontgomeryLadder
  import Bits
  import Primes

  // --- arithmetic modulo m, read off the integers -------------------------------------------------

  predicate Is(v: int, x: int, m: int)
  {
    m > 0 && v == x % m
  }

  lemma IsOps(v: int, x: int, w: int, y: int, m: int)
    requires Is(v, x, m) && Is(w, y, m)
    ensures Is((v * w) % m, x * y, m) && Is((v + w) % m, x + y, m) && Is((v - w) % m, x - y, m)
  {
    ModMul(x, y, m);
    ModAdd(x, y, m);
    ModSub(x, y, m);
  }

  lemma Congruent(x: int, x': int, y: int, y': int, m: int)
    requires m > 0 && x % m == x' % m && y % m == y' % m
    ensures (x * y) % m == (x' * y') % m && (x + y) % m == (x' + y') % m && (x - y) % m == (x' - y') % m
  {
    IsOps(x % m, x, y % m, y, m);
    IsOps(x % m, x', y % m, y', m);
  }

  // --- doubling and addition with a known difference ---------------------------------------------------

  /** The Montgomery curve y^2 = x^3 + 486662 x^2 + x. */
  const CURVE_A: int := 486662

  /** A point by the quotient x / z of its first coordinate; z = 0 is the point at infinity. */
  datatype Point = Point(x: int, z: int)

  function DoubleX(x: int, z: int): int
  {
    (x * x - z * z) * (x * x - z * z)
  }

  function DoubleZ(x: int, z: int): int
  {
    4 * (x * z) * (x * x + CURVE_A * (x * z) + z * z)
  }

  function SumX(x: int, z: int, x': int, z': int): int
  {
    4 * ((x * x' - z * z') * (x * x' - z * z'))
  }

  function CrossZ(x: int, z: int, x': int, z': int): int
  {
    4 * ((x * z' - z * x') * (x * z' - z * x'))
  }

  function Double(p: Point): Point
  {
    Point(DoubleX(p.x, p.z) % P, DoubleZ(p.x, p.z) % P)
  }

  /** The sum of two points whose difference has the first coordinate x1. */
  function Sum(x1: int, p: Point, q: Point): Point
  {
    Point(SumX(p.x, p.z, q.x, q.z) % P, (x1 * CrossZ(p.x, p.z, q.x, q.z)) % P)
  }

  /** n times the point with first coordinate x1, by the binary digits of n. */
  function Multiple(x1: int, n: nat): Point
  {
    if n == 0 then Point(1, 0)
    else if n == 1 then Point(x1, 1)
    else if n % 2 == 0 then Double(Multiple(x1, n / 2))
    else Sum(x1, Multiple(x1, n / 2), Multiple(x1, n / 2 + 1))
  }

  /** x / z, or 0 at infinity. */
  ghost predicate IsAffine(w: int, p: Point)
  {
    0 <= w < P && if p.z % P == 0 then w == 0 else MulP(w, p.z) == p.x % P
  }

  // --- the ladder's formulas are these -----------------------------------------------------------------

  lemma DoubleParts(x: int, z: int, m: int)
    requires m > 0
    ensures var A, B := (x + z) % m, (x - z) % m;
            var AA, BB := (A * A) % m, (B * B) % m;
            var E := (AA - BB) % m;
            var T := (121665 * E) % m;
            (AA * BB) % m == DoubleX(x, z) % m && (E * ((AA + T) % m)) % m == DoubleZ(x, z) % m
  {
    hide Is, DoubleX, DoubleZ;
    var A, B := (x + z) % m, (x - z) % m;
    var a, b := x + z, x - z;
    IsMod(a, m);
    IsMod(b, m);
    IsOps(A, a, A, a, m);
    IsOps(B, b, B, b, m);
    var AA, BB := (A * A) % m, (B * B) % m;
    IsOps(AA, a * a, BB, b * b, m);
    var E := (AA - BB) % m;
    var e := a * a - b * b;
    ConstantTimes(121665, E, e, m);
    var T := (121665 * E) % m;
    IsOps(AA, a * a, T, 121665 * e, m);
    IsOps(E, e, (AA + T) % m, a * a + 121665 * e, m);
    IsIs((AA * BB) % m, (a * a) * (b * b), m);
    IsIs((E * ((AA + T) % m)) % m, e * (a * a + 121665 * e), m);
    DoubleIdentity(x, z);
  }

  lemma IsMod(x: int, m: int)
    requires m > 0
    ensures Is(x % m, x, m)
  {
  }

  lemma IsIs(v: int, x: int, m: int)
    requires Is(v, x, m)
    ensures m > 0 && v == x % m
  {
  }

  lemma ConstantTimes(c: int, v: int, x: int, m: int)
    requires Is(v, x, m)
    ensures Is((c * v) % m, c * x, m)
  {
    ModMul(c, x, m);
    ModMul(c, v, m);
    ModTwice(x, m);
  }

  lemma DoubleIdentity(x: int, z: int)
    ensures var a, b := x + z, x - z;
            var e := a * a - b * b;
            (a * a) * (b * b) == DoubleX(x, z) && e * (a * a + 121665 * e) == DoubleZ(x, z)
  {
    var a, b := x + z, x - z;
    var e := a * a - b * b;
    assert a * b == x * x - z * z;
    assert (a * a) * (b * b) == (a * b) * (a * b);
    assert e == 4 * (x * z);
    assert a * a == x * x + 2 * (x * z) + z * z;
  }

  lemma SumParts(x: int, z: int, x': int, z': int, x1: int, m: int)
    requires m > 0
    ensures var A, B, C, D := (x + z) % m, (x - z) % m, (x' + z') % m, (x' - z') % m;
            var DA, CB := (D * A) % m, (C * B) % m;
            var s, d := (DA + CB) % m, (DA - CB) % m;
            (s * s) % m == SumX(x, z, x', z') % m && (x1 * ((d * d) % m)) % m == (x1 * CrossZ(x, z, x', z')) % m
  {
    hide Is, SumX, CrossZ;
    var a, b, c, e := x + z, x - z, x' + z', x' - z';
    var A, B, C, D := a % m, b % m, c % m, e % m;
    IsMod(a, m);
    IsMod(b, m);
    IsMod(c, m);
    IsMod(e, m);
    IsOps(D, e, A, a, m);
    IsOps(C, c, B, b, m);
    var DA, CB := (D * A) % m, (C * B) % m;
    IsOps(DA, e * a, CB, c * b, m);
    var s, d := (DA + CB) % m, (DA - CB) % m;
    IsOps(s, e * a + c * b, s, e * a + c * b, m);
    IsOps(d, e * a - c * b, d, e * a - c * b, m);
    IsIs((s * s) % m, (e * a + c * b) * (e * a + c * b), m);
    var w := (e * a - c * b) * (e * a - c * b);
    ConstantTimes(x1, (d * d) % m, w, m);
    IsIs((x1 * ((d * d) % m)) % m, x1 * w, m);
    SumIdentity(x, z, x', z');
  }

  lemma SumIdentity(x: int, z: int, x': int, z': int)
    ensures var a, b, c, e := x + z, x - z, x' + z', x' - z';
            && (e * a + c * b) * (e * a + c * b) == SumX(x, z, x', z')
            && (e * a - c * b) * (e * a - c * b) == CrossZ(x, z, x', z')
  {
    var a, b, c, e := x + z, x - z, x' + z', x' - z';
    assert e * a + c * b == 2 * (x * x' - z * z');
    assert e * a - c * b == -2 * (x * z' - z * x');
    Square2(x * x' - z * z', 2);
    Square2(x * z' - z * x', -2);
  }

  lemma Square2(v: int, k: int)
    requires k == 2 || k == -2
    ensures (k * v) * (k * v) == 4 * (v * v)
  {
  }

  /** One step of the ladder doubles the first point and adds the second to it. */
  lemma DoubleAddIs(x1: int, s: Ladder)
    ensures var p, q := Point(s.x2, s.z2), Point(s.x3, s.z3);
            DoubleAdd(x1, s) == Ladder(Double(p).x, Double(p).z, Sum(x1, p, q).x, Sum(x1, p, q).z)
  {
    hide DoubleX, DoubleZ, SumX, CrossZ;
    DoubleParts(s.x2, s.z2, P);
    SumParts(s.x2, s.z2, s.x3, s.z3, x1, P);
  }

  // --- representations of a point ----------------------------------------------------------------------

  /** The same point with both parts multiplied by l. */
  function Scaled(l: int, p: Point): Point
  {
    Point((l * p.x) % P, (l * p.z) % P)
  }

  lemma DoubleCongruent(x: int, x': int, z: int, z': int, m: int)
    requires m > 0 && x % m == x' % m && z % m == z' % m
    ensures DoubleX(x, z) % m == DoubleX(x', z') % m && DoubleZ(x, z) % m == DoubleZ(x', z') % m
  {
    Congruent(x, x', x, x', m);
    Congruent(z, z', z, z', m);
    Congruent(x, x', z, z', m);
    Congruent(x * x, x' * x', z * z, z' * z', m);
    Congruent(x * x - z * z, x' * x' - z' * z', x * x - z * z, x' * x' - z' * z', m);
    Congruent(4, 4, x * z, x' * z', m);
    Congruent(CURVE_A, CURVE_A, x * z, x' * z', m);
    Congruent(x * x, x' * x', CURVE_A * (x * z), CURVE_A * (x' * z'), m);
    Congruent(x * x + CURVE_A * (x * z), x' * x' + CURVE_A * (x' * z'), z * z, z' * z', m);
    Congruent(4 * (x * z), 4 * (x' * z'), x * x + CURVE_A * (x * z) + z * z, x' * x' + CURVE_A * (x' * z') + z' * z', m);
  }

  lemma CrossCongruent(x: int, x': int, z: int, z': int, u: int, u': int, v: int, v': int, m: int)
    requires m > 0 && x % m == x' % m && z % m == z' % m && u % m == u' % m && v % m == v' % m
    ensures SumX(x, z, u, v) % m == SumX(x', z', u', v') % m && CrossZ(x, z, u, v) % m == CrossZ(x', z', u', v') % m
  {
    Congruent(x, x', u, u', m);
    Congruent(z, z', v, v', m);
    Congruent(x, x', v, v', m);
    Congruent(z, z', u, u', m);
    Congruent(x * u, x' * u', z * v, z' * v', m);
    Congruent(x * v, x' * v', z * u, z' * u', m);
    var s, s', d, d' := x * u - z * v, x' * u' - z' * v', x * v - z * u, x' * v' - z' * u';
    Congruent(s, s', s, s', m);
    Congruent(d, d', d, d', m);
    Congruent(4, 4, s * s, s' * s', m);
    Congruent(4, 4, d * d, d' * d', m);
  }

  lemma Exchange(l: int, x: int, k: int, z: int)
    ensures (l * x) * (k * z) == (l * k) * (x * z)
  {
    MulAssoc(l * x, k, z);
    MulAssoc(l, x, k);
    MulAssoc(l, k, x);
    MulAssoc(l * k, x, z);
  }

  lemma DoubleScales(l: int, x: int, z: int)
    ensures DoubleX(l * x, l * z) == ((l * l) * (l * l)) * DoubleX(x, z)
    ensures DoubleZ(l * x, l * z) == ((l * l) * (l * l)) * DoubleZ(x, z)
  {
    var k, u, v := l * l, x * x - z * z, x * x + CURVE_A * (x * z) + z * z;
    Exchange(l, x, l, x);
    Exchange(l, z, l, z);
    Exchange(l, x, l, z);
    Distribute(k, x * x, -(z * z));
    assert k * -(z * z) == -(k * (z * z));
    Exchange(k, u, k, u);
    FactorOut(k, x * x, x * z, z * z);
    Exchange(k, 4 * (x * z), k, v);
  }

  lemma FactorOut(k: int, a: int, b: int, c: int)
    ensures k * a + CURVE_A * (k * b) + k * c == k * (a + CURVE_A * b + c) && 4 * (k * b) == k * (4 * b)
  {
  }

  lemma SumScales(l: int, x: int, z: int, k: int, u: int, v: int)
    ensures SumX(l * x, l * z, k * u, k * v) == ((l * k) * (l * k)) * SumX(x, z, u, v)
    ensures CrossZ(l * x, l * z, k * u, k * v) == ((l * k) * (l * k)) * CrossZ(x, z, u, v)
  {
    Exchange(l, x, k, u);
    Exchange(l, z, k, v);
    Exchange(l, x, k, v);
    Exchange(l, z, k, u);
    SquareOfDifference(l * k, x * u, z * v);
    SquareOfDifference(l * k, x * v, z * u);
  }

  lemma SquareOfDifference(k: int, a: int, b: int)
    ensures 4 * ((k * a - k * b) * (k * a - k * b)) == (k * k) * (4 * ((a - b) * (a - b)))
  {
    Distribute(k, a, -b);
    Exchange(k, a - b, k, a - b);
    MulAssoc(k * k, 4, (a - b) * (a - b));
  }

  lemma ScaledProduct(l: int, k: int, x: int, m: int)
    requires m > 0
    ensures ((l * k) * x) % m == (((l * k) % m) * (x % m)) % m
  {
    ModMul(l * k, x, m);
  }

  lemma DoubleOfScaled(l: int, p: Point)
    ensures Double(Scaled(l, p)) == Scaled(MulP(MulP(l, l), MulP(l, l)), Double(p))
  {
    hide DoubleX, DoubleZ;
    var x, z := l * p.x, l * p.z;
    ModTwice(x, P);
    ModTwice(z, P);
    DoubleCongruent(x % P, x, z % P, z, P);
    DoubleScales(l, p.x, p.z);
    FourthPower(l, DoubleX(p.x, p.z), P);
    FourthPower(l, DoubleZ(p.x, p.z), P);
  }

  lemma FourthPower(l: int, x: int, m: int)
    requires m > 0
    ensures (((l * l) * (l * l)) * x) % m == ((((l * l) % m) * ((l * l) % m)) % m * (x % m)) % m
  {
    ScaledProduct(l * l, l * l, x, m);
    ModMul(l * l, l * l, m);
  }

  lemma SumOfScaled(x1: int, l: int, p: Point, k: int, q: Point)
    ensures Sum(x1, Scaled(l, p), Scaled(k, q)) == Scaled(MulP(MulP(l, k), MulP(l, k)), Sum(x1, p, q))
  {
    hide SumX, CrossZ;
    var x, z, u, v := l * p.x, l * p.z, k * q.x, k * q.z;
    ModTwice(x, P);
    ModTwice(z, P);
    ModTwice(u, P);
    ModTwice(v, P);
    CrossCongruent(x % P, x, z % P, z, u % P, u, v % P, v, P);
    SumScales(l, p.x, p.z, k, q.x, q.z);
    FourthFactor(l, k, SumX(p.x, p.z, q.x, q.z), P);
    var w := CrossZ(p.x, p.z, q.x, q.z);
    FourthFactor(l, k, x1 * w, P);
    var f := (l * k) * (l * k);
    MulSwap(x1, f, w);
    Congruent(x1, x1, CrossZ(x % P, z % P, u % P, v % P), f * w, P);
  }

  lemma MulSwap(x: int, f: int, w: int)
    ensures x * (f * w) == f * (x * w)
  {
    MulAssoc(x, f, w);
    MulAssoc(f, x, w);
  }

  lemma FourthFactor(l: int, k: int, x: int, m: int)
    requires m > 0
    ensures (((l * k) * (l * k)) * x) % m == ((((l * k) % m) * ((l * k) % m)) % m * (x % m)) % m
  {
    ScaledProduct(l * k, l * k, x, m);
    ModMul(l * k, l * k, m);
  }

  /** The registers hold the point, up to a power of g. */
  ghost predicate Carries(g: int, r: Point, p: Point)
  {
    exists e: nat :: r == Scaled(PowP(g, e), p)
  }

  lemma DoubleCarries(g: int, r: Point, p: Point)
    requires Carries(g, r, p)
    ensures Carries(g, Double(r), Double(p))
  {
    hide Double, Scaled, PowP, MulP;
    var e: nat :| r == Scaled(PowP(g, e), p);
    DoubleOfScaled(PowP(g, e), p);
    PowPAdd(g, e, e);
    PowPAdd(g, e + e, e + e);
    assert Double(r) == Scaled(PowP(g, e + e + (e + e)), Double(p));
  }

  lemma SumCarries(g: int, x1: int, r: Point, p: Point, t: Point, q: Point)
    requires Carries(g, r, p) && Carries(g, t, q)
    ensures Carries(g, Sum(x1, r, t), Sum(x1, p, q))
  {
    hide Sum, Scaled, PowP, MulP;
    var e: nat :| r == Scaled(PowP(g, e), p);
    var f: nat :| t == Scaled(PowP(g, f), q);
    SumOfScaled(x1, PowP(g, e), p, PowP(g, f), q);
    PowPAdd(g, e, f);
    PowPAdd(g, e + f, e + f);
    assert Sum(x1, r, t) == Scaled(PowP(g, e + f + (e + f)), Sum(x1, p, q));
  }

  // --- the ladder counts ------------------------------------------------------------------------------

  /** The registers hold n and n + 1 times the point, up to powers of 4 x1. */
  ghost predicate Holds(x1: int, n: nat, s: Ladder)
  {
    Carries(4 * x1, Point(s.x2, s.z2), Multiple(x1, n)) && Carries(4 * x1, Point(s.x3, s.z3), Multiple(x1, n + 1))
  }

  lemma DoubleOfMultiple(x1: int, n: nat)
    ensures Double(Multiple(x1, n)) == Multiple(x1, 2 * n)
  {
    if n == 0 {
      ModSmall(1, P);
      ModSmall(0, P);
    }
  }

  /** The multiples by the first two numbers, and by an odd one. */
  lemma OddMultiple(x1: int, n: nat)
    ensures Multiple(x1, 0) == Point(1, 0) && Multiple(x1, 1) == Point(x1, 1)
    ensures n > 0 ==> Multiple(x1, 2 * n + 1) == Sum(x1, Multiple(x1, n), Multiple(x1, n + 1))
  {
    hide Double, Sum;
    assert (2 * n + 1) / 2 == n;
  }

  lemma FirstSum(x1: int)
    ensures Carries(4 * x1, Sum(x1, Point(1, 0), Point(x1, 1)), Point(x1, 1))
  {
    var g := 4 * x1;
    assert SumX(1, 0, x1, 1) == g * x1 && x1 * CrossZ(1, 0, x1, 1) == g * 1;
    assert PowP(g, 1) == MulP(g, 1) == g % P;
    ModTwice(g, P);
    Congruent(g % P, g, x1, x1, P);
    Congruent(g % P, g, 1, 1, P);
    assert Sum(x1, Point(1, 0), Point(x1, 1)) == Scaled(PowP(g, 1), Point(x1, 1));
  }

  lemma SelfCarries(g: int, p: Point, q: Point, x1: int)
    ensures Carries(g, Sum(x1, p, q), Sum(x1, p, q))
  {
    var s := Sum(x1, p, q);
    ModSmall(s.x, P);
    ModSmall(s.z, P);
    assert s == Scaled(PowP(g, 0), s);
  }

  lemma SumCommutes(x1: int, p: Point, q: Point)
    ensures Sum(x1, p, q) == Sum(x1, q, p)
  {
    assert p.x * q.z - p.z * q.x == -(q.x * p.z - q.z * p.x);
    SquareNegated(q.x * p.z - q.z * p.x);
  }

  lemma SquareNegated(v: int)
    ensures (-v) * (-v) == v * v
  {
  }

  lemma ScaledAgain(l: int, k: int, x: int, m: int)
    requires m > 0
    ensures (l * ((k * x) % m)) % m == (((l * k) % m) * x) % m
  {
    ModMul(l, k * x, m);
    ModMul(l, (k * x) % m, m);
    ModTwice(k * x, m);
    MulAssoc(l, k, x);
    ModMul(l * k, x, m);
    ModMul((l * k) % m, x, m);
    ModTwice(l * k, m);
  }

  lemma CarriesOn(g: int, r: Point, p: Point, q: Point)
    requires Carries(g, r, p) && Carries(g, p, q)
    ensures Carries(g, r, q)
  {
    hide PowP;
    var e: nat :| r == Scaled(PowP(g, e), p);
    var f: nat :| p == Scaled(PowP(g, f), q);
    ScaledAgain(PowP(g, e), PowP(g, f), q.x, P);
    ScaledAgain(PowP(g, e), PowP(g, f), q.z, P);
    PowPAdd(g, e, f);
    assert r == Scaled(PowP(g, e + f), q);
  }

  /** The sum of two neighbours; the first sum of all only scales the point. */
  lemma MultipleOfOdd(x1: int, n: nat, r: Point, t: Point)
    requires 0 <= x1 < P && Carries(4 * x1, r, Multiple(x1, n)) && Carries(4 * x1, t, Multiple(x1, n + 1))
    ensures Carries(4 * x1, Sum(x1, r, t), Multiple(x1, 2 * n + 1))
  {
    hide Carries, Sum, Multiple;
    SumCarries(4 * x1, x1, r, Multiple(x1, n), t, Multiple(x1, n + 1));
    OddMultiple(x1, n);
    if n == 0 {
      FirstSum(x1);
    } else {
      SelfCarries(4 * x1, Multiple(x1, n), Multiple(x1, n + 1), x1);
    }
    CarriesOn(4 * x1, Sum(x1, r, t), Sum(x1, Multiple(x1, n), Multiple(x1, n + 1)), Multiple(x1, 2 * n + 1));
  }

  lemma MultipleOfEven(x1: int, n: nat, r: Point)
    requires Carries(4 * x1, r, Multiple(x1, n))
    ensures Carries(4 * x1, Double(r), Multiple(x1, 2 * n))
  {
    hide Carries, Double, Multiple;
    DoubleCarries(4 * x1, r, Multiple(x1, n));
    DoubleOfMultiple(x1, n);
  }

  /** One bit of the scalar. */
  lemma StepHolds(x1: int, n: nat, s: Ladder, b: int)
    requires 0 <= x1 < P && Holds(x1, n, s) && (b == 0 || b == 1)
    ensures Holds(x1, 2 * n + b, SwapIf(b, DoubleAdd(x1, SwapIf(b, s))))
  {
    hide Carries, Double, Sum, Multiple, DoubleAdd;
    var p, q := Point(s.x2, s.z2), Point(s.x3, s.z3);
    DoubleAddIs(x1, SwapIf(b, s));
    MultipleOfOdd(x1, n, p, q);
    if b == 0 {
      MultipleOfEven(x1, n, p);
    } else {
      SumCommutes(x1, p, q);
      MultipleOfEven(x1, n + 1, q);
      assert 2 * (n + 1) == 2 * n + 1 + 1;
    }
  }

  /** The bits of k from t on. */
  function Above(k: nat, t: nat): nat
  {
    if t == 0 then k else Above(k, t - 1) / 2
  }

  lemma {:induction false} AboveIs(k: nat, t: nat)
    ensures Above(k, t) == k / Pow2(t)
  {
    if t > 0 {
      AboveIs(k, t - 1);
      HalvedQuotient(k, Pow2(t - 1));
    }
  }

  lemma NextBit(k: nat, t: nat)
    requires t > 0
    ensures Above(k, t - 1) == 2 * Above(k, t) + (k / Pow2(t - 1)) % 2
  {
    AboveIs(k, t - 1);
  }

  lemma HalvedQuotient(k: nat, m: nat)
    requires m > 0
    ensures k / (2 * m) == (k / m) / 2
  {
    DivTwice(k, m, 2);
  }

  /** After the bits above t the registers hold k / 2^t and its successor; so after all of them, k and k + 1. */
  lemma {:induction false} LoopHolds(k: nat, x1: int, u: Ladder, swap: int, t: nat)
    requires 0 <= x1 < P && (swap == 0 || swap == 1) && Holds(x1, Above(k, t), u)
    ensures Holds(x1, k, Loop(k, x1, SwapIf(swap, u), swap, t))
    decreases t
  {
    hide Holds, DoubleAdd, Loop, SwapIf, Pow2, Above;
    if t == 0 {
      NoBitsLeft(k);
      LoopEnd(k, x1, u, swap);
    } else {
      var n, kt := Above(k, t), (k / Pow2(t - 1)) % 2;
      var v := SwapIf(kt, DoubleAdd(x1, SwapIf(kt, u)));
      NextBit(k, t);
      StepHolds(x1, n, u, kt);
      LoopHolds(k, x1, v, kt, t - 1);
      LoopUnroll(k, x1, u, swap, t);
    }
  }

  lemma NoBitsLeft(k: nat)
    ensures Above(k, 0) == k
  {
  }

  lemma NothingAbove(k: nat, t: nat)
    requires k < Pow2(t)
    ensures Above(k, t) == 0
  {
    AboveIs(k, t);
    ModSmall(k, Pow2(t));
  }

  lemma StartHolds(x1: int)
    requires 0 <= x1 < P
    ensures Holds(x1, 0, Ladder(1, 0, x1, 1))
  {
    ModSmall(1, P);
    ModSmall(0, P);
    ModSmall(x1, P);
    assert Point(1, 0) == Scaled(PowP(4 * x1, 0), Point(1, 0));
    assert Point(x1, 1) == Scaled(PowP(4 * x1, 0), Point(x1, 1));
  }

  // --- from the registers to the result ------------------------------------------------------------------

  lemma {:induction false} PowOfProduct(x: int, y: int, e: nat)
    ensures PowP(MulP(x, y), e) == MulP(PowP(x, e), PowP(y, e))
  {
    if e == 0 {
      ModSmall(1, P);
    } else {
      PowOfProduct(x, y, e - 1);
      MiddleSwap(x, y, PowP(x, e - 1), PowP(y, e - 1));
    }
  }

  lemma MiddleSwap(x: int, y: int, u: int, v: int)
    ensures MulP(MulP(x, y), MulP(u, v)) == MulP(MulP(x, u), MulP(y, v))
  {
    ModMul(x * y, u * v, P);
    ModMul(x * u, y * v, P);
    Exchange(x, y, u, v);
    Exchange(x, u, y, v);
    assert (x * y) * (u * v) == (x * u) * (y * v) by {
      FourFactors(x, y, u, v);
    }
  }

  lemma FourFactors(x: int, y: int, u: int, v: int)
    ensures (x * y) * (u * v) == (x * u) * (y * v)
  {
    Exchange(x, y, u, v);
  }

  lemma {:induction false} PowerNonZero(g: nat, e: nat)
    requires g % P != 0
    ensures 0 < PowP(g, e) < P
  {
    if e == 0 {
    } else {
      PowerNonZero(g, e - 1);
      if PowP(g, e) == 0 {
        ProductIsZero(g, PowP(g, e - 1));
        ModSmall(PowP(g, e - 1), P);
      }
    }
  }

  /** A non-zero factor of both parts cancels. */
  lemma AffineOfScaled(l: nat, p: Point, w: int)
    requires 0 < l < P && w == MulP(Scaled(l, p).x, PowP(Scaled(l, p).z, P - 2))
    ensures IsAffine(w, p)
  {
    hide PowP;
    var r := Scaled(l, p);
    ModSmall(l, P);
    if p.z % P == 0 {
      Congruent(l, l, p.z, 0, P);
      PowerOfZero(r.z, P - 2);
    } else {
      if r.z == 0 {
        ProductIsZero(l, p.z);
      }
      ModSmall(r.z, P);
      PowerInverts(r.z);
      CancelScale(l, p, r, PowP(r.z, P - 2), w);
    }
  }

  /** From w = l x / (l z): first w (l z) = l x, then w z = x. */
  lemma CancelScale(l: nat, p: Point, r: Point, inverse: int, w: int)
    requires 0 < l < P && r == Scaled(l, p) && MulP(r.z, inverse) == 1 && w == MulP(r.x, inverse)
    ensures MulP(w, p.z) == p.x % P
  {
    ModSmall(l, P);
    assert MulP(w, r.z) == r.x by {
      MulModAssoc(r.x, inverse, r.z, P);
      MulPCommutes(inverse, r.z);
      ModSmall(r.x, P);
      assert MulP(r.x, 1) == r.x;
    }
    assert MulP(l, MulP(w, p.z) - p.x) == 0 by {
      LeftFactor(l, w, p.z, p.x, P);
    }
    ProductIsZero(l, MulP(w, p.z) - p.x);
    DifferenceIsZero(MulP(w, p.z), p.x, P);
  }

  lemma LeftFactor(l: int, w: int, z: int, x: int, m: int)
    requires m > 0 && (w * ((l * z) % m)) % m == (l * x) % m
    ensures (l * ((w * z) % m - x)) % m == 0
  {
    ScaledAgain(w, l, z, m);
    ScaledAgain(l, w, z, m);
    assert w * l == l * w;
    Distribute(l, (w * z) % m, -x);
    assert l * -x == -(l * x);
    Primes.ModEqualDiffers(l * ((w * z) % m), l * x, m);
  }

  lemma DifferenceIsZero(v: int, x: int, m: int)
    requires m > 0 && 0 <= v < m && (v - x) % m == 0
    ensures v == x % m
  {
    var k := (v - x) / m;
    Primes.Quotient(v - x, m);
    DivModUnique(x, m, -k, v);
  }

  /** If 4 x1 is zero, so is one part of every multiple. */
  lemma {:induction false} OriginMultiple(n: nat)
    ensures Multiple(0, n).x == 0 || Multiple(0, n).z == 0
  {
    hide Double, Sum;
    if n > 1 {
      if n % 2 == 0 {
        OriginMultiple(n / 2);
        DoubleOfOrigin(Multiple(0, n / 2));
      } else {
        SumOverOrigin(Multiple(0, n / 2), Multiple(0, n / 2 + 1));
      }
    }
  }

  lemma DoubleOfOrigin(p: Point)
    requires p.x == 0 || p.z == 0
    ensures Double(p).z == 0
  {
    assert p.x * p.z == 0;
  }

  lemma SumOverOrigin(p: Point, q: Point)
    ensures Sum(0, p, q).z == 0
  {
    hide CrossZ;
  }

  lemma ResultIsAffine(x1: nat, n: nat, s: Ladder)
    requires x1 < P && Holds(x1, n, s)
    ensures IsAffine(MulP(s.x2, PowP(s.z2, P - 2)), Multiple(x1, n))
  {
    hide PowP, Primes.IsPrime, Multiple;
    var e: nat :| Point(s.x2, s.z2) == Scaled(PowP(4 * x1, e), Multiple(x1, n));
    if x1 > 0 {
      ModSmall(x1, P);
      if (4 * x1) % P == 0 {
        ModSmall(0, P);
        ProductIsZero(4, x1);
      }
      PowerNonZero(4 * x1, e);
      AffineOfScaled(PowP(4 * x1, e), Multiple(x1, n), MulP(s.x2, PowP(s.z2, P - 2)));
    } else if e == 0 {
      NothPower(0);
      AffineOfScaled(1, Multiple(x1, n), MulP(s.x2, PowP(s.z2, P - 2)));
    } else {
      PowerOfZero(0, e);
      OriginMultiple(n);
      ModSmall(0, P);
      assert s.x2 == 0 && 0 * PowP(s.z2, P - 2) == 0;
    }
  }

  lemma NothPower(x: int)
    ensures PowP(x, 0) == 1
  {
  }

  /** The number of the point, its top bit dropped. */
  lemma DecodedNumber(u: seq<byte>)
    requires |u| == 32
    ensures DecodeU(u) == LE(u) % Pow2(255)
  {
    hide LE, Pow2, Pow256, DecodeU;
    PowersOfTwo();
    Decoded(u);
    Split(u);
    TopDropped(u[31] as int, Pow2(245), u[0] as int + 256 * LE(u[1..31]), LE(u), DecodeU(u));
  }

  lemma Decoded(u: seq<byte>)
    requires |u| == 32
    ensures DecodeU(u) == LE(u) + (u[31] as int % 128 - u[31] as int) * Pow256(31)
  {
    hide LE, Pow256, And8;
    LEUpdate(u, 31, And8(u[31], 127));
    LowSeven(u[31]);
  }

  lemma TopDropped(b: nat, w: nat, low: nat, n: nat, d: nat)
    requires b < 256 && w > 0 && low < 8 * w && n == low + (8 * w) * b && d == n + (b % 128 - b) * (8 * w)
    ensures d == n % (1024 * w)
  {
    var h, l := b / 128, b % 128;
    TopBit(b, w);
    MulMono(8 * w, l, 127);
    MulMono(8 * w, 0, l);
    DivModUnique(n, 1024 * w, h, d);
  }

  lemma LowSeven(b: byte)
    ensures And8(b, 127) as int == b as int % 128
  {
    assert Pow2(7) == 128;
    Bits.AndLowMask(b as int, 7);
  }

  lemma TopBit(b: nat, w: nat)
    ensures (b % 128 - b) * (8 * w) == -((b / 128) * (1024 * w))
    ensures (8 * w) * b == (8 * w) * (b % 128) + (b / 128) * (1024 * w)
  {
    var h, l := b / 128, b % 128;
    assert b == 128 * h + l;
    Distribute(8 * w, 128 * h, l);
    MulAssoc(h, 128, 8 * w);
  }

  // --- the clamped scalar -------------------------------------------------------------------------------

  lemma {:induction false} OrTop(v: nat, n: nat)
    requires v < 2 * Pow2(n)
    ensures Bits.Or(v, Pow2(n)) == Pow2(n) + v % Pow2(n)
  {
    if n > 0 {
      OrTop(v / 2, n - 1);
      Bits.HalfMod(v, Pow2(n - 1));
    }
  }

  lemma ClampedBytes(a: byte, b: byte)
    ensures And8(a, 248) as int == a as int - a as int % 8
    ensures Or8(And8(b, 127), 64) as int == 64 + b as int % 64
  {
    hide Bits.And, Bits.Or;
    assert Pow2(3) == 8 && Pow2(5) == 32 && Pow2(6) == 64 && Pow2(7) == 128;
    var h, l := a as int / 8, a as int % 8;
    Bits.AndSplit(h, l, 31, 0, 3);
    Bits.AndLowMask(h, 5);
    Bits.AndCommutes(l, 0);
    Bits.AndBound(0, l);
    ModSmall(h, 32);
    Bits.AndLowMask(b as int, 7);
    OrTop(b as int % 128, 6);
    assert (b as int % 128) % 64 == b as int % 64;
  }

  /** A multiple of 8 with bit 254 set, the bits between as given. */
  lemma ClampedNumber(k: seq<byte>)
    requires |k| == 32
    ensures LE(ClampScalar(k)) == Pow2(254) + 8 * ((LE(k) / 8) % Pow2(251))
    ensures LE(ClampScalar(k)) % 8 == 0 && Pow2(254) <= LE(ClampScalar(k)) < Pow2(255)
  {
    hide LE, Pow2, Pow256, And8, Or8, Bits.And, Bits.Or;
    var low, high := And8(k[0], 248), Or8(And8(k[31], 127), 64);
    ClampedBytes(k[0], k[31]);
    LEUpdate(k, 0, low);
    LEUpdate(k[0 := low], 31, high);
    Split(k);
    PowersOfTwo();
    var w := Pow2(245);
    ClampedSum(k[0] as int, LE(k[1..31]), k[31] as int, w);
    assert LE(ClampScalar(k)) == LE(k) + (low as int - k[0] as int) + (high as int - k[31] as int) * (8 * w);
  }

  lemma PowersOfTwo()
    ensures Pow256(0) == 1 && Pow256(31) == 8 * Pow2(245) && Pow2(248) == 8 * Pow2(245)
    ensures Pow2(251) == 64 * Pow2(245) && Pow2(254) == 512 * Pow2(245) && Pow2(255) == 1024 * Pow2(245)
  {
    Pow256Pow2(31);
    assert Pow2(3) == 8 && Pow2(6) == 64 && Pow2(9) == 512 && Pow2(10) == 1024;
    hide Pow2;
    Pow2Add(3, 245);
    Pow2Add(6, 245);
    Pow2Add(9, 245);
    Pow2Add(10, 245);
  }

  /** First byte, the middle, last byte. */
  lemma Split(k: seq<byte>)
    requires |k| == 32
    ensures LE(k) == k[0] as int + 256 * LE(k[1..31]) + Pow256(31) * k[31] as int
    ensures 256 * LE(k[1..31]) + 256 <= Pow256(31)
  {
    assert k == k[..31] + k[31..] && k[31..] == [k[31]];
    LEConcat(k[..31], k[31..]);
    LEOne(k[31]);
    assert k[..31][1..] == k[1..31];
    LEBound(k[1..31]);
  }

  lemma ClampedSum(a: nat, m: nat, b: nat, w: nat)
    requires a < 256 && b < 256 && w > 0 && 256 * m + 256 <= 8 * w
    ensures var n := a + 256 * m + (8 * w) * b;
            n + (a - a % 8 - a) + (64 + b % 64 - b) * (8 * w) == 512 * w + 8 * ((n / 8) % (64 * w))
    ensures var c := 512 * w + 8 * (((a + 256 * m + (8 * w) * b) / 8) % (64 * w)); c % 8 == 0 && 512 * w <= c < 1024 * w
  {
    var n := a + 256 * m + (8 * w) * b;
    var r := a / 8 + 32 * m + w * (b % 64);
    assert b == 64 * (b / 64) + b % 64;
    var q := b / 64;
    assert (8 * w) * b == 8 * (w * (b % 64)) + 8 * (q * (64 * w)) by {
      Spread64(w, q, b % 64);
    }
    assert n == 8 * (r + q * (64 * w)) + a % 8;
    DivModUnique(n, 8, r + q * (64 * w), a % 8);
    MulMono(w, b % 64, 63);
    DivModUnique(r + q * (64 * w), 64 * w, q, r);
    Spread8(w, b, b % 64);
  }

  lemma Spread64(w: int, q: int, r: int)
    ensures (8 * w) * (64 * q + r) == 8 * (w * r) + 8 * (q * (64 * w))
  {
  }

  lemma Spread8(w: int, b: int, r: int)
    ensures (64 + r - b) * (8 * w) == 512 * w + 8 * (w * r) - (8 * w) * b
  {
  }

  /** X25519(k, u) is the first coordinate of k times the point with first coordinate u. */
  lemma ScalarMultIs(k: seq<byte>, u: seq<byte>)
    requires |k| == 32 && |u| == 32
    ensures IsAffine(ScalarMult(k, u), Multiple(DecodeU(u) % P, LE(ClampScalar(k))))
  {
    hide Carries, PowP, Loop, IsAffine, DecodeU, ClampScalar;
    var n, x1 := LE(ClampScalar(k)), DecodeU(u) % P;
    var start := Ladder(1, 0, x1, 1);
    ClampedNumber(k);
    NothingAbove(n, 255);
    StartHolds(x1);
    LoopHolds(n, x1, start, 0, 255);
    ResultIsAffine(x1, n, Loop(n, x1, start, 0, 255));
  }

  /** x25519_scalarmult: what the 32 bytes are, by RFC 7748 and by the curve. */
  method ScalarMultiply(out: array<byte>, scalar: array<byte>, point: array<byte>)
    requires out.Length == 32 && scalar.Length == 32 && point.Length == 32
    modifies out
    ensures LE(out[..]) == old(ScalarMult(scalar[..], point[..]))
    ensures IsAffine(LE(out[..]), old(Multiple(DecodeU(point[..]) % P, LE(ClampScalar(scalar[..])))))
  {
    hide PowP, Loop, IsAffine, Multiple;
    ScalarMultIs(scalar[..], point[..]);
    var z := Clamp(scalar);
    var x := new int64[16];
    Unpack25519(x, point);
    var k121665 := new int64[16](_ => 0);
    Constant121665(k121665);
    var a, b, c, d, e, f := InitialRegisters(x);
    RunLadder(z, a, b, c, d, e, f, x, k121665);
    FInverse(c, c);
    FMul(a, a, c);
    Pack25519(out, a);
  }

  // --- points of small order -----------------------------------------------------------------------------

  /** The multiples of a point whose first coordinate squares to 1: its double is (0, 0), and its quadruple infinity. */
  lemma {:induction false} UnitMultiple(x1: int, n: nat)
    requires (x1 * x1) % P == 1
    ensures var p := Multiple(x1, n);
            if n % 2 == 0 then p.x == 0 || p.z == 0 else (p.x * p.x - p.z * p.z) % P == 0
  {
    hide Double, Sum;
    if n == 1 {
      Primes.ModEqualDiffers(x1 * x1, 1, P);
    } else if n > 1 && n % 2 == 0 {
      var p := Multiple(x1, n / 2);
      UnitMultiple(x1, n / 2);
      if n / 2 % 2 == 0 {
        DoubleOfOrigin(p);
      } else {
        DoubleOfEqual(p.x, p.z, P);
        DoubleOf(p);
      }
    } else if n > 1 {
      var p, q := Multiple(x1, n / 2), Multiple(x1, n / 2 + 1);
      UnitMultiple(x1, n / 2);
      UnitMultiple(x1, n / 2 + 1);
      SumOfEqual(x1, p.x, p.z, q.x, q.z, P);
      SumOf(x1, p, q);
    }
  }

  lemma DoubleOf(p: Point)
    ensures Double(p).x == DoubleX(p.x, p.z) % P
  {
  }

  lemma SumOf(x1: int, p: Point, q: Point)
    ensures Sum(x1, p, q) == Point(SumX(p.x, p.z, q.x, q.z) % P, (x1 * CrossZ(p.x, p.z, q.x, q.z)) % P)
  {
  }

  lemma DoubleOfEqual(x: int, z: int, m: int)
    requires m > 0 && (x * x - z * z) % m == 0
    ensures DoubleX(x, z) % m == 0
  {
    var v := x * x - z * z;
    Congruent(v, 0, v, 0, m);
    ModSmall(0, m);
  }

  lemma SumOfEqual(x1: int, x: int, z: int, u: int, v: int, m: int)
    requires m > 1 && (x1 * x1) % m == 1 && ((x * x - z * z) % m == 0 || (u * u - v * v) % m == 0)
    ensures var s, d := SumX(x, z, u, v) % m, (x1 * CrossZ(x, z, u, v)) % m; (s * s - d * d) % m == 0
  {
    hide SumX, CrossZ;
    var s, d := SumX(x, z, u, v), CrossZ(x, z, u, v);
    ModTwice(s, m);
    ModTwice(x1 * d, m);
    Congruent(s % m, s, s % m, s, m);
    Congruent((x1 * d) % m, x1 * d, (x1 * d) % m, x1 * d, m);
    Congruent((s % m) * (s % m), s * s, ((x1 * d) % m) * ((x1 * d) % m), (x1 * d) * (x1 * d), m);
    Exchange(x1, d, x1, d);
    ModSmall(1, m);
    Congruent(x1 * x1, 1, d * d, d * d, m);
    Congruent(s * s, s * s, (x1 * x1) * (d * d), 1 * (d * d), m);
    var a, b := x * x - z * z, u * u - v * v;
    DifferenceOfSquares(x, z, u, v);
    ModSmall(0, m);
    assert (a * b) % m == 0 by {
      if a % m == 0 {
        Congruent(a, 0, b, b, m);
      } else {
        Congruent(a, a, b, 0, m);
      }
    }
    Congruent(a * b, 0, 4 * (s + d), 4 * (s + d), m);
  }

  lemma DifferenceOfSquares(x: int, z: int, u: int, v: int)
    ensures var s, d := SumX(x, z, u, v), CrossZ(x, z, u, v);
            s * s - 1 * (d * d) == ((x * x - z * z) * (u * u - v * v)) * (4 * (s + d))
  {
    var a, b := x * u - z * v, x * v - z * u;
    SquaresDiffer(x, z, u, v);
    var s, d := 4 * (a * a), 4 * (b * b);
    assert (s + d) * (s - d) == s * s - d * d;
    MulAssoc(a * a - b * b, 4, s + d);
  }

  lemma SquaresDiffer(x: int, z: int, u: int, v: int)
    ensures (x * u - z * v) * (x * u - z * v) - (x * v - z * u) * (x * v - z * u) == (x * x - z * z) * (u * u - v * v)
  {
    var a, b := x * u, z * v;
    var c, e := x * v, z * u;
    Exchange(x, u, z, v);
    Exchange(x, v, z, u);
    assert u * v == v * u;
    Exchange(x, u, x, u);
    Exchange(z, v, z, v);
    Exchange(x, v, x, v);
    Exchange(z, u, z, u);
    assert (a - b) * (a - b) == a * a - 2 * (a * b) + b * b;
    assert (c - e) * (c - e) == c * c - 2 * (c * e) + e * e;
    Distribute(x * x - z * z, u * u, -(v * v));
  }

  /** Points of order 1, 2 and 4, here and on the twist, give 0 for every scalar: the result that callers refuse. */
  lemma SmallOrderGivesZero(k: seq<byte>, u: seq<byte>)
    requires |k| == 32 && |u| == 32 && DecodeU(u) % P in {0, 1, P - 1}
    ensures ScalarMult(k, u) == 0
  {
    hide Double, ScalarMult, DecodeU, ClampScalar, Pow2, Multiple, LE, IsAffine;
    var x1, h := DecodeU(u) % P, LE(ClampScalar(k)) / 2;
    ClampedNumber(k);
    assert h % 2 == 0;
    if x1 == 0 {
      OriginMultiple(h);
    } else {
      OneSquared(x1);
      UnitMultiple(x1, h);
    }
    HalfwayGivesZero(k, u);
  }

  /** If half of the scalar leads to a point with a zero part, the whole leads to infinity. */
  lemma HalfwayGivesZero(k: seq<byte>, u: seq<byte>)
    requires |k| == 32 && |u| == 32
    requires var p := Multiple(DecodeU(u) % P, LE(ClampScalar(k)) / 2); p.x == 0 || p.z == 0
    ensures ScalarMult(k, u) == 0
  {
    hide Double, ScalarMult, DecodeU, ClampScalar, Pow2, Multiple, LE, IsAffine;
    var x1, n := DecodeU(u) % P, LE(ClampScalar(k));
    ScalarMultIs(k, u);
    ClampedNumber(k);
    PowPositive254();
    DoubleOfOrigin(Multiple(x1, n / 2));
    EvenMultiple(x1, n);
    AtInfinity(ScalarMult(k, u), Multiple(x1, n));
  }

  lemma AtInfinity(w: int, p: Point)
    requires IsAffine(w, p) && p.z == 0
    ensures w == 0
  {
    ModSmall(0, P);
  }

  lemma EvenMultiple(x1: int, n: nat)
    requires n > 0 && n % 2 == 0
    ensures Multiple(x1, n) == Double(Multiple(x1, n / 2))
  {
  }

  lemma PowPositive254()
    ensures Pow2(254) > 1
  {
  }

  lemma OneSquared(x1: int)
    requires x1 == 1 || x1 == P - 1
    ensures (x1 * x1) % P == 1
  {
    ModSmall(1, P);
    Congruent(P - 1, -1, P - 1, -1, P);
  }

  // --- the formulas are those of the curve ------------------------------------------------------------------

  /** The point lies on y^2 = x^3 + A x^2 + x, modulo m. */
  predicate OnCurve(x: int, y: int, m: int)
  {
    m > 0 && (y * y) % m == (x * (x * x + CURVE_A * x + 1)) % m
  }

  /** The tangent meets the curve again below its slope squared: numerator over 4 y^2. */
  function TangentX(x: int, y: int): int
  {
    var slope := 3 * (x * x) + 2 * CURVE_A * x + 1;
    slope * slope - (CURVE_A + 2 * x) * (4 * (y * y))
  }

  /** Likewise for the chord, over (u - x)^2. */
  function ChordX(x: int, y: int, u: int, v: int): int
  {
    (v - y) * (v - y) - (CURVE_A + x + u) * ((u - x) * (u - x))
  }

  /** The two polynomials of Double are the tangent rule, modulo any m. */
  lemma DoubleIsTangent(x: int, y: int, m: int)
    requires OnCurve(x, y, m)
    ensures DoubleX(x, 1) % m == TangentX(x, y) % m && DoubleZ(x, 1) % m == (4 * (y * y)) % m
  {
    var c := x * (x * x + CURVE_A * x + 1);
    Congruent(4, 4, y * y, c, m);
    TangentIdentity(x, c);
    var slope := 3 * (x * x) + 2 * CURVE_A * x + 1;
    Congruent(CURVE_A + 2 * x, CURVE_A + 2 * x, 4 * (y * y), 4 * c, m);
    Congruent(slope * slope, slope * slope, (CURVE_A + 2 * x) * (4 * (y * y)), (CURVE_A + 2 * x) * (4 * c), m);
  }

  lemma TangentIdentity(x: int, c: int)
    requires c == x * (x * x + CURVE_A * x + 1)
    ensures var slope := 3 * (x * x) + 2 * CURVE_A * x + 1;
            slope * slope - (CURVE_A + 2 * x) * (4 * c) == DoubleX(x, 1) && DoubleZ(x, 1) == 4 * c
  {
  }

  /** The two chords, from a point and from its negative, in terms of the first coordinates alone. */
  lemma ChordIdentity(a: int, x: int, u: int, c: int, e: int)
    requires c == x * (x * x + a * x + 1) && e == u * (u * u + a * u + 1)
    ensures var d, w := (u - x) * (u - x), c + e - (a + x + u) * ((u - x) * (u - x));
            w * w - 4 * (c * e) == ((x * u - 1) * (x * u - 1)) * d
  {
    var p, s, d := x * u, x + u, (u - x) * (u - x);
    Discriminant(x, u);
    SumOfCubics(a, x, u, c, e);
    ProductOfCubics(a, x, u, p, s);
    ChordFinish(a, p, s, d, c + e - (a + s) * d, c * e);
    assert a + x + u == a + s;
  }

  lemma Discriminant(x: int, u: int)
    ensures (u - x) * (u - x) == (x + u) * (x + u) - 4 * (x * u)
  {
  }

  lemma ChordFinish(a: int, p: int, s: int, d: int, w: int, f: int)
    requires d == s * s - 4 * p && w == p * (s + 2 * a) + s
    requires f == p * (p * p + a * (p * s) + (s * s - 2 * p) + (a * a) * p + a * s + 1)
    ensures w * w - 4 * f == ((p - 1) * (p - 1)) * d
  {
    SymmetricIdentity(a, p, s);
  }

  lemma SumOfCubics(a: int, x: int, u: int, c: int, e: int)
    requires c == x * (x * x + a * x + 1) && e == u * (u * u + a * u + 1)
    ensures var p, s := x * u, x + u; c + e - (a + s) * ((u - x) * (u - x)) == p * (s + 2 * a) + s
  {
    var p, s := x * u, x + u;
    CubicForm(a, x);
    CubicForm(a, u);
    Cubes(x, u);
    SquareOfSum(x, u);
    Distribute(a, x * x, u * u);
    TwiceOff(a, s * s, p);
    Discriminant(x, u);
    Expanded(a, s, p);
    TwiceOff(p, s, -a);
    assert p * a == a * p && p * s == s * p;
  }

  lemma CubicForm(a: int, x: int)
    ensures x * (x * x + a * x + 1) == x * (x * x) + a * (x * x) + x
  {
    MulAssoc(x, a, x);
    MulAssoc(a, x, x);
    Distribute(x, x * x, a * x);
    Distribute(x, x * x + a * x, 1);
  }

  lemma TwiceOff(k: int, x: int, y: int)
    ensures k * (x - 2 * y) == k * x - 2 * (k * y)
  {
  }

  lemma Cubes(x: int, u: int)
    ensures x * (x * x) + u * (u * u) == (x + u) * ((x + u) * (x + u)) - 3 * ((x * u) * (x + u))
  {
  }

  lemma Expanded(a: int, s: int, p: int)
    ensures (a + s) * (s * s - 4 * p) == a * (s * s) - 4 * (a * p) + s * (s * s) - 4 * (p * s)
  {
  }

  lemma ProductOfCubics(a: int, x: int, u: int, p: int, s: int)
    requires p == x * u && s == x + u
    ensures (x * (x * x + a * x + 1)) * (u * (u * u + a * u + 1)) == p * (p * p + a * (p * s) + (s * s - 2 * p) + (a * a) * p + a * s + 1)
  {
    var f, h := x * x + a * x + 1, u * u + a * u + 1;
    Exchange(x, f, u, h);
    assert f * h == p * p + a * (p * s) + (s * s - 2 * p) + (a * a) * p + a * s + 1 by {
      QuadraticProduct(a, x, u);
    }
  }

  lemma QuadraticProduct(a: int, x: int, u: int)
    ensures var p, s := x * u, x + u;
            (x * x + a * x + 1) * (u * u + a * u + 1) == p * p + a * (p * s) + (s * s - 2 * p) + (a * a) * p + a * s + 1
  {
    var p := x * u;
    Exchange(x, x, u, u);
    Exchange(x, x, a, u);
    Exchange(a, x, a, u);
    Exchange(a, x, u, u);
    assert (x * x) * (u * u) == p * p;
    assert (x * x) * (a * u) == a * (p * x);
    assert (a * x) * (u * u) == a * (p * u);
    assert (a * x) * (a * u) == (a * a) * p;
  }

  lemma SymmetricIdentity(a: int, p: int, s: int)
    ensures var w, f := p * (s + 2 * a) + s, p * (p * p + a * (p * s) + (s * s - 2 * p) + (a * a) * p + a * s + 1);
            w * w - 4 * f == ((p - 1) * (p - 1)) * (s * s - 4 * p)
  {
    var q, pp, ss := s + 2 * a, p * p, s * s;
    SquareOfSum(p * q, s);
    Exchange(p, q, p, q);
    SquareOfSum(s, 2 * a);
    var qq := q * q;
    assert qq == ss + 4 * (a * s) + 4 * (a * a);
    SpreadThree(pp, ss, a * s, a * a);
    assert 2 * ((p * q) * s) == 2 * (p * ss) + 4 * (p * (a * s)) by {
      CubicTerm(p, s, a);
    }
    Spread(p, pp, a * (p * s), ss, (a * a) * p, a * s);
    QuarticTerms(p, a, s);
    SquareOfSum(p, -1);
    SpreadTwo(pp, p, ss);
  }

  lemma SquareOfSum(x: int, y: int)
    ensures (x + y) * (x + y) == x * x + 2 * (x * y) + y * y
  {
  }

  lemma SpreadThree(k: int, x: int, y: int, z: int)
    ensures k * (x + 4 * y + 4 * z) == k * x + 4 * (k * y) + 4 * (k * z)
  {
  }

  lemma CubicTerm(p: int, s: int, a: int)
    ensures (p * (s + 2 * a)) * s == p * (s * s) + 2 * (p * (a * s))
  {
    MulAssoc(p, s + 2 * a, s);
    assert (s + 2 * a) * s == s * s + 2 * (a * s);
    Distribute(p, s * s, 2 * (a * s));
  }

  lemma Spread(p: int, pp: int, b: int, ss: int, c: int, e: int)
    ensures p * (pp + b + (ss - 2 * p) + c + e + 1) == p * pp + p * b + p * ss - 2 * (p * p) + p * c + p * e + p
  {
  }

  lemma QuarticTerms(p: int, a: int, s: int)
    ensures p * (a * (p * s)) == (p * p) * (a * s) && p * ((a * a) * p) == (p * p) * (a * a)
  {
    Exchange(p, a, p, s);
    MulAssoc(p, a, p * s);
    MulAssoc(p, a * a, p);
  }

  lemma SpreadTwo(pp: int, p: int, ss: int)
    ensures (pp - 2 * p + 1) * (ss - 4 * p) == pp * ss - 4 * (p * pp) - 2 * (p * ss) + 8 * (p * p) + ss - 4 * p
  {
  }

  /** Modulo m both chords together. */
  lemma ChordProduct(x: int, y: int, u: int, v: int, m: int)
    requires OnCurve(x, y, m) && OnCurve(u, v, m)
    ensures (ChordX(x, y, u, v) * ChordX(x, -y, u, v)) % m == (((x * u - 1) * (x * u - 1)) * ((u - x) * (u - x))) % m
  {
    var c, e := x * (x * x + CURVE_A * x + 1), u * (u * u + CURVE_A * u + 1);
    var k := (CURVE_A + x + u) * ((u - x) * (u - x));
    var yy, vv := y * y, v * v;
    ConjugateChords(y, v, k);
    Congruent(yy, c, vv, e, m);
    Congruent(yy + vv, c + e, k, k, m);
    var w, w' := yy + vv - k, c + e - k;
    Congruent(w, w', w, w', m);
    Congruent(4, 4, yy * vv, c * e, m);
    Congruent(w * w, w' * w', 4 * (yy * vv), 4 * (c * e), m);
    ChordIdentity(CURVE_A, x, u, c, e);
  }

  lemma ConjugateChords(y: int, v: int, k: int)
    ensures var w := y * y + v * v - k;
            ((v - y) * (v - y) - k) * ((v - -y) * (v - -y) - k) == w * w - 4 * ((y * y) * (v * v))
  {
    var w, t := y * y + v * v - k, y * v;
    assert (v - y) * (v - y) - k == w - 2 * t && (v + y) * (v + y) - k == w + 2 * t;
    assert (w - 2 * t) * (w + 2 * t) == w * w - 4 * (t * t);
    Exchange(y, v, y, v);
  }

  /**
   * Adding with a known difference is the chord rule: if x1 is the first coordinate of the
   * difference, the quotient of the sum is that of the sum of the two points.
   */
  lemma SumIsChord(x1: int, x: int, y: int, u: int, v: int)
    requires OnCurve(x, y, P) && OnCurve(u, v, P)
    requires (x1 * ((u - x) * (u - x))) % P == ChordX(x, -y, u, v) % P
    ensures var s := Sum(x1, Point(x, 1), Point(u, 1));
            (s.x * ((u - x) * (u - x))) % P == (s.z * ChordX(x, y, u, v)) % P
  {
    var d, n, n' := (u - x) * (u - x), ChordX(x, y, u, v), ChordX(x, -y, u, v);
    var w := (x * u - 1) * (x * u - 1);
    ChordProduct(x, y, u, v, P);
    hide ChordX;
    SquareNegated(u - x);
    ModTwice(4 * w, P);
    ModTwice(x1 * (4 * d), P);
    Congruent((4 * w) % P, 4 * w, d, d, P);
    Congruent((x1 * (4 * d)) % P, x1 * (4 * d), n, n, P);
    Congruent(4, 4, w * d, n * n', P);
    Congruent(x1 * d, n', 4 * n, 4 * n, P);
    Rearranged(x1, d, n, n', w);
  }

  lemma Rearranged(x1: int, d: int, n: int, n': int, w: int)
    ensures (4 * w) * d == 4 * (w * d) && (x1 * (4 * d)) * n == (x1 * d) * (4 * n) && n' * (4 * n) == 4 * (n * n')
  {
    Exchange(x1, 4 * d, n, 1);
  }
}
