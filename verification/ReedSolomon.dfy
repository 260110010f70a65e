/** Reed-Solomon codewords of QR codes: a shift register that divides polynomials. */
module ReedSolomon {
  import opened Galois

  /** An element of the field, as a coefficient. */
  datatype Symbol = Symbol(bits: bv8)

  type Poly = seq<Symbol>  // highest degree first

  const ZERO: Symbol := Symbol(0)
  const ONE: Symbol := Symbol(1)

  function Plus(a: Symbol, b: Symbol): Symbol
  {
    Symbol(Add(a.bits, b.bits))
  }

  function Times(a: Symbol, b: Symbol): Symbol
  {
    Symbol(Mul(a.bits, b.bits))
  }

  /** The k-th power of the primitive element. */
  function Root(k: nat): Symbol
  {
    Symbol(Power(k))
  }

  lemma PlusZero(a: Symbol)
    ensures Plus(a, ZERO) == a && Plus(ZERO, a) == a && Plus(a, a) == ZERO
  {
    AddZero(a.bits);
    hide Add;
  }

  lemma PlusIsZero(a: Symbol, b: Symbol)
    ensures Plus(a, b) == ZERO <==> a == b
  {
    AddIsZero(a.bits, b.bits);
    hide Add;
  }

  lemma PlusCommutes(a: Symbol, b: Symbol)
    ensures Plus(a, b) == Plus(b, a)
  {
    AddCommutes(a.bits, b.bits);
    hide Add;
  }

  lemma PlusAssociates(a: Symbol, b: Symbol, c: Symbol)
    ensures Plus(Plus(a, b), c) == Plus(a, Plus(b, c))
  {
    AddAssociates(a.bits, b.bits, c.bits);
    hide Add;
  }

  lemma PlusSwap(a: Symbol, b: Symbol, c: Symbol, d: Symbol)
    ensures Plus(Plus(a, b), Plus(c, d)) == Plus(Plus(a, c), Plus(b, d))
  {
    AddSwap(a.bits, b.bits, c.bits, d.bits);
    hide Add;
  }

  lemma TimesUnits(a: Symbol)
    ensures Times(a, ONE) == a && Times(ONE, a) == a && Times(a, ZERO) == ZERO && Times(ZERO, a) == ZERO
  {
    hide Mul;
    MulUnits(a.bits, 8);
  }

  lemma TimesPlus(a: Symbol, b: Symbol, c: Symbol)
    ensures Times(a, Plus(b, c)) == Plus(Times(a, b), Times(a, c)) && Times(Plus(b, c), a) == Plus(Times(b, a), Times(c, a))
  {
    hide Mul, Add;
    MulAdd(a.bits, b.bits, c.bits, 8);
  }

  lemma TimesCommutes(a: Symbol, b: Symbol)
    ensures Times(a, b) == Times(b, a)
  {
    hide Mul;
    MulCommutes(a.bits, b.bits, 8);
  }

  lemma TimesAssociates(a: Symbol, b: Symbol, c: Symbol)
    ensures Times(Times(a, b), c) == Times(a, Times(b, c))
  {
    hide Mul;
    MulAssociates(a.bits, b.bits, c.bits, 8);
  }

  lemma NoZeroDivisors(a: Symbol, b: Symbol)
    ensures Times(a, b) == ZERO <==> a == ZERO || b == ZERO
  {
    hide Mul, Power;
    MulUnits(a.bits, 8);
    MulUnits(b.bits, 8);
    if a != ZERO && b != ZERO {
      var i := Logarithm(a.bits, 255);
      var j := Logarithm(b.bits, 255);
      PowerAdd(i, j, 8);
      PowerNonzero(i + j);
    }
  }

  /** The value at r, by Horner's rule. */
  function Eval(p: Poly, r: Symbol): Symbol
  {
    if |p| == 0 then ZERO else Plus(Times(Eval(p[..|p| - 1], r), r), p[|p| - 1])
  }

  function Zeros(n: nat): (z: Poly)
    ensures |z| == n && forall i :: 0 <= i < n ==> z[i] == ZERO
  {
    seq(n, _ => ZERO)
  }

  function Scale(p: Poly, a: Symbol): (q: Poly)
    ensures |q| == |p| && forall i :: 0 <= i < |p| ==> q[i] == Times(p[i], a)
  {
    seq(|p|, i requires 0 <= i < |p| => Times(p[i], a))
  }

  function Sum(p: Poly, q: Poly): (s: Poly)
    requires |p| == |q|
    ensures |s| == |p| && forall i :: 0 <= i < |p| ==> s[i] == Plus(p[i], q[i])
  {
    seq(|p|, i requires 0 <= i < |p| => Plus(p[i], q[i]))
  }

  /** The product of two polynomials, one coefficient of the left one at a time. */
  function Product(q: Poly, g: Poly): (r: Poly)
    requires |g| > 0
    ensures |r| == |q| + |g| - 1
  {
    if |q| == 0 then Zeros(|g| - 1)
    else
      var n := |q| - 1;
      Sum(Product(q[..n], g) + [ZERO], Zeros(n) + Scale(g, q[n]))
  }

  /** p times (x - a). */
  function TimesRoot(p: Poly, a: Symbol): (q: Poly)
    ensures |q| == |p| + 1
  {
    Sum(p + [ZERO], [ZERO] + Scale(p, a))
  }

  /** The product of (x - Root(k)) for k below n. */
  function Generator(n: nat): (g: Poly)
    ensures |g| == n + 1
  {
    if n == 0 then [ONE] else TimesRoot(Generator(n - 1), Root(n - 1))
  }

  // --- evaluation is a homomorphism ---------------------------------------------------------

  lemma EvalSnoc(p: Poly, c: Symbol, r: Symbol)
    ensures Eval(p + [c], r) == Plus(Times(Eval(p, r), r), c)
  {
    assert (p + [c])[..|p|] == p;
  }

  lemma {:induction false} EvalSum(p: Poly, q: Poly, r: Symbol)
    requires |p| == |q|
    ensures Eval(Sum(p, q), r) == Plus(Eval(p, r), Eval(q, r))
  {
    hide Times, Plus, Sum;
    PlusZero(ZERO);
    if |p| > 0 {
      var n := |p| - 1;
      assert Sum(p, q)[..n] == Sum(p[..n], q[..n]);
      EvalSum(p[..n], q[..n], r);
      var x, y := Eval(p[..n], r), Eval(q[..n], r);
      TimesPlus(r, x, y);
      PlusSwap(Times(x, r), Times(y, r), p[n], q[n]);
    }
  }

  lemma {:induction false} EvalScale(p: Poly, a: Symbol, r: Symbol)
    ensures Eval(Scale(p, a), r) == Times(Eval(p, r), a)
  {
    hide Times, Plus, Scale;
    TimesUnits(a);
    if |p| > 0 {
      var n := |p| - 1;
      assert Scale(p, a)[..n] == Scale(p[..n], a);
      EvalScale(p[..n], a, r);
      var x := Eval(p[..n], r);
      TimesAssociates(x, a, r);
      TimesCommutes(a, r);
      TimesAssociates(x, r, a);
      TimesPlus(a, Times(x, r), p[n]);
    }
  }

  lemma EvalShift(p: Poly, r: Symbol)
    ensures Eval(p + [ZERO], r) == Times(Eval(p, r), r)
  {
    hide Times, Eval;
    EvalSnoc(p, ZERO, r);
    PlusZero(Times(Eval(p, r), r));
  }

  lemma {:induction false} EvalPadded(n: nat, p: Poly, r: Symbol)
    ensures Eval(Zeros(n) + p, r) == Eval(p, r)
  {
    hide Times, Plus;
    if |p| > 0 {
      var m := |p| - 1;
      EvalPadded(n, p[..m], r);
      assert (Zeros(n) + p)[..n + m] == Zeros(n) + p[..m];
    } else {
      assert Zeros(n) + p == Zeros(n);
      EvalZeros(n, r);
    }
  }

  lemma {:induction false} EvalZeros(n: nat, r: Symbol)
    ensures Eval(Zeros(n), r) == ZERO
  {
    hide Times, Plus;
    if n > 0 {
      assert Zeros(n)[..n - 1] == Zeros(n - 1);
      EvalZeros(n - 1, r);
      TimesUnits(r);
      PlusZero(ZERO);
    }
  }

  lemma EvalTimesRoot(p: Poly, a: Symbol, r: Symbol)
    ensures Eval(TimesRoot(p, a), r) == Times(Eval(p, r), Plus(r, a))
  {
    hide Times, Plus, Eval, Sum, Scale;
    EvalSum(p + [ZERO], [ZERO] + Scale(p, a), r);
    EvalShift(p, r);
    assert Zeros(1) == [ZERO];
    EvalPadded(1, Scale(p, a), r);
    EvalScale(p, a, r);
    TimesPlus(Eval(p, r), r, a);
  }

  lemma {:induction false} EvalProduct(q: Poly, g: Poly, r: Symbol)
    requires |g| > 0
    ensures Eval(Product(q, g), r) == Times(Eval(q, r), Eval(g, r))
  {
    hide Times, Plus, Sum, Scale, Zeros;
    if |q| == 0 {
      EvalZeros(|g| - 1, r);
      TimesUnits(Eval(g, r));
    } else {
      var n := |q| - 1;
      var head, f := Product(q[..n], g), q[n];
      EvalProduct(q[..n], g, r);
      hide Eval;
      EvalSum(head + [ZERO], Zeros(n) + Scale(g, f), r);
      EvalShift(head, r);
      EvalPadded(n, Scale(g, f), r);
      EvalScale(g, f, r);
      assert q == q[..n] + [f];
      EvalSnoc(q[..n], f, r);
      RegroupProduct(Eval(q[..n], r), Eval(g, r), r, f);
    }
  }

  lemma RegroupProduct(x: Symbol, y: Symbol, r: Symbol, f: Symbol)
    ensures Plus(Times(Times(x, y), r), Times(y, f)) == Times(Plus(Times(x, r), f), y)
  {
    hide Times, Plus;
    TimesAssociates(x, y, r);
    TimesCommutes(y, r);
    TimesAssociates(x, r, y);
    TimesCommutes(y, f);
    TimesPlus(y, Times(x, r), f);
  }

  // --- the roots of the generator ---------------------------------------------------------------

  /** Is r one of the first n powers? */
  ghost predicate AmongPowers(r: Symbol, n: nat)
  {
    exists k: nat :: k < n && IsPower(r, k)
  }

  predicate IsPower(r: Symbol, k: nat)
  {
    r == Root(k)
  }

  lemma AmongMore(r: Symbol, n: nat)
    requires n > 0
    ensures AmongPowers(r, n) <==> AmongPowers(r, n - 1) || r == Root(n - 1)
  {
    assert IsPower(r, n - 1) <==> r == Root(n - 1);
    hide IsPower, Root;
    if AmongPowers(r, n) {
      var k: nat :| k < n && IsPower(r, k);
    }
  }

  /** The generator vanishes exactly at the first n powers. */
  lemma {:induction false} GeneratorRootsIff(n: nat, r: Symbol)
    ensures Eval(Generator(n), r) == ZERO <==> AmongPowers(r, n)
  {
    hide Times, Plus, Root, Generator, AmongPowers, Eval;
    GeneratorStep(n);
    if n == 0 {
      EvalOne(r);
      NotAmongNone(r);
    } else {
      GeneratorRootsIff(n - 1, r);
      EvalTimesRoot(Generator(n - 1), Root(n - 1), r);
      NoZeroDivisors(Eval(Generator(n - 1), r), Plus(r, Root(n - 1)));
      PlusIsZero(r, Root(n - 1));
      AmongMore(r, n);
    }
  }

  lemma NotAmongNone(r: Symbol)
    ensures !AmongPowers(r, 0)
  {
  }

  lemma GeneratorStep(n: nat)
    ensures n > 0 ==> Generator(n) == TimesRoot(Generator(n - 1), Root(n - 1))
    ensures n == 0 ==> Generator(n) == [ONE]
  {
  }

  lemma EvalOne(r: Symbol)
    ensures Eval([ONE], r) == ONE
  {
    assert [ONE][..0] == [];
    TimesUnits(r);
    hide Times;
  }

  lemma {:induction false} GeneratorMonic(n: nat)
    ensures Generator(n)[0] == ONE
  {
    if n > 0 {
      GeneratorMonic(n - 1);
      hide Times, Root;
      PlusZero(ONE);
    }
  }

  // --- division -----------------------------------------------------------------------------------

  /** data followed by rem is a multiple of g, and rem is shorter than g: rem is the remainder of data times x^|rem|. */
  ghost predicate Divides(g: Poly, data: Poly, rem: Poly, quotient: Poly)
    requires |g| > 0
  {
    |rem| == |g| - 1 && |quotient| == |data| && Product(quotient, g) == data + rem
  }

  /** One turn of the register. */
  lemma DivideStep(g: Poly, data: Poly, rem: Poly, quotient: Poly, c: Symbol, next: Poly)
    requires |g| > 1 && g[0] == ONE && Divides(g, data, rem, quotient) && |next| == |rem|
    requires forall i :: 0 <= i < |rem| ==>
               next[i] == Plus(if i + 1 < |rem| then rem[i + 1] else ZERO, Times(g[i + 1], Plus(c, rem[0])))
    ensures Divides(g, data + [c], next, quotient + [Plus(c, rem[0])])
  {
    var f, n := Plus(c, rem[0]), |data|;
    var q := quotient + [f];
    assert q[..n] == quotient;
    var left, right := Product(quotient, g) + [ZERO], Zeros(n) + Scale(g, f);
    var all := Sum(left, right);
    assert Product(q, g) == all by {
      hide Sum, Scale, Times, Plus, Zeros;
    }
    TimesUnits(f);
    hide Product, Times;
    forall i | 0 <= i < |all|
      ensures all[i] == (data + [c] + next)[i]
    {
      FactorCoefficient(data, rem, c, i, left[i], right[i]);
    }
    assert all == data + [c] + next;
  }

  lemma FactorCoefficient(data: Poly, rem: Poly, c: Symbol, i: nat, l: Symbol, r: Symbol)
    requires |rem| > 0 && i < |data| + |rem| + 1
    requires l == (data + rem + [ZERO])[i]
    ensures i < |data| && r == ZERO ==> Plus(l, r) == data[i]
    ensures i == |data| && r == Plus(c, rem[0]) ==> Plus(l, r) == c
    ensures i > |data| ==> l == if i - |data| < |rem| then rem[i - |data|] else ZERO
  {
    PlusZero(l);
    PlusCommutes(rem[0], Plus(c, rem[0]));
    PlusAssociates(c, rem[0], rem[0]);
    PlusZero(rem[0]);
    PlusZero(c);
  }

  /** The remainder is determined by the data. */
  lemma RemainderUnique(g: Poly, data: Poly, r1: Poly, q1: Poly, r2: Poly, q2: Poly)
    requires |g| > 0 && g[0] == ONE && Divides(g, data, r1, q1) && Divides(g, data, r2, q2)
    ensures r1 == r2 && q1 == q2
  {
    hide Product;
    var a, b := data + r1, data + r2;
    assert forall i :: 0 <= i < |data| ==> a[i] == data[i] == b[i];
    SameLeading(g, q1, q2);
    assert r1 == a[|data|..] && r2 == b[|data|..];
  }

  ghost predicate SameUpto(a: Poly, b: Poly, n: nat)
  {
    n <= |a| && n <= |b| && forall i :: 0 <= i < n ==> a[i] == b[i]
  }

  /** The leading coefficients of a product with a monic polynomial determine the other factor. */
  lemma {:induction false} SameLeading(g: Poly, q1: Poly, q2: Poly)
    requires |g| > 0 && g[0] == ONE && |q1| == |q2|
    requires SameUpto(Product(q1, g), Product(q2, g), |q1|)
    ensures q1 == q2
    decreases |q1|
  {
    if |q1| > 0 {
      hide Product, Plus;
      var n := |q1| - 1;
      var h1, h2 := q1[..n], q2[..n];
      forall i | 0 <= i < n
        ensures Product(h1, g)[i] == Product(h2, g)[i]
      {
        LeadingPrefix(g, q1, i);
        LeadingPrefix(g, q2, i);
      }
      SameLeading(g, h1, h2);
      LeadingOf(g, q1);
      LeadingOf(g, q2);
      SameSummand(Product(h1, g) + [ZERO], n, q1[n], q2[n]);
      assert q1 == h1 + [q1[n]] && q2 == h2 + [q2[n]];
    }
  }

  lemma SameSummand(p: Poly, n: nat, a: Symbol, b: Symbol)
    requires n < |p| && Plus(p[n], a) == Plus(p[n], b)
    ensures a == b
  {
  }

  lemma LeadingOf(g: Poly, q: Poly)
    requires |g| > 0 && g[0] == ONE && |q| > 0
    ensures var n := |q| - 1; Product(q, g)[n] == Plus((Product(q[..n], g) + [ZERO])[n], q[n])
  {
    hide Times, Plus, Product;
    var n := |q| - 1;
    ProductStep(q, g);
    TimesUnits(q[n]);
    var right := Zeros(n) + Scale(g, q[n]);
    assert right[n] == Scale(g, q[n])[0] == q[n];
  }

  lemma LeadingPrefix(g: Poly, q: Poly, i: nat)
    requires |g| > 0 && i + 1 < |q|
    ensures Product(q, g)[i] == Product(q[..|q| - 1], g)[i]
  {
    hide Times, Plus, Product;
    var n := |q| - 1;
    ProductStep(q, g);
    var left, right := Product(q[..n], g) + [ZERO], Zeros(n) + Scale(g, q[n]);
    assert right[i] == ZERO;
    PlusZero(left[i]);
  }

  lemma ProductStep(q: Poly, g: Poly)
    requires |g| > 0 && |q| > 0
    ensures var n := |q| - 1; Product(q, g) == Sum(Product(q[..n], g) + [ZERO], Zeros(n) + Scale(g, q[n]))
  {
  }

  /** A codeword evaluates to zero at every root of its generator. */
  lemma CodewordVanishes(n: nat, data: Poly, rem: Poly, quotient: Poly, k: nat)
    requires Divides(Generator(n), data, rem, quotient) && k < n
    ensures Eval(data + rem, Root(k)) == ZERO
  {
    hide Eval, Generator, Product, Times, Root, Plus;
    EvalProduct(quotient, Generator(n), Root(k));
    GeneratorRootsIff(n, Root(k));
    AmongThem(n, k);
    TimesUnits(Eval(quotient, Root(k)));
  }

  lemma AmongThem(n: nat, k: nat)
    requires k < n
    ensures AmongPowers(Root(k), n)
  {
    hide Root;
    assert IsPower(Root(k), k);
  }

  // --- the code -------------------------------------------------------------------------------------

  /** What TimesRoot puts at each place. */
  lemma TimesRootAt(p: Poly, a: Symbol, j: nat)
    requires j <= |p| && |p| > 0
    ensures TimesRoot(p, a)[j] == Plus(if j < |p| then p[j] else ZERO, if j > 0 then Times(p[j - 1], a) else ZERO)
  {
    hide Times, Plus;
  }

  /** generator_poly, growing the polynomial in place from the last coefficient down. */
  method GeneratorPoly(t: GaloisTables, n: nat) returns (poly: Poly)
    requires t.Valid() && n <= 512
    ensures poly == Generator(n)
  {
    hide Times, Plus, Root, Mul, Power, TimesRoot;
    GeneratorStep(0);
    poly := [ONE];
    for i := 0 to n
      invariant poly == Generator(i)
    {
      GeneratorStep(i + 1);
      var alpha := Symbol(t.exp[i]);
      assert alpha == Root(i) by {
        RootIs(i);
      }
      poly := MultiplyByRoot(t, poly, alpha);
    }
  }

  lemma RootIs(i: nat)
    ensures Root(i) == Symbol(Power(i))
  {
  }

  method MultiplyByRoot(t: GaloisTables, p: Poly, a: Symbol) returns (poly: Poly)
    requires t.Valid() && |p| > 0
    ensures poly == TimesRoot(p, a)
  {
    hide Times, Plus, Mul, Power, TimesRoot, GaloisTables.Valid;
    poly := p + [ZERO];
    var j := |poly| - 1;
    while j > 0
      invariant 0 <= j < |poly| == |p| + 1
      invariant forall k :: 0 <= k <= j ==> poly[k] == (p + [ZERO])[k]
      invariant forall k :: j < k < |poly| ==> poly[k] == TimesRoot(p, a)[k]
    {
      TimesRootAt(p, a, j);
      var product := MulSymbols(t, poly[j - 1], a);
      poly := poly[j := AddSymbols(poly[j], product)];
      j := j - 1;
    }
    TimesRootAt(p, a, 0);
    PlusZero(p[0]);
  }

  method MulSymbols(t: GaloisTables, a: Symbol, b: Symbol) returns (r: Symbol)
    requires t.Valid()
    ensures r == Times(a, b)
  {
    hide Mul, GaloisTables.Valid;
    var bits := t.Product(a.bits, b.bits);
    return Symbol(bits);
  }

  /** The exclusive or of the code. */
  function AddSymbols(a: Symbol, b: Symbol): (r: Symbol)
    ensures r == Plus(a, b)
  {
    Symbol(a.bits ^ b.bits)
  }

  /** One turn of the loop of qr_reed_solomon. */
  method ShiftRegister(t: GaloisTables, gen: Poly, rem: Poly, c: Symbol) returns (next: Poly)
    requires t.Valid() && |gen| == |rem| + 1 > 1
    ensures |next| == |rem|
    ensures forall i :: 0 <= i < |rem| ==> next[i] == Plus(if i + 1 < |rem| then rem[i + 1] else ZERO, Times(gen[i + 1], Plus(c, rem[0])))
  {
    hide Times, Plus, GaloisTables.Valid;
    var factor := AddSymbols(c, rem[0]);
    next := rem[1..] + [ZERO];
    ghost var shifted := next;
    for i := 0 to |next|
      invariant |next| == |rem|
      invariant forall k :: 0 <= k < i ==> next[k] == Plus(shifted[k], Times(gen[k + 1], factor))
      invariant forall k :: i <= k < |next| ==> next[k] == shifted[k]
    {
      var product := MulSymbols(t, gen[i + 1], factor);
      next := next[i := AddSymbols(next[i], product)];
    }
  }

  /** qr_reed_solomon: the remainder of the division by the generator, with the quotient it leaves behind. */
  method Remainder(t: GaloisTables, data: Poly, ecLen: int) returns (rem: Poly, ghost quotient: Poly)
    requires t.Valid() && ecLen <= 512
    ensures ecLen <= 0 ==> rem == []
    ensures ecLen > 0 ==> Divides(Generator(ecLen), data, rem, quotient)
  {
    if ecLen <= 0 {
      return [], [];
    }
    GeneratorMonic(ecLen);
    hide Times, Plus, Generator, GaloisTables.Valid, Divides;
    var gen := GeneratorPoly(t, ecLen);
    rem, quotient := Zeros(ecLen), [];
    NothingDivided(gen);
    for i := 0 to |data|
      invariant |rem| == ecLen && Divides(gen, data[..i], rem, quotient)
    {
      var next := ShiftRegister(t, gen, rem, data[i]);
      DivideStep(gen, data[..i], rem, quotient, data[i], next);
      assert data[..i + 1] == data[..i] + [data[i]];
      quotient := quotient + [Plus(data[i], rem[0])];
      rem := next;
    }
    assert data[..|data|] == data;
  }

  lemma NothingDivided(g: Poly)
    requires |g| > 0
    ensures Divides(g, [], Zeros(|g| - 1), [])
  {
    assert [] + Zeros(|g| - 1) == Zeros(|g| - 1);
  }
}
