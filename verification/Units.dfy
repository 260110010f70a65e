/** Every non-zero element modulo 2^255 - 19 has an inverse, its power by p - 2, because the modulus is prime. */
module FieldUnits {
  import opened Arith
  import opened Field25519
  import Certificate
  import Primes

  lemma {:induction false} PowPIsPow(x: int, e: nat)
    ensures e > 0 ==> PowP(x, e) == Primes.Pow(x, e) % P
    ensures PowP(x, e) % P == Primes.Pow(x, e) % P
  {
    if e > 0 {
      PowPIsPow(x, e - 1);
      ModMul(x, PowP(x, e - 1), P);
      ModMul(x, Primes.Pow(x, e - 1), P);
      ModSmall(MulP(x, PowP(x, e - 1)), P);
    }
  }

  /** Fermat's theorem, modulo 2^255 - 19. */
  lemma UnitPower(x: nat)
    requires x % P != 0
    ensures PowP(x, P - 1) == 1
  {
    hide Primes.IsPrime, PowP, Primes.Pow;
    Certificate.PrimeP();
    Primes.Fermat(x, P);
    PowPIsPow(x, P - 1);
  }

  /** The power by p - 2 is the inverse. */
  lemma PowerInverts(x: nat)
    requires x % P != 0
    ensures MulP(x, PowP(x, P - 2)) == 1
  {
    UnitPower(x);
    PowPStep(x, P - 1);
  }

  lemma PowPStep(x: int, e: nat)
    requires e > 0
    ensures PowP(x, e) == MulP(x, PowP(x, e - 1))
  {
  }

  lemma PowerOfZero(x: int, e: nat)
    requires x % P == 0 && e > 0
    ensures PowP(x, e) == 0
  {
    PowPStep(x, e);
    ModMul(x, PowP(x, e - 1), P);
    ModSmall(0, P);
  }

  lemma ProductIsZero(x: nat, y: int)
    requires MulP(x, y) == 0 && x % P != 0
    ensures y % P == 0
  {
    hide Primes.IsPrime;
    Certificate.PrimeP();
    Primes.PrimeDivides(P, x, y);
  }

  /** What the chain of squarings and products is for. */
  lemma PowerIsInverse(x: nat)
    ensures x % P == 0 ==> PowP(x, P - 2) == 0
    ensures x % P != 0 ==> MulP(x, PowP(x, P - 2)) == 1
  {
    if x % P == 0 {
      PowerOfZero(x, P - 2);
    } else {
      PowerInverts(x);
    }
  }
}
