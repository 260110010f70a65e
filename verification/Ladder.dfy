/** Scalar multiplication: the limb ladder refines the function X25519 of section 5 of RFC 7748. */
module MontgomeryLadder {
  import opened Arith
  import opened Bytes
  import opened Field25519
  import opened FieldUnits
  import opened X25519

  // --- powers ----------------------------------------------------------------------

  lemma MulModAssoc(x: int, y: int, z: int, m: int)
    requires m > 0
    ensures (((x * y) % m) * z) % m == (x * ((y * z) % m)) % m
  {
    ModMul(x * y, z, m);
    ModMul((x * y) % m, z, m);
    ModSmall((x * y) % m, m);
    ModMul(x, y * z, m);
    ModMul(x, (y * z) % m, m);
    ModSmall((y * z) % m, m);
    assert (x * y) * z == x * (y * z);
  }

  lemma PowPRange(x: int, e: nat)
    ensures 0 <= PowP(x, e) < P
  {
  }

  lemma {:induction false} PowPAdd(x: int, a: nat, b: nat)
    ensures PowP(x, a + b) == MulP(PowP(x, a), PowP(x, b))
  {
    if a == 0 {
      PowPRange(x, b);
      ModSmall(PowP(x, b), P);
    } else {
      PowPAdd(x, a - 1, b);
      MulModAssoc(x, PowP(x, a - 1), PowP(x, b), P);
    }
  }

  /** The exponent reached by the inversion chain once step a is done. */
  function ChainExponent(a: nat): nat
    requires a <= 254
    decreases 254 - a
  {
    if a == 254 then 1 else 2 * ChainExponent(a + 1) + (if a != 2 && a != 4 then 1 else 0)
  }

  lemma {:induction false} ChainPrefix(a: nat)
    requires 5 <= a <= 254
    ensures ChainExponent(a) == Pow2(255 - a) - 1
    decreases 254 - a
  {
    if a == 254 {
      assert Pow2(1) == 2;
    } else {
      ChainPrefix(a + 1);
    }
  }

  /** The chain ends at p - 2. */
  lemma ChainEnd()
    ensures ChainExponent(0) == P - 2
  {
    ChainPrefix(5);
    Pow2Add(125, 125);
    Pow125();
    assert ChainExponent(4) == 2 * ChainExponent(5);
    assert ChainExponent(3) == 2 * ChainExponent(4) + 1;
    assert ChainExponent(2) == 2 * ChainExponent(3);
    assert ChainExponent(1) == 2 * ChainExponent(2) + 1;
  }

  lemma Pow125()
    ensures Pow2(125) == 0x2000_0000_0000_0000_0000_0000_0000_0000
  {
    WordSize();
    assert 2 * (2 * (2 * Pow2(61))) == Pow2(64);
    Pow2Add(61, 64);
  }

  method FInverse(o: array<int64>, i: array<int64>)
    requires o.Length == 16 && i.Length == 16 && Reduced(i[..])
    modifies o
    ensures Reduced(o[..])
    ensures Fe(o[..]) == PowP(old(Fe(i[..])), P - 2)
    ensures if old(Fe(i[..])) == 0 then Fe(o[..]) == 0 else MulP(old(Fe(i[..])), Fe(o[..])) == 1
  {
    ghost var n0 := i[..];
    ghost var x := Fe(n0);
    var c := new int64[16];
    CopyLimbs(c, i);
    FirstPower(x);
    for a := 254 downto 0
      invariant i[..] == n0
      invariant Reduced(c[..])
      invariant Fe(c[..]) == PowP(x, ChainExponent(a))
    {
      ChainStep(c, i, a, x);
    }
    ChainEnd();
    PowerIsInverse(x);
    ModSmall(x, P);
    CopyLimbs(o, c);
  }

  method CopyLimbs(to: array<int64>, from: array<int64>)
    requires to.Length == from.Length == 16 && to != from
    modifies to
    ensures to[..] == from[..]
  {
    ghost var r := from[..];
    for a := 0 to 16
      invariant from[..] == r && to[..a] == r[..a]
    {
      to[a] := from[a];
      assert to[..a + 1] == to[..a] + [r[a]];
    }
    assert to[..] == r;
  }

  /** The body of the inversion loop. */
  method ChainStep(c: array<int64>, i: array<int64>, a: nat, ghost x: int)
    requires c != i && c.Length == 16 && i.Length == 16 && a < 254
    requires Reduced(c[..]) && Reduced(i[..])
    requires 0 <= x < P && Fe(i[..]) == x && Fe(c[..]) == PowP(x, ChainExponent(a + 1))
    modifies c
    ensures Reduced(c[..]) && Fe(c[..]) == PowP(x, ChainExponent(a))
  {
    ChainPower(x, a);
    FMul(c, c, c);
    if a != 2 && a != 4 {
      FMul(c, c, i);
    }
  }

  lemma ChainPower(x: int, a: nat)
    requires 0 <= x < P && a < 254
    ensures var y := PowP(x, ChainExponent(a + 1));
            PowP(x, ChainExponent(a)) == if a != 2 && a != 4 then MulP(MulP(y, y), x) else MulP(y, y)
  {
    var n := ChainExponent(a + 1);
    PowPAdd(x, n, n);
    FirstPower(x);
    PowPAdd(x, n + n, 1);
  }

  lemma FirstPower(x: int)
    requires 0 <= x < P
    ensures PowP(x, 1) == x
  {
    ModSmall(x, P);
    assert PowP(x, 1) == MulP(x, PowP(x, 0));
  }

  // --- the ladder of RFC 7748 --------------------------------------------------------

  datatype Ladder = Ladder(x2: int, z2: int, x3: int, z3: int)

  function SwapIf(b: int, s: Ladder): Ladder
  {
    if b == 1 then Ladder(s.x3, s.z3, s.x2, s.z2) else s
  }

  /** One differential addition and doubling, with the names of the RFC. */
  function DoubleAdd(x1: int, s: Ladder): Ladder
  {
    var A := AddP(s.x2, s.z2);
    var AA := MulP(A, A);
    var B := SubP(s.x2, s.z2);
    var BB := MulP(B, B);
    var E := SubP(AA, BB);
    var C := AddP(s.x3, s.z3);
    var D := SubP(s.x3, s.z3);
    var DA := MulP(D, A);
    var CB := MulP(C, B);
    var sum := AddP(DA, CB);
    var diff := SubP(DA, CB);
    Ladder(MulP(AA, BB), MulP(E, AddP(AA, MulP(121665, E))), MulP(sum, sum), MulP(x1, MulP(diff, diff)))
  }

  /** Bits t-1 down to 0 of the loop, with its lazily applied swap. */
  function Loop(k: nat, x1: int, s: Ladder, swap: int, t: nat): Ladder
    decreases t, k
  {
    if t == 0 then SwapIf(swap, s)
    else
      var kt := (k / Pow2(t - 1)) % 2;
      Loop(k, x1, DoubleAdd(x1, SwapIf(if swap != kt then 1 else 0, s)), kt, t - 1)
  }

  /** X25519(k, u), before its little-endian encoding. */
  function ScalarMult(k: seq<byte>, u: seq<byte>): int
    requires |k| == 32 && |u| == 32
  {
    var x1 := DecodeU(u) % P;
    var s := Loop(LE(ClampScalar(k)), x1, Ladder(1, 0, x1, 1), 0, 255);
    MulP(s.x2, PowP(s.z2, P - 2))
  }

  /** The field elements held by the four ladder registers. */
  ghost function Registers(a: array<int64>, b: array<int64>, c: array<int64>, d: array<int64>): Ladder
    reads a, b, c, d
  {
    Ladder(Fe(a[..]), Fe(c[..]), Fe(b[..]), Fe(d[..]))
  }

  ghost predicate AllReduced(a: array<int64>, b: array<int64>, c: array<int64>, d: array<int64>)
    reads a, b, c, d
  {
    Reduced(a[..]) && Reduced(b[..]) && Reduced(c[..]) && Reduced(d[..])
  }

  ghost predicate Distinct(a: array<int64>, b: array<int64>, c: array<int64>, d: array<int64>,
                           e: array<int64>, f: array<int64>)
  {
    && a != b && a != c && a != d && a != e && a != f && b != c && b != d && b != e && b != f
    && c != d && c != e && c != f && d != e && d != f && e != f
    && a.Length == b.Length == c.Length == d.Length == e.Length == f.Length == 16
  }

  /** The first half of a ladder step: DA, CB, AA and BB. */
  method Differences(a: array<int64>, b: array<int64>, c: array<int64>, d: array<int64>,
                     e: array<int64>, f: array<int64>)
    requires Distinct(a, b, c, d, e, f) && AllReduced(a, b, c, d)
    modifies a, b, c, d, e, f
    ensures Reduced(a[..]) && Reduced(c[..]) && Reduced(d[..]) && Reduced(f[..])
    ensures var s := old(Registers(a, b, c, d));
            var A, B, C, D := AddP(s.x2, s.z2), SubP(s.x2, s.z2), AddP(s.x3, s.z3), SubP(s.x3, s.z3);
            && Fe(d[..]) == MulP(A, A) && Fe(f[..]) == MulP(B, B)
            && Fe(a[..]) == MulP(C, B) && Fe(c[..]) == MulP(D, A)
  {
    FAdd(e, a, c);
    FSub(a, a, c);
    FAdd(c, b, d);
    FSub(b, b, d);
    FMul(d, e, e);
    FMul(f, a, a);
    FMul(a, c, a);
    FMul(c, b, e);
  }

  /** The second half: the four products of the step. */
  method Products(a: array<int64>, b: array<int64>, c: array<int64>, d: array<int64>,
                  e: array<int64>, f: array<int64>, x: array<int64>, k121665: array<int64>)
    requires Distinct(a, b, c, d, e, f)
    requires Reduced(a[..]) && Reduced(c[..]) && Reduced(d[..]) && Reduced(f[..])
    requires x.Length == 16 && Reduced(x[..]) && x !in {a, b, c, d, e, f}
    requires k121665.Length == 16 && Reduced(k121665[..]) && k121665 !in {a, b, c, d, e, f}
    modifies a, b, c, d, e, f
    ensures AllReduced(a, b, c, d)
    ensures var CB, DA, AA, BB := old(Fe(a[..])), old(Fe(c[..])), old(Fe(d[..])), old(Fe(f[..]));
            var E, x1, a24 := SubP(AA, BB), Fe(x[..]), Fe(k121665[..]);
            var sum, diff := AddP(CB, DA), SubP(CB, DA);
            && Fe(a[..]) == MulP(AA, BB)
            && Fe(c[..]) == MulP(E, AddP(MulP(E, a24), AA))
            && Fe(b[..]) == MulP(sum, sum)
            && Fe(d[..]) == MulP(MulP(diff, diff), x1)
  {
    ReducedFactor(x[..]);
    ReducedFactor(k121665[..]);
    FAdd(e, a, c);
    FSub(a, a, c);
    FMul(b, a, a);
    FSub(c, d, f);
    FMul(a, c, k121665);
    FAdd(a, a, d);
    FMul(c, c, a);
    FMul(a, d, f);
    FMul(d, b, x);
    FMul(b, e, e);
  }

  /** Swapping the difference or the order of factors changes nothing once squared. */
  lemma ProductsAreDoubleAdd(x1: int, s: Ladder)
    ensures var A, B, C, D := AddP(s.x2, s.z2), SubP(s.x2, s.z2), AddP(s.x3, s.z3), SubP(s.x3, s.z3);
            var AA, BB, CB, DA := MulP(A, A), MulP(B, B), MulP(C, B), MulP(D, A);
            var E, sum, diff := SubP(AA, BB), AddP(CB, DA), SubP(CB, DA);
            DoubleAdd(x1, s) == Ladder(MulP(AA, BB), MulP(E, AddP(MulP(E, 121665), AA)),
                                       MulP(sum, sum), MulP(MulP(diff, diff), x1))
  {
    var A, B, C, D := AddP(s.x2, s.z2), SubP(s.x2, s.z2), AddP(s.x3, s.z3), SubP(s.x3, s.z3);
    var CB, DA := MulP(C, B), MulP(D, A);
    SquareOfNegative(CB, DA, P);
    var diff := SubP(CB, DA);
    assert MulP(MulP(diff, diff), x1) == MulP(x1, MulP(diff, diff)) by {
      MulPCommutes(MulP(diff, diff), x1);
    }
    var E := SubP(MulP(A, A), MulP(B, B));
    MulPCommutes(E, 121665);
  }

  lemma MulPCommutes(x: int, y: int)
    ensures MulP(x, y) == MulP(y, x)
  {
    assert x * y == y * x;
  }

  lemma SquareOfNegative(x: int, y: int, m: int)
    requires m > 0
    ensures (((x - y) % m) * ((x - y) % m)) % m == (((y - x) % m) * ((y - x) % m)) % m
  {
    ModMul(x - y, x - y, m);
    ModMul(y - x, y - x, m);
    assert (x - y) * (x - y) == (y - x) * (y - x);
  }

  /** One iteration of the code: swap, step, swap back. */
  method LadderStep(a: array<int64>, b: array<int64>, c: array<int64>, d: array<int64>,
                    e: array<int64>, f: array<int64>, x: array<int64>, k121665: array<int64>, r: int64)
    requires r == 0 || r == 1
    requires Distinct(a, b, c, d, e, f) && AllReduced(a, b, c, d)
    requires x.Length == 16 && Reduced(x[..]) && x !in {a, b, c, d, e, f}
    requires k121665.Length == 16 && Reduced(k121665[..]) && k121665 !in {a, b, c, d, e, f}
    requires Fe(k121665[..]) == 121665
    modifies a, b, c, d, e, f
    ensures AllReduced(a, b, c, d)
    ensures Registers(a, b, c, d) ==
            SwapIf(r as int, DoubleAdd(Fe(x[..]), SwapIf(r as int, old(Registers(a, b, c, d)))))
  {
    Sel25519(a, b, r);
    Sel25519(c, d, r);
    ProductsAreDoubleAdd(Fe(x[..]), Registers(a, b, c, d));
    Differences(a, b, c, d, e, f);
    Products(a, b, c, d, e, f, x, k121665);
    Sel25519(a, b, r);
    Sel25519(c, d, r);
  }

  /** The lazy swap of the RFC and the eager double swap of the code meet at every bit. */
  lemma LoopUnroll(k: nat, x1: int, u: Ladder, swap: int, t: nat)
    requires t > 0 && (swap == 0 || swap == 1)
    ensures var kt := (k / Pow2(t - 1)) % 2;
            var v := SwapIf(kt, DoubleAdd(x1, SwapIf(kt, u)));
            Loop(k, x1, SwapIf(swap, u), swap, t) == Loop(k, x1, SwapIf(kt, v), kt, t - 1)
  {
    var kt := (k / Pow2(t - 1)) % 2;
    assert SwapIf(if swap != kt then 1 else 0, SwapIf(swap, u)) == SwapIf(kt, u);
  }

  lemma LoopEnd(k: nat, x1: int, u: Ladder, swap: int)
    ensures Loop(k, x1, SwapIf(swap, u), swap, 0) == u
  {
  }

  method Clamp(scalar: array<byte>) returns (z: array<byte>)
    requires scalar.Length == 32
    ensures fresh(z) && z.Length == 32 && z[..] == ClampScalar(scalar[..])
  {
    z := new byte[32];
    for i := 0 to 31
      invariant z[..i] == scalar[..i]
    {
      z[i] := scalar[i];
      assert z[..i + 1] == z[..i] + [scalar[i]];
    }
    assert forall i :: 0 <= i < 31 ==> z[i] == z[..31][i] == scalar[..31][i] == scalar[i];
    z[31] := Or8(And8(scalar[31], 127), 64);
    z[0] := And8(z[0], 248);
  }

  /** Bit i of the clamped scalar, as the loop extracts it. */
  method ScalarBit(z: array<byte>, i: nat) returns (r: int64)
    requires z.Length == 32 && i < 256
    ensures r == 0 || r == 1
    ensures r as int == (LE(z[..]) / Pow2(i)) % 2
  {
    LEBit(z[..], i);
    r := ((z[i / 8] as int / Pow2(i % 8)) % 2) as int64;  // (z[i >> 3] >> (i & 7)) & 1
  }

  /** Fresh registers holding a = 1, b = x, c = 0, d = 1. */
  method InitialRegisters(x: array<int64>)
    returns (a: array<int64>, b: array<int64>, c: array<int64>, d: array<int64>,
             e: array<int64>, f: array<int64>)
    requires x.Length == 16 && Digits(x[..])
    ensures fresh({a, b, c, d, e, f}) && Distinct(a, b, c, d, e, f)
    ensures AllReduced(a, b, c, d)
    ensures Registers(a, b, c, d) == Ladder(1, 0, Fe(x[..]), 1)
  {
    a, b, c, d := new int64[16](_ => 0), new int64[16], new int64[16](_ => 0), new int64[16](_ => 0);
    e, f := new int64[16], new int64[16];
    for i := 0 to 16
      invariant b[..i] == x[..i]
      invariant forall j :: 0 <= j < 16 ==> a[j] == c[j] == d[j] == 0
    {
      b[i] := x[i];
      assert b[..i + 1] == b[..i] + [x[i]];
    }
    assert b[..] == x[..];
    ValZero(c[..]);
    a[0] := 1;
    d[0] := 1;
    ValOne(a[..]);
    ValOne(d[..]);
  }

  lemma ValOne(s: seq<int64>)
    requires |s| == 16 && s[0] == 1 && forall i :: 1 <= i < 16 ==> s[i] == 0
    ensures Fe(s) == 1
  {
    ValZero(s[1..]);
    ModSmall(1, P);
  }

  method Constant121665(k: array<int64>)
    requires k.Length == 16 && forall i :: 0 <= i < 16 ==> k[i] == 0
    modifies k
    ensures Reduced(k[..]) && Fe(k[..]) == 121665
  {
    k[0] := 0xDB41;
    k[1] := 1;
    ghost var s := k[..];
    ValZero(s[1..][1..]);
    assert Val(s[1..]) == 1;
    ModSmall(121665, P);
  }

  /** The body of the scalar loop. */
  method Iterate(z: array<byte>, i: nat, a: array<int64>, b: array<int64>, c: array<int64>, d: array<int64>,
                 e: array<int64>, f: array<int64>, x: array<int64>, k121665: array<int64>, ghost swap: int)
    returns (ghost r: int)
    requires z.Length == 32 && i < 255 && (swap == 0 || swap == 1)
    requires Distinct(a, b, c, d, e, f) && AllReduced(a, b, c, d)
    requires x.Length == 16 && Reduced(x[..]) && x !in {a, b, c, d, e, f}
    requires k121665.Length == 16 && Reduced(k121665[..]) && k121665 !in {a, b, c, d, e, f}
    requires Fe(k121665[..]) == 121665
    modifies a, b, c, d, e, f
    ensures AllReduced(a, b, c, d) && (r == 0 || r == 1)
    ensures var k, x1 := LE(z[..]), Fe(x[..]);
            Loop(k, x1, SwapIf(r, Registers(a, b, c, d)), r, i)
            == Loop(k, x1, SwapIf(swap, old(Registers(a, b, c, d))), swap, i + 1)
  {
    var bit := ScalarBit(z, i);
    LoopUnroll(LE(z[..]), Fe(x[..]), Registers(a, b, c, d), swap, i + 1);
    LadderStep(a, b, c, d, e, f, x, k121665, bit);
    r := bit as int;
  }

  /** The 255 iterations; the registers a and c end with x_2 and z_2 of the RFC. */
  method RunLadder(z: array<byte>, a: array<int64>, b: array<int64>, c: array<int64>, d: array<int64>,
                   e: array<int64>, f: array<int64>, x: array<int64>, k121665: array<int64>)
    requires z.Length == 32
    requires Distinct(a, b, c, d, e, f) && AllReduced(a, b, c, d)
    requires x.Length == 16 && Reduced(x[..]) && x !in {a, b, c, d, e, f}
    requires k121665.Length == 16 && Reduced(k121665[..]) && k121665 !in {a, b, c, d, e, f}
    requires Fe(k121665[..]) == 121665
    modifies a, b, c, d, e, f
    ensures AllReduced(a, b, c, d)
    ensures Registers(a, b, c, d) == Loop(LE(z[..]), Fe(x[..]), old(Registers(a, b, c, d)), 0, 255)
  {
    ghost var k, x1, swap := LE(z[..]), Fe(x[..]), 0;
    ghost var goal := Loop(k, x1, Registers(a, b, c, d), 0, 255);
    for i := 255 downto 0
      invariant AllReduced(a, b, c, d)
      invariant swap == 0 || swap == 1
      invariant Loop(k, x1, SwapIf(swap, Registers(a, b, c, d)), swap, i) == goal
    {
      swap := Iterate(z, i, a, b, c, d, e, f, x, k121665, swap);
    }
    LoopEnd(k, x1, Registers(a, b, c, d), swap);
  }
}
