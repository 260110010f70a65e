/** The field GF(2^255 - 19) on sixteen signed 64-bit limbs of radix 2^16. */
module Field25519 {
  import opened Arith

  /** Machine integers: every `int64` expression carries an overflow obligation. */
  newtype int64 = x: int | -0x8000_0000_0000_0000 <= x < 0x8000_0000_0000_0000

  const P: int := 0x7fff_ffff_ffff_ffff_ffff_ffff_ffff_ffff_ffff_ffff_ffff_ffff_ffff_ffff_ffff_ffed
  const R256: int := 0x1_0000_0000_0000_0000_0000_0000_0000_0000_0000_0000_0000_0000_0000_0000_0000_0000

  /** Limbs that `Car25519` accepts. */
  const CARRY_LIMIT: int64 := 0x4000_0000_0000_0000
  /** Limbs that `FMul` accepts. */
  const MUL_LIMIT: int64 := 0x400_0000

  // --- the integer a limb vector stands for ---------------------------------

  function Weight(k: nat): (w: nat)
    ensures w > 0
  {
    if k == 0 then 1 else 65536 * Weight(k - 1)
  }

  function Val(s: seq<int64>): int
  {
    if |s| == 0 then 0 else s[0] as int + 65536 * Val(s[1..])
  }

  /** The field element a limb vector stands for. */
  function Fe(s: seq<int64>): int
  {
    Val(s) % P
  }

  function MulP(x: int, y: int): int { (x * y) % P }
  function AddP(x: int, y: int): int { (x + y) % P }
  function SubP(x: int, y: int): int { (x - y) % P }
  function PowP(x: int, e: nat): int { if e == 0 then 1 else MulP(x, PowP(x, e - 1)) }

  ghost predicate Limbs(s: seq<int64>, bound: int)
  {
    |s| == 16 && forall i :: 0 <= i < 16 ==> -bound <= s[i] as int <= bound
  }

  ghost predicate Digits(s: seq<int64>)
  {
    forall i :: 0 <= i < |s| ==> 0 <= s[i] < 65536
  }

  /** What every product leaves behind: digits, but for a few units of slack in limb 0. */
  ghost predicate Reduced(s: seq<int64>)
  {
    |s| == 16 && -38 <= s[0] <= 65573 && forall i :: 1 <= i < 16 ==> 0 <= s[i] < 65536
  }

  lemma {:induction false} WeightAdd(a: nat, b: nat)
    ensures Weight(a + b) == Weight(a) * Weight(b)
  {
    if a > 0 {
      WeightAdd(a - 1, b);
    }
  }

  lemma Weight16()
    ensures Weight(16) == R256
  {
    assert Weight(2) == 65536 * 65536;
    WeightAdd(2, 2);
    WeightAdd(4, 4);
    WeightAdd(8, 8);
  }

  lemma {:induction false} ValUpdate(s: seq<int64>, k: nat, v: int64)
    requires k < |s|
    ensures Val(s[k := v]) == Val(s) + (v as int - s[k] as int) * Weight(k)
  {
    if k == 0 {
      assert s[k := v][1..] == s[1..];
    } else {
      assert s[k := v][1..] == s[1..][k - 1 := v];
      ValUpdate(s[1..], k - 1, v);
      var d := v as int - s[k] as int;
      assert d * Weight(k) == 65536 * (d * Weight(k - 1));
    }
  }

  lemma {:induction false} ValSplit(s: seq<int64>, k: nat)
    requires k <= |s|
    ensures Val(s) == Val(s[..k]) + Weight(k) * Val(s[k..])
  {
    if k == 0 {
      assert s[0..] == s;
    } else {
      ValSplit(s[1..], k - 1);
      assert s[1..][..k - 1] == s[..k][1..];
      assert s[1..][k - 1..] == s[k..];
      ScaledLimb(Weight(k - 1), Val(s[k..]));
    }
  }

  lemma ScaledLimb(w: int, v: int)
    ensures (65536 * w) * v == 65536 * (w * v)
  {
  }

  lemma ValSnoc(s: seq<int64>, k: nat)
    requires k < |s|
    ensures Val(s[..k + 1]) == Val(s[..k]) + s[k] as int * Weight(k)
  {
    var t := s[..k + 1];
    ValSplit(t, k);
    assert t[..k] == s[..k];
    assert t[k..] == [s[k]];
    assert Val([s[k]]) == s[k] as int + 65536 * Val([s[k]][1..]);
  }

  lemma {:induction false} DigitsBound(s: seq<int64>)
    requires Digits(s)
    ensures 0 <= Val(s) < Weight(|s|)
  {
    if |s| > 0 {
      assert forall i :: 0 <= i < |s[1..]| ==> s[1..][i] == s[i + 1];
      DigitsBound(s[1..]);
    }
  }

  // --- carry propagation -----------------------------------------------------

  /** One carry pass: the digits of Val(s) mod 2^256, plus 38 for every multiple of 2^256 taken off. */
  ghost predicate Carried(s: seq<int64>, t: seq<int64>)
  {
    && |t| == 16
    && (forall i :: 1 <= i < 16 ==> 0 <= t[i] < 65536)
    && 0 <= t[0] as int - 38 * (Val(s) / R256) < 65536
    && Val(t) == Val(s) % R256 + 38 * (Val(s) / R256)
  }

  /** The state before limb i is processed. */
  ghost predicate Carrying(s0: seq<int64>, s: seq<int64>, i: nat)
  {
    && |s0| == |s| == 16 && i <= 16
    && (forall j :: 0 <= j < i && j < 16 && (j > 0 || i < 16) ==> 0 <= s[j] < 65536)
    && (forall j :: i < j < 16 ==> -CARRY_LIMIT <= s[j] <= CARRY_LIMIT)
    && (i < 16 ==> -CARRY_LIMIT - 0x8000_0000_0000 <= s[i] <= CARRY_LIMIT + 0x8000_0000_0000 && Val(s) == Val(s0))
    && (i == 16 ==> Carried(s0, s))
  }

  function CarryLimb(s: seq<int64>, i: nat): seq<int64>
    requires |s| == 16 && i < 16
    requires -CARRY_LIMIT - 0x8000_0000_0000 <= s[i] <= CARRY_LIMIT + 0x8000_0000_0000
    requires -CARRY_LIMIT <= s[(i + 1) % 16] <= CARRY_LIMIT
  {
    var k := s[i] / 65536;
    if i < 15 then s[i := s[i] - k * 65536][i + 1 := s[i + 1] + k]
    else s[15 := s[15] - k * 65536][0 := s[0] + 38 * k]
  }

  method Car25519(o: array<int64>)
    requires o.Length == 16 && Limbs(o[..], CARRY_LIMIT as int)
    modifies o
    ensures Carried(old(o[..]), o[..]) && Fe(o[..]) == old(Fe(o[..]))
  {
    ghost var s0 := o[..];
    for i := 0 to 16
      invariant Carrying(s0, o[..], i)
    {
      CarryStep(s0, o[..], i);
      PropagateLimb(o, i);
    }
    CarriedKeepsFe(s0, o[..]);
  }

  /** The body of the carry loop. */
  method PropagateLimb(o: array<int64>, i: nat)
    requires o.Length == 16 && i < 16
    requires -CARRY_LIMIT - 0x8000_0000_0000 <= o[i] <= CARRY_LIMIT + 0x8000_0000_0000
    requires -CARRY_LIMIT <= o[(i + 1) % 16] <= CARRY_LIMIT
    modifies o
    ensures o[..] == CarryLimb(old(o[..]), i)
  {
    o[i] := o[i] + 65536;
    var c := o[i] / 65536;
    var next := if i < 15 then i + 1 else 0;
    o[next] := o[next] + c - 1 + (if i == 15 then 37 * (c - 1) else 0);
    o[i] := o[i] - c * 65536;
  }

  lemma CarryStep(s0: seq<int64>, s: seq<int64>, i: nat)
    requires i < 16 && Carrying(s0, s, i)
    ensures -0x4000_8000_0000 <= s[i] / 65536 <= 0x4000_8000_0000
    ensures Carrying(s0, CarryLimb(s, i), i + 1)
  {
    if i < 15 {
      CarryUp(s, i);
    } else {
      CarryAround(s);
    }
  }

  lemma CarryUp(s: seq<int64>, i: nat)
    requires |s| == 16 && i < 15
    requires -CARRY_LIMIT - 0x8000_0000_0000 <= s[i] <= CARRY_LIMIT + 0x8000_0000_0000
    requires -CARRY_LIMIT <= s[i + 1] <= CARRY_LIMIT
    ensures Val(CarryLimb(s, i)) == Val(s)
  {
    var k := s[i] / 65536;
    MoveCarry(s, i, k, s[i] - k * 65536, s[i + 1] + k);
  }

  /** Moving k units of 65536 from limb i to limb i + 1 keeps the value. */
  lemma MoveCarry(s: seq<int64>, i: nat, k: int64, low: int64, high: int64)
    requires i + 1 < |s|
    requires low as int == s[i] as int - k as int * 65536 && high as int == s[i + 1] as int + k as int
    ensures Val(s[i := low][i + 1 := high]) == Val(s)
  {
    ValUpdate(s, i, low);
    ValUpdate(s[i := low], i + 1, high);
    CarryCancels(low as int - s[i] as int, k as int, Weight(i));
  }

  lemma CarryCancels(d: int, k: int, w: int)
    requires d == -65536 * k
    ensures d * w + k * (65536 * w) == 0
  {
  }

  lemma CarryAround(s: seq<int64>)
    requires |s| == 16 && -CARRY_LIMIT - 0x8000_0000_0000 <= s[15] <= CARRY_LIMIT + 0x8000_0000_0000
    requires forall j :: 0 <= j < 15 ==> 0 <= s[j] < 65536
    ensures Carried(s, CarryLimb(s, 15))
  {
    var k := s[15] / 65536;
    var t := s[15 := s[15] - k * 65536];
    TopCarry(s, k, t);
    ValUpdate(t, 0, s[0] + 38 * k);
  }

  lemma TopCarry(s: seq<int64>, k: int64, t: seq<int64>)
    requires |s| == 16 && k == s[15] / 65536
    requires forall j :: 0 <= j < 15 ==> 0 <= s[j] < 65536
    requires -CARRY_LIMIT - 0x8000_0000_0000 <= s[15] <= CARRY_LIMIT + 0x8000_0000_0000
    requires t == s[15 := s[15] - k * 65536]
    ensures Val(s) / R256 == k as int && Val(s) % R256 == Val(t)
  {
    assert 65536 * Weight(15) == R256 by {
      Weight16();
    }
    hide Val, Weight;
    var low := s[15] - k * 65536;
    TopLimb(s[15], k);
    ValUpdate(s, 15, low);
    CarryCancels(low as int - s[15] as int, k as int, Weight(15));
    DigitsBound(t);
    DivModUnique(Val(s), R256, k as int, Val(t));
  }

  lemma TopLimb(x: int64, k: int64)
    requires k == x / 65536 && -CARRY_LIMIT - 0x8000_0000_0000 <= x <= CARRY_LIMIT + 0x8000_0000_0000
    ensures 0 <= x - k * 65536 < 65536 && (x - k * 65536) as int - x as int == -65536 * k as int
  {
  }

  /** A carry pass does not change the field element, since 2^256 = 38 modulo p. */
  lemma CarriedKeepsFe(s: seq<int64>, t: seq<int64>)
    requires Carried(s, t)
    ensures Fe(t) == Fe(s)
  {
    var k := Val(s) / R256;
    assert Val(s) == k * R256 + Val(s) % R256;
    assert Val(s) == Val(t) + (2 * k) * P;
    ModEqual(Val(s), Val(t), 2 * k, P);
  }

  lemma ValHead(s: seq<int64>)
    requires |s| == 16 && forall i :: 1 <= i < 16 ==> 0 <= s[i] < 65536
    ensures s[0] as int <= Val(s) <= s[0] as int + R256 - 65536
  {
    assert forall i :: 0 <= i < |s[1..]| ==> s[1..][i] == s[i + 1];
    DigitsBound(s[1..]);
    Weight16();
    assert 65536 * Weight(15) == Weight(16);
  }

  lemma SecondPass(s: seq<int64>, t: seq<int64>)
    requires |s| == 16 && forall i :: 1 <= i < 16 ==> 0 <= s[i] < 65536
    requires -0x80_0000_0000_0000 <= s[0] <= 0x80_0000_0000_0000
    requires Carried(s, t)
    ensures Reduced(t)
  {
    ValHead(s);
    assert -1 <= Val(s) / R256 <= 1;
  }

  /** From a reduced vector one more pass gives true digits. */
  lemma ThirdPass(s: seq<int64>, t: seq<int64>)
    requires Reduced(s) && Carried(s, t)
    ensures Digits(t)
  {
    ValHead(s);
    var k := Val(s) / R256;
    assert -1 <= k <= 1;
    ValHead(t);
    if k == 1 {
      assert Val(t) <= 37 + 38;
      assert t[0] as int <= 75;
    } else if k == -1 {
      assert Val(t) >= R256 - 76;
      assert t[0] as int >= 65536 - 76;
    }
    assert 0 <= t[0] < 65536;
  }

  // --- multiplication ----------------------------------------------------------

  /** Rows 0..i-1 of the product are summed into t, and the first j terms of row i. */
  ghost predicate Summing(a: seq<int64>, b: seq<int64>, t: seq<int64>, i: nat, j: nat)
    requires |a| == |b| == 16 && i < 16 && j <= 16
  {
    && |t| == 31
    && (forall k :: 0 <= k < 31 ==> TermBound(t[k], if i <= k < i + j then i + 1 else i))
    && Val(t) == Val(a[..i]) * Val(b) + a[i] as int * Weight(i) * Val(b[..j])
  }

  ghost predicate TermBound(x: int64, terms: nat)
  {
    -(terms * 0x10_0000_0000_0000) <= x as int <= terms * 0x10_0000_0000_0000
  }

  lemma LimbProduct(x: int64, y: int64)
    requires -MUL_LIMIT <= x <= MUL_LIMIT && -MUL_LIMIT <= y <= MUL_LIMIT
    ensures -0x10_0000_0000_0000 <= x as int * y as int <= 0x10_0000_0000_0000
  {
    MulBounds(x as int, y as int, MUL_LIMIT as int, MUL_LIMIT as int);
  }

  lemma SumTerm(a: seq<int64>, b: seq<int64>, t: seq<int64>, i: nat, j: nat, v: int64)
    requires |a| == |b| == 16 && i < 16 && j < 16
    requires Summing(a, b, t, i, j)
    requires TermBound(v, i + 1) && v as int == t[i + j] as int + a[i] as int * b[j] as int
    ensures Summing(a, b, t[i + j := v], i, j + 1)
  {
    ValUpdate(t, i + j, v);
    ValSnoc(b, j);
    WeightAdd(i, j);
    TermIdentity(a[i] as int, b[j] as int, Weight(i), Weight(j), Val(b[..j]));
  }

  lemma TermIdentity(x: int, y: int, u: int, w: int, r: int)
    ensures x * u * r + x * y * (u * w) == x * u * (r + y * w)
  {
  }

  lemma NextRow(a: seq<int64>, b: seq<int64>, t: seq<int64>, i: nat)
    requires |a| == |b| == 16 && i < 16
    requires Summing(a, b, t, i, 16)
    ensures forall k :: 0 <= k < 31 ==> TermBound(t[k], i + 1)
    ensures Val(t) == Val(a[..i + 1]) * Val(b)
  {
    ValSnoc(a, i);
    assert b[..16] == b;
    RowIdentity(Val(a[..i]), a[i] as int, Weight(i), Val(b));
  }

  lemma RowIdentity(r: int, x: int, u: int, v: int)
    ensures r * v + x * u * v == (r + x * u) * v
  {
  }

  method Convolve(a: array<int64>, b: array<int64>) returns (t: array<int64>)
    requires a.Length == 16 && Limbs(a[..], MUL_LIMIT as int)
    requires b.Length == 16 && Limbs(b[..], MUL_LIMIT as int)
    ensures fresh(t) && t.Length == 31
    ensures forall k :: 0 <= k < 31 ==> TermBound(t[k], 16)
    ensures Val(t[..]) == Val(a[..]) * Val(b[..])
  {
    t := new int64[31](_ => 0);
    ghost var x, y := a[..], b[..];
    ValZero(t[..]);
    for i := 0 to 16
      invariant forall k :: 0 <= k < 31 ==> TermBound(t[k], i)
      invariant Val(t[..]) == Val(x[..i]) * Val(y)
    {
      for j := 0 to 16
        invariant Summing(x, y, t[..], i, j)
      {
        AddTerm(t, a, b, i, j);
      }
      NextRow(x, y, t[..], i);
    }
    assert x[..16] == x;
  }

  /** The body of the product loops. */
  method AddTerm(t: array<int64>, a: array<int64>, b: array<int64>, i: nat, j: nat)
    requires a.Length == 16 && Limbs(a[..], MUL_LIMIT as int)
    requires b.Length == 16 && Limbs(b[..], MUL_LIMIT as int)
    requires t != a && t != b && i < 16 && j < 16 && Summing(a[..], b[..], t[..], i, j)
    modifies t
    ensures Summing(a[..], b[..], t[..], i, j + 1)
  {
    LimbProduct(a[i], b[j]);
    assert TermBound(t[i + j], i);
    ghost var s := t[..];
    t[i + j] := t[i + j] + a[i] * b[j];
    assert t[..] == s[i + j := t[i + j]];
    SumTerm(a[..], b[..], s, i, j, t[i + j]);
  }

  lemma {:induction false} ValZero(s: seq<int64>)
    requires forall k :: 0 <= k < |s| ==> s[k] == 0
    ensures Val(s) == 0
  {
    if |s| > 0 {
      ValZero(s[1..]);
    }
  }

  /** Limbs 16.. weigh 2^256 = 38 times their weight as limbs 0... */
  ghost predicate Folding(s: seq<int64>, t: seq<int64>, i: nat)
    requires |s| == 31 && i <= 15
  {
    && |t| == 31 && t[16..] == s[16..]
    && (forall k :: i <= k < 16 ==> t[k] == s[k])
    && (forall k :: 0 <= k < i ==> t[k] as int == s[k] as int + 38 * s[k + 16] as int)
    && Val(t[..16]) == Val(s[..16]) + 38 * Val(s[16..16 + i])
  }

  lemma FoldStep(s: seq<int64>, t: seq<int64>, i: nat, v: int64)
    requires |s| == 31 && i < 15 && Folding(s, t, i)
    requires v as int == s[i] as int + 38 * s[i + 16] as int
    ensures Folding(s, t[i := v], i + 1)
  {
    ValUpdate(t[..16], i, v);
    assert t[i := v][..16] == t[..16][i := v];
    var h := s[16..];
    ValSnoc(h, i);
    assert h[..i + 1] == s[16..16 + (i + 1)] && h[..i] == s[16..16 + i];
    FoldIdentity(v as int - s[i] as int, s[i + 16] as int, Weight(i));
    assert t[i := v][16..] == t[16..];
  }

  lemma FoldIdentity(d: int, x: int, w: int)
    requires d == 38 * x
    ensures d * w == 38 * (x * w)
  {
  }

  method Fold(t: array<int64>)
    requires t.Length == 31 && forall k :: 0 <= k < 31 ==> TermBound(t[k], 16)
    modifies t
    ensures Limbs(t[..16], CARRY_LIMIT as int)
    ensures Fe(t[..16]) == old(Fe(t[..]))
  {
    ghost var s := t[..];
    assert s[16..16] == [];
    for i := 0 to 15
      invariant Folding(s, t[..], i)
    {
      ghost var u := t[..];
      assert u[i] == s[i] && u[i + 16] == s[i + 16] by {
        assert u[16..][i] == s[16..][i];
      }
      assert TermBound(s[i], 16) && TermBound(s[i + 16], 16);
      t[i] := t[i] + 38 * t[i + 16];
      assert t[..] == u[i := t[i]];
      FoldStep(s, u, i, t[i]);
    }
    FoldBound(s, t[..]);
    FoldKeepsFe(s, t[..]);
    assert t[..][..16] == t[..16];
  }

  lemma FoldBound(s: seq<int64>, t: seq<int64>)
    requires |s| == 31 && Folding(s, t, 15) && forall k :: 0 <= k < 31 ==> TermBound(s[k], 16)
    ensures Limbs(t[..16], CARRY_LIMIT as int)
  {
    forall k | 0 <= k < 16
      ensures -(CARRY_LIMIT as int) <= t[k] as int <= CARRY_LIMIT as int
    {
      assert TermBound(s[k], 16);
      if k < 15 {
        assert TermBound(s[k + 16], 16);
      }
    }
  }

  lemma FoldKeepsFe(s: seq<int64>, t: seq<int64>)
    requires |s| == 31 && Folding(s, t, 15)
    ensures Fe(t[..16]) == Fe(s)
  {
    ValSplit(s, 16);
    Weight16();
    var h := Val(s[16..]);
    assert s[16..31] == s[16..];
    assert Val(s) == Val(t[..16]) + (2 * h) * P;
    ModEqual(Val(s), Val(t[..16]), 2 * h, P);
  }

  /** The two passes after a product. */
  method CarryTwice(o: array<int64>)
    requires o.Length == 16 && Limbs(o[..], CARRY_LIMIT as int)
    modifies o
    ensures Reduced(o[..]) && Fe(o[..]) == old(Fe(o[..]))
  {
    ghost var s := o[..];
    Car25519(o);
    ghost var t := o[..];
    FirstPass(s, t);
    Car25519(o);
    SecondPass(t, o[..]);
  }

  lemma FirstPass(s: seq<int64>, t: seq<int64>)
    requires Limbs(s, CARRY_LIMIT as int) && Carried(s, t)
    ensures Limbs(t, 0x80_0000_0000_0000)
  {
    LimbsBound(s, CARRY_LIMIT as int);
    Weight16();
    assert -0x8000_0000_0000 <= Val(s) / R256 <= 0x8000_0000_0000;
  }

  lemma {:induction false} LimbsBound(s: seq<int64>, bound: int)
    requires bound >= 0 && forall i :: 0 <= i < |s| ==> -bound <= s[i] as int <= bound
    ensures -(bound * (Weight(|s|) - 1)) <= 65535 * Val(s) <= bound * (Weight(|s|) - 1)
  {
    if |s| > 0 {
      LimbsBound(s[1..], bound);
      WeightedBound(s[0] as int, Val(s[1..]), bound, Weight(|s| - 1));
    }
  }

  lemma WeightedBound(x: int, v: int, bound: int, w: int)
    requires -bound <= x <= bound
    requires -(bound * (w - 1)) <= 65535 * v <= bound * (w - 1)
    ensures -(bound * (65536 * w - 1)) <= 65535 * (x + 65536 * v) <= bound * (65536 * w - 1)
  {
    assert bound * (65536 * w - 1) == 65536 * (bound * (w - 1)) + 65535 * bound;
  }

  method FMul(o: array<int64>, a: array<int64>, b: array<int64>)
    requires o.Length == 16
    requires a.Length == 16 && Limbs(a[..], MUL_LIMIT as int)
    requires b.Length == 16 && Limbs(b[..], MUL_LIMIT as int)
    modifies o
    ensures Reduced(o[..])
    ensures Fe(o[..]) == MulP(old(Fe(a[..])), old(Fe(b[..])))
  {
    ghost var x, y := a[..], b[..];
    var t := Convolve(a, b);
    ModMul(Val(x), Val(y), P);
    Fold(t);
    ghost var u := t[..16];
    for i := 0 to 16
      invariant t[..16] == u
      invariant o[..i] == u[..i]
    {
      o[i] := t[i];
      assert o[..i + 1] == o[..i] + [u[i]];
    }
    assert o[..] == u;
    CarryTwice(o);
  }
}
