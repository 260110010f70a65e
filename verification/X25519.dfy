/** X25519 on limb arrays, and its refinement of section 5 of RFC 7748. */
module X25519 {
  import opened Arith
  import opened Bytes
  import opened Field25519
  import Bits

  // --- addition, subtraction ---------------------------------------------------

  lemma {:induction false} ValAdd(x: seq<int64>, y: seq<int64>, z: seq<int64>)
    requires |x| == |y| == |z|
    requires forall i :: 0 <= i < |z| ==> z[i] as int == x[i] as int + y[i] as int
    ensures Val(z) == Val(x) + Val(y)
  {
    if |z| > 0 {
      ValAdd(x[1..], y[1..], z[1..]);
    }
  }

  lemma ReducedFactor(s: seq<int64>)
    requires Reduced(s)
    ensures Limbs(s, MUL_LIMIT as int)
  {
  }

  method FAdd(o: array<int64>, a: array<int64>, b: array<int64>)
    requires o.Length == 16
    requires a.Length == 16 && Reduced(a[..]) && b.Length == 16 && Reduced(b[..])
    modifies o
    ensures Limbs(o[..], MUL_LIMIT as int)
    ensures Fe(o[..]) == AddP(old(Fe(a[..])), old(Fe(b[..])))
  {
    ghost var x, y := a[..], b[..];
    for i := 0 to 16
      invariant forall j :: i <= j < 16 ==> a[j] == x[j] && b[j] == y[j]
      invariant forall j :: 0 <= j < i ==> o[j] as int == x[j] as int + y[j] as int
    {
      o[i] := a[i] + b[i];
    }
    ValAdd(x, y, o[..]);
    ModAdd(Val(x), Val(y), P);
  }

  method FSub(o: array<int64>, a: array<int64>, b: array<int64>)
    requires o.Length == 16
    requires a.Length == 16 && Reduced(a[..]) && b.Length == 16 && Reduced(b[..])
    modifies o
    ensures Limbs(o[..], MUL_LIMIT as int)
    ensures Fe(o[..]) == SubP(old(Fe(a[..])), old(Fe(b[..])))
  {
    ghost var x, y := a[..], b[..];
    for i := 0 to 16
      invariant forall j :: i <= j < 16 ==> a[j] == x[j] && b[j] == y[j]
      invariant forall j :: 0 <= j < i ==> o[j] as int == x[j] as int - y[j] as int
    {
      o[i] := a[i] - b[i];
    }
    ValAdd(o[..], y, x);
    ModSub(Val(x), Val(y), P);
  }

  // --- conditional swap by mask ---------------------------------------------------

  const WORD: int := 0x1_0000_0000_0000_0000

  function ToWord(x: int64): (w: nat)
    ensures w < WORD
  {
    if x < 0 then x as int + WORD else x as int
  }

  function FromWord(w: nat): int64
    requires w < WORD
  {
    if w < 0x8000_0000_0000_0000 then w as int64 else (w - WORD) as int64
  }

  lemma WordSize()
    ensures Pow2(64) == WORD
  {
    assert Pow2(4) == 16;
    Pow2Add(4, 4);
    Pow2Add(8, 8);
    Pow2Add(16, 16);
    Pow2Add(32, 32);
  }

  function Xor64(x: int64, y: int64): int64
  {
    WordSize();
    Bits.XorBound(ToWord(x), ToWord(y), 64);
    FromWord(Bits.Xor(ToWord(x), ToWord(y)))
  }

  function And64(x: int64, y: int64): int64
  {
    Bits.AndBound(ToWord(x), ToWord(y));
    FromWord(Bits.And(ToWord(x), ToWord(y)))
  }

  /** The mask trick: all ones exchanges the two words, all zeros leaves them. */
  lemma MaskedSwap(p: int64, q: int64, b: int64)
    requires b == 0 || b == 1
    ensures var t := And64(-(b - 1) - 1, Xor64(p, q));
            Xor64(p, t) == (if b == 1 then q else p) && Xor64(q, t) == (if b == 1 then p else q)
  {
    var x, y := ToWord(p), ToWord(q);
    WordSize();
    Bits.XorBound(x, y, 64);
    if b == 1 {
      Bits.AndAllOnes(Bits.Xor(x, y), 64);
      Bits.XorCancels(x, y);
      Bits.XorCommutes(x, y);
      Bits.XorCancels(y, x);
    } else {
      Bits.XorZero(x);
      Bits.XorZero(y);
    }
  }

  method Sel25519(p: array<int64>, q: array<int64>, b: int64)
    requires p != q && p.Length == 16 && q.Length == 16 && (b == 0 || b == 1)
    modifies p, q
    ensures p[..] == old(if b == 1 then q[..] else p[..])
    ensures q[..] == old(if b == 1 then p[..] else q[..])
  {
    ghost var x, y := p[..], q[..];
    var mask := -(b - 1) - 1;  // ~(b - 1)
    for i := 0 to 16
      invariant forall j :: i <= j < 16 ==> p[j] == x[j] && q[j] == y[j]
      invariant forall j :: 0 <= j < i ==> p[j] == if b == 1 then y[j] else x[j]
      invariant forall j :: 0 <= j < i ==> q[j] == if b == 1 then x[j] else y[j]
    {
      var t := And64(mask, Xor64(p[i], q[i]));
      MaskedSwap(p[i], q[i], b);
      p[i] := Xor64(p[i], t);
      q[i] := Xor64(q[i], t);
    }
  }

  // --- canonical encoding ---------------------------------------------------------

  function PrimeLimb(i: int): int64
  {
    if i == 0 then 0xffed else if i < 15 then 0xffff else 0x7fff
  }

  ghost function PrimeLimbs(n: nat): seq<int64>
  {
    seq(n, i => PrimeLimb(i))
  }

  lemma {:induction false} PrimeTail(s: seq<int64>)
    requires 1 <= |s| <= 15
    requires s[|s| - 1] == 0x7fff && forall i :: 0 <= i < |s| - 1 ==> s[i] == 0xffff
    ensures Val(s) == 32768 * Weight(|s| - 1) - 1
  {
    if |s| == 1 {
      assert s[1..] == [];
    } else {
      PrimeTail(s[1..]);
    }
  }

  lemma PrimeValue(n: nat)
    requires n == 16
    ensures Val(PrimeLimbs(n)) == P
  {
    var s := PrimeLimbs(n);
    PrimeTail(s[1..]);
    Weight16();
    assert Weight(n) == 65536 * (65536 * Weight(n - 2));
  }

  /** m holds t - p with limbs 0..i-1 already brought into digit range. */
  ghost predicate Borrowing(t: seq<int64>, m: seq<int64>, i: nat)
    requires |t| == 16 && i < 16
  {
    && |m| == 16
    && (forall j :: 0 <= j < i ==> 0 <= m[j] < 65536)
    && -65536 <= m[i] < 65536
    && Val(m[..i + 1]) == Val(t[..i + 1]) - Val(PrimeLimbs(|t|)[..i + 1])
  }

  lemma BorrowStep(t: seq<int64>, m: seq<int64>, i: nat, low: int64, next: int64)
    requires |t| == 16 && Digits(t) && 1 <= i < 16 && Borrowing(t, m, i - 1)
    requires low == m[i - 1] % 65536
    requires next as int == t[i] as int - PrimeLimb(i) as int - ((m[i - 1] / 65536) % 2) as int
    ensures Borrowing(t, m[i := next][i - 1 := low], i)
  {
    var k := m[i - 1] / 65536;
    var n := m[i := next][i - 1 := low];
    PrefixAfterBorrow(m, i, low, next);
    ValSnoc(t, i);
    ValSnoc(PrimeLimbs(|t|), i);
    CarryIdentity(m[i - 1] as int, low as int, k as int, next as int, t[i] as int, PrimeLimb(i) as int, Weight(i - 1));
  }

  lemma PrefixAfterBorrow(m: seq<int64>, i: nat, low: int64, next: int64)
    requires 1 <= i < |m|
    ensures Val(m[i := next][i - 1 := low][..i + 1])
            == Val(m[..i]) + next as int * Weight(i) + (low as int - m[i - 1] as int) * Weight(i - 1)
  {
    var m1 := m[..i] + [next];
    ValSnoc(m1, i);
    assert m1[..i] == m[..i] && m1[..i + 1] == m1;
    ValUpdate(m1, i - 1, low);
    assert m[i := next][i - 1 := low][..i + 1] == m1[i - 1 := low];
  }

  lemma CarryIdentity(v: int, low: int, k: int, next: int, x: int, p: int, w: int)
    requires low == v - 65536 * k && next == x - p + k
    ensures next * (65536 * w) + (low - v) * w == x * (65536 * w) - p * (65536 * w)
  {
    assert (low - v) * w == -(k * (65536 * w));
    assert next * (65536 * w) == x * (65536 * w) - p * (65536 * w) + k * (65536 * w);
  }

  /** One round of the reduction: m := t - p; the result tells whether that was negative. */
  method SubtractPrime(t: array<int64>, m: array<int64>) returns (b: int64)
    requires t != m && t.Length == 16 && m.Length == 16 && Digits(t[..])
    modifies m
    ensures b == if Val(t[..]) < P then 1 else 0
    ensures b == 0 ==> Digits(m[..]) && Val(m[..]) == Val(t[..]) - P
  {
    m[0] := t[0] - 0xffed;
    FirstLimb(t[..], m[..]);
    for i := 1 to 15
      invariant Borrowing(t[..], m[..], i - 1)
    {
      ghost var n := m[..];
      m[i] := t[i] - 0xffff - ((m[i - 1] / 65536) % 2);  // (m >> 16) & 1
      m[i - 1] := m[i - 1] % 65536;                      // m & 0xffff
      assert m[..] == n[i := m[i]][i - 1 := m[i - 1]];
      BorrowStep(t[..], n, i, m[i - 1], m[i]);
    }
    ghost var n := m[..];
    m[15] := t[15] - 0x7fff - ((m[14] / 65536) % 2);
    b := (m[15] / 65536) % 2;
    m[14] := m[14] % 65536;
    assert m[..] == n[15 := m[15]][14 := m[14]];
    BorrowStep(t[..], n, 15, m[14], m[15]);
    BorrowValue(t[..], m[..]);
    SignOfTop(m[..]);
    SignBit(m[15]);
  }

  lemma FirstLimb(t: seq<int64>, m: seq<int64>)
    requires |t| == |m| == 16 && Digits(t) && m[0] == t[0] - 0xffed
    ensures Borrowing(t, m, 0)
  {
    ValSnoc(t, 0);
    ValSnoc(m, 0);
    ValSnoc(PrimeLimbs(|t|), 0);
    assert t[..0] == m[..0] == PrimeLimbs(|t|)[..0] == [];
  }

  lemma SignBit(x: int64)
    requires -65536 <= x < 65536
    ensures (x / 65536) % 2 == if x < 0 then 1 else 0
  {
  }

  lemma BorrowValue(t: seq<int64>, m: seq<int64>)
    requires |t| == 16 && Borrowing(t, m, 15)
    ensures Val(m) == Val(t) - P
  {
    PrimeValue(|t|);
    var p := PrimeLimbs(|t|);
    assert p[..15 + 1] == p;
    assert t[..15 + 1] == t;
    assert m[..15 + 1] == m;
  }

  /** The top limb alone carries the sign of the whole number. */
  lemma SignOfTop(m: seq<int64>)
    requires |m| == 16 && forall j :: 0 <= j < 15 ==> 0 <= m[j] < 65536
    ensures m[15] < 0 <==> Val(m) < 0
  {
    TopLimb(m, 15);
  }

  lemma TopLimb(m: seq<int64>, k: nat)
    requires |m| == k + 1 && forall j :: 0 <= j < k ==> 0 <= m[j] < 65536
    ensures m[k] < 0 <==> Val(m) < 0
  {
    ValSnoc(m, k);
    assert m[..k + 1] == m;
    DigitsBound(m[..k]);
    TopSign(m[k] as int, Val(m[..k]), Weight(k));
  }

  lemma TopSign(x: int, low: int, w: int)
    requires 0 <= low < w
    ensures x < 0 <==> low + x * w < 0
  {
    if x < 0 {
      MulMono(w, x, -1);
    } else {
      MulMono(w, 0, x);
    }
  }

  method Pack25519(o: array<byte>, n: array<int64>)
    requires o.Length == 32 && n.Length == 16 && Limbs(n[..], CARRY_LIMIT as int)
    modifies o
    ensures LE(o[..]) == Fe(n[..])
  {
    var m, t := new int64[16], new int64[16];
    for i := 0 to 16
      invariant t[..i] == n[..i]
    {
      t[i] := n[i];
      assert t[..i + 1] == t[..i] + [n[i]];
    }
    assert t[..] == n[..];
    NormaliseDigits(t);
    for j := 0 to 2
      invariant Digits(t[..]) && Fe(t[..]) == Fe(n[..])
      invariant j == 0 ==> Val(t[..]) < 2 * P + 38
      invariant j == 1 ==> Val(t[..]) < P + 38
      invariant 0 <= Val(t[..]) && (j == 2 ==> Val(t[..]) < P)
    {
      ReduceOnce(t, m);
    }
    ModSmall(Val(t[..]), P);
    StoreLimbs(o, t);
  }

  /** A round of the reduction loop: p is subtracted when that does not go below zero. */
  method ReduceOnce(t: array<int64>, m: array<int64>)
    requires t != m && t.Length == 16 && m.Length == 16 && Digits(t[..])
    modifies t, m
    ensures Digits(t[..]) && Fe(t[..]) == old(Fe(t[..]))
    ensures Val(t[..]) == old(if Val(t[..]) < P then Val(t[..]) else Val(t[..]) - P) >= 0
  {
    ghost var s := t[..];
    DigitsBound(s);
    var b := SubtractPrime(t, m);
    Sel25519(t, m, 1 - b);
    ModEqual(Val(s), Val(s) - P, 1, P);
  }

  /** The three carry passes of packing. */
  method NormaliseDigits(t: array<int64>)
    requires t.Length == 16 && Limbs(t[..], CARRY_LIMIT as int)
    modifies t
    ensures Digits(t[..]) && Fe(t[..]) == old(Fe(t[..]))
    ensures 0 <= Val(t[..]) < 2 * P + 38
  {
    CarryTwice(t);
    ghost var s := t[..];
    Car25519(t);
    ThirdPass(s, t[..]);
    DigitsBound(t[..]);
    Weight16();
  }

  lemma StoreStep(o: seq<byte>, s: seq<int64>, i: nat, lo: byte, hi: byte)
    requires i < |s| && |o| == 2 * i && LE(o) == Val(s[..i])
    requires 0 <= s[i] && s[i] as int == lo as int + 256 * hi as int
    ensures LE(o + [lo, hi]) == Val(s[..i + 1])
  {
    LEConcat(o, [lo, hi]);
    LETwo(lo, hi);
    ValSnoc(s, i);
    Pow256Weight(i);
    CommuteProduct(Weight(i), s[i] as int);
  }

  lemma LETwo(lo: byte, hi: byte)
    ensures LE([lo, hi]) == lo as int + 256 * hi as int
  {
    assert [lo, hi][1..] == [hi];
    LEOne(hi);
  }

  lemma CommuteProduct(x: int, y: int)
    ensures x * y == y * x
  {
  }

  lemma {:induction false} Pow256Weight(i: nat)
    ensures Pow256(2 * i) == Weight(i)
  {
    if i > 0 {
      Pow256Weight(i - 1);
      assert Pow256(2 * i) == 256 * (256 * Pow256(2 * i - 2));
    }
  }

  method StoreLimbs(o: array<byte>, t: array<int64>)
    requires o.Length == 32 && t.Length == 16 && Digits(t[..])
    modifies o
    ensures LE(o[..]) == Val(t[..])
  {
    ghost var s := t[..];
    for i := 0 to 16
      invariant t[..] == s
      invariant LE(o[..2 * i]) == Val(s[..i])
    {
      ghost var done := o[..2 * i];
      assert t[i] == s[i];
      o[2 * i] := (t[i] % 256) as byte;
      o[2 * i + 1] := (t[i] / 256) as byte;
      assert o[..2 * (i + 1)] == done + [o[2 * i], o[2 * i + 1]];
      StoreStep(done, s, i, o[2 * i], o[2 * i + 1]);
    }
    assert s[..16] == s && o[..32] == o[..];
  }

  // --- decoding ------------------------------------------------------------------

  /** decodeUCoordinate of RFC 7748 for 255 bits: the top bit is ignored. */
  function DecodeU(u: seq<byte>): nat
    requires |u| == 32
  {
    LE(u[31 := And8(u[31], 127)])
  }

  /** decodeScalar25519 of RFC 7748, before the little-endian reading. */
  function ClampScalar(k: seq<byte>): seq<byte>
    requires |k| == 32
  {
    k[0 := And8(k[0], 248)][31 := Or8(And8(k[31], 127), 64)]
  }

  method Unpack25519(o: array<int64>, n: array<byte>)
    requires o.Length == 16 && n.Length == 32
    modifies o
    ensures Digits(o[..]) && Val(o[..]) == DecodeU(n[..])
  {
    ghost var u := n[..];
    for i := 0 to 16
      invariant forall j :: 0 <= j < i ==> 0 <= o[j] < 65536
      invariant LE(u[..2 * i]) == Val(o[..i])
      invariant i == 16 ==> o[15] as int == u[30] as int + 256 * u[31] as int
    {
      ghost var done := o[..i];
      o[i] := n[2 * i] as int64 + n[2 * i + 1] as int64 * 256;
      assert o[..i] == done;
      assert u[..2 * (i + 1)] == u[..2 * i] + [u[2 * i], u[2 * i + 1]];
      StoreStep(u[..2 * i], o[..], i, u[2 * i], u[2 * i + 1]);
    }
    ghost var s := o[..];
    assert o[..16] == s && u[..32] == u;
    o[15] := And64(o[15], 0x7fff);
    MaskTop(s, u);
    assert o[..] == s[15 := And64(s[15], 0x7fff)];
  }

  lemma MaskTop(s: seq<int64>, u: seq<byte>)
    requires |s| == 16 && |u| == 32 && Digits(s) && Val(s) == LE(u)
    requires s[15] as int == u[30] as int + 256 * u[31] as int
    ensures 0 <= And64(s[15], 0x7fff) < 65536
    ensures Val(s[15 := And64(s[15], 0x7fff)]) == DecodeU(u)
  {
    MaskedLimb(s[15], u[30], u[31]);
    ValMaskTop(s, 15, And64(s[15], 0x7fff), u[31] as int / 128);
    LEMaskTop(u, 15, And8(u[31], 127), u[31] as int / 128);
  }

  lemma ValMaskTop(s: seq<int64>, k: nat, v: int64, top: int)
    requires k < |s| && v as int == s[k] as int - 32768 * top
    ensures Val(s[k := v]) == Val(s) - top * (32768 * Weight(k))
  {
    ValUpdate(s, k, v);
    ScaleOut(v as int - s[k] as int, 32768, top, Weight(k));
  }

  lemma LEMaskTop(u: seq<byte>, k: nat, v: byte, top: int)
    requires 2 * k + 1 < |u| && v as int == u[2 * k + 1] as int - 128 * top
    ensures LE(u[2 * k + 1 := v]) == LE(u) - top * (32768 * Weight(k))
  {
    LEUpdate(u, 2 * k + 1, v);
    Pow256Weight(k);
    ScaleOut(v as int - u[2 * k + 1] as int, 128, top, Pow256(2 * k + 1));
    ScaleAgain(top, Pow256(2 * k + 1), Weight(k));
  }

  lemma ScaleOut(d: int, b: int, top: int, w: int)
    requires d == -b * top
    ensures d * w == -(top * (b * w))
  {
  }

  lemma ScaleAgain(top: int, v: int, w: int)
    requires v == 256 * w
    ensures top * (128 * v) == top * (32768 * w)
  {
  }

  lemma MaskedLimb(x: int64, lo: byte, hi: byte)
    requires x as int == lo as int + 256 * hi as int
    ensures 0 <= And64(x, 0x7fff) < 65536
    ensures And64(x, 0x7fff) as int == x as int - 32768 * (hi as int / 128)
    ensures And8(hi, 127) as int == hi as int - 128 * (hi as int / 128)
  {
    var h, l := hi as int / 128, hi as int % 128;
    MaskConstants();
    Bits.AndLowMask(x as int, 15);
    Bits.AndLowMask(hi as int, 7);
    DivModUnique(x as int, 32768, h, lo as int + 256 * l);
  }

  lemma MaskConstants()
    ensures Pow2(7) == 128 && Pow2(15) == 32768
  {
    assert Pow2(7) == 128;
    assert Pow2(8) == 256;
    Pow2Add(7, 8);
  }

  lemma {:induction false} LEUpdate(s: seq<byte>, k: nat, v: byte)
    requires k < |s|
    ensures LE(s[k := v]) == LE(s) + (v as int - s[k] as int) * Pow256(k)
  {
    if k == 0 {
      assert s[k := v][1..] == s[1..];
    } else {
      assert s[k := v][1..] == s[1..][k - 1 := v];
      LEUpdate(s[1..], k - 1, v);
      var d := v as int - s[k] as int;
      assert d * Pow256(k) == 256 * (d * Pow256(k - 1));
    }
  }
}
