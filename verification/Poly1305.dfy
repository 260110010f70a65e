/** Poly1305 on five 26-bit limbs, and its refinement of section 2.5 of RFC 8439. */
module Poly1305 {
  import opened Arith
  import opened Bytes
  import opened Words
  import Bits
  import Primes

  // --- the specification -----------------------------------------------------------

  const P1305: int := 0x3_ffff_ffff_ffff_ffff_ffff_ffff_ffff_fffb
  const TWO128: int := 0x1_0000_0000_0000_0000_0000_0000_0000_0000

  /** The bytes of r after clamping (section 2.5 of RFC 8439). */
  function ClampByte(i: int, b: byte): byte
  {
    if i == 3 || i == 7 || i == 11 || i == 15 then And8(b, 15)
    else if i == 4 || i == 8 || i == 12 then And8(b, 252)
    else b
  }

  function Clamp(k: seq<byte>): seq<byte>
    requires |k| == 16
  {
    seq(16, i requires 0 <= i < 16 => ClampByte(i, k[i]))
  }

  /** One block read as a number, with a one appended after its last byte. */
  function BlockNumber(b: seq<byte>): nat
  {
    LE(b) + Pow256(|b|)
  }

  function MulAdd(r: nat, acc: nat, n: nat): nat
  {
    ((acc + n) * r) % P1305
  }

  /** One block of the accumulator; a padded block already holds its final one. */
  function AddAndMultiply(r: nat, padded: bool, acc: nat, block: seq<byte>): nat
  {
    MulAdd(r, acc, if padded then LE(block) else BlockNumber(block))
  }

  function Step(r: nat, padded: bool): (nat, seq<byte>) -> nat
  {
    (acc: nat, block: seq<byte>) => AddAndMultiply(r, padded, acc, block)
  }

  /** Folds f over the 16-byte blocks of msg; the last block may be shorter. */
  function Fold(f: (nat, seq<byte>) -> nat, acc: nat, msg: seq<byte>): nat
    decreases |msg|, acc
  {
    if |msg| == 0 then acc
    else if |msg| < 16 then f(acc, msg)
    else Fold(f, f(acc, msg[..16]), msg[16..])
  }

  function Absorb(r: nat, acc: nat, msg: seq<byte>): nat
  {
    Fold(Step(r, false), acc, msg)
  }

  function Tag(key: seq<byte>, msg: seq<byte>): nat
    requires |key| == 32
  {
    (Absorb(LE(Clamp(key[..16])), 0, msg) + LE(key[16..])) % TWO128
  }

  // --- the same, said otherwise -------------------------------------------------------------

  function AndBytes(s: seq<byte>, t: seq<byte>): (r: seq<byte>)
    requires |s| == |t|
    ensures |r| == |s|
  {
    seq(|s|, i requires 0 <= i < |s| => And8(s[i], t[i]))
  }

  lemma {:induction false} AndBytesIsAnd(s: seq<byte>, t: seq<byte>)
    requires |s| == |t|
    ensures LE(AndBytes(s, t)) == Bits.And(LE(s), LE(t))
  {
    hide Bits.And;
    if |s| == 0 {
      Bits.AndBound(0, 0);
    } else {
      AndBytesIsAnd(s[1..], t[1..]);
      assert AndBytes(s, t)[1..] == AndBytes(s[1..], t[1..]);
      assert Pow2(8) == 256;
      Bits.AndSplit(LE(s[1..]), s[0] as int, LE(t[1..]), t[0] as int, 8);
    }
  }

  const CLAMP_MASK: seq<byte> := [255, 255, 255, 15, 252, 255, 255, 15, 252, 255, 255, 15, 252, 255, 255, 15]

  /** Clamping is the mask of section 2.5.1 of RFC 8439. */
  lemma ClampIsMask(k: seq<byte>)
    requires |k| == 16
    ensures LE(Clamp(k)) == Bits.And(LE(k), 0x0fff_fffc_0fff_fffc_0fff_fffc_0fff_ffff)
  {
    hide Clamp, AndBytes, Bits.And, LE;
    ClampIsBytewise(k);
    AndBytesIsAnd(k, CLAMP_MASK);
    MaskNumber();
  }

  lemma ClampIsBytewise(k: seq<byte>)
    requires |k| == 16
    ensures Clamp(k) == AndBytes(k, CLAMP_MASK)
  {
    hide And8, Bits.And, LE;
    forall i | 0 <= i < 16
      ensures Clamp(k)[i] == AndBytes(k, CLAMP_MASK)[i]
    {
      AllOnes(k[i]);
      MaskAt(i);
    }
  }

  lemma AllOnes(b: byte)
    ensures And8(b, 255) == b
  {
    assert Pow2(8) == 256;
    Bits.AndCommutes(b as int, 255);
    Bits.AndAllOnes(b as int, 8);
  }

  lemma MaskAt(i: nat)
    requires i < 16
    ensures CLAMP_MASK[i] == if i in {3, 7, 11, 15} then 15 else if i in {4, 8, 12} then 252 else 255
  {
  }

  lemma MaskNumber()
    ensures LE(CLAMP_MASK) == 0x0fff_fffc_0fff_fffc_0fff_fffc_0fff_ffff
  {
    hide LE, Pow256;
    var v: seq<byte>, w: seq<byte> := [255, 255, 255, 15], [252, 255, 255, 15];
    assert CLAMP_MASK == v + (w + (w + w));
    FourJoined(v, w + (w + w));
    FourJoined(w, w + w);
    FourJoined(w, w);
    FourBytes(255, 255, 255, 15);
    FourBytes(252, 255, 255, 15);
  }

  lemma FourJoined(s: seq<byte>, t: seq<byte>)
    requires |s| == 4
    ensures LE(s + t) == LE(s) + 0x1_0000_0000 * LE(t)
  {
    hide LE;
    LEConcat(s, t);
    assert Pow256(4) == 0x1_0000_0000;
  }

  lemma FourBytes(a: byte, b: byte, c: byte, d: byte)
    ensures LE([a, b, c, d]) == a as int + 256 * (b as int + 256 * (c as int + 256 * d as int))
  {
    assert [d][1..] == [] && [c, d][1..] == [d] && [b, c, d][1..] == [c, d] && [a, b, c, d][1..] == [b, c, d];
    assert LE([d]) == d as int;
    assert LE([c, d]) == c as int + 256 * LE([d]);
    assert LE([b, c, d]) == b as int + 256 * LE([c, d]);
    assert LE([a, b, c, d]) == a as int + 256 * LE([b, c, d]);
  }

  /** The numbers of the blocks of a message. */
  function Coefficients(msg: seq<byte>): seq<nat>
    decreases |msg|
  {
    if |msg| == 0 then [] else if |msg| < 16 then [BlockNumber(msg)] else [BlockNumber(msg[..16])] + Coefficients(msg[16..])
  }

  /** c_1 r^n + c_2 r^(n-1) + ... + c_n r. */
  function Polynomial(r: nat, cs: seq<nat>): nat
  {
    if |cs| == 0 then 0
    else
      PowerPositive(r, |cs|);
      cs[0] * Primes.Pow(r, |cs|) + Polynomial(r, cs[1..])
  }

  lemma {:induction false} PowerPositive(r: nat, n: nat)
    ensures Primes.Pow(r, n) >= 0
  {
    if n > 0 {
      PowerPositive(r, n - 1);
    }
  }

  /** The accumulator is the polynomial in r whose coefficients are the blocks. */
  lemma {:induction false} AbsorbIsPolynomial(r: nat, acc: nat, msg: seq<byte>)
    ensures Absorb(r, acc, msg) % P1305 == (acc * Primes.Pow(r, |Coefficients(msg)|) + Polynomial(r, Coefficients(msg))) % P1305
    ensures |msg| > 0 ==> Absorb(r, acc, msg) < P1305
    decreases |msg|
  {
    hide BlockNumber, Primes.Pow;
    var cs := Coefficients(msg);
    PowerOfNone(r);
    if |msg| > 0 {
      var c := cs[0];
      var next := MulAdd(r, acc, c);
      HornerStep(r, acc, c, Primes.Pow(r, |cs| - 1), next, Polynomial(r, cs[1..]), P1305);
      PowerStep(r, |cs|);
      if |msg| < 16 {
        assert Absorb(r, acc, msg) == next && cs[1..] == [];
        assert Polynomial(r, []) == 0;
      } else {
        assert cs[1..] == Coefficients(msg[16..]);
        AbsorbIsPolynomial(r, next, msg[16..]);
        assert Absorb(r, acc, msg) == Absorb(r, next, msg[16..]);
      }
    }
  }

  lemma PowerOfNone(r: nat)
    ensures Primes.Pow(r, 0) == 1
  {
  }

  lemma PowerStep(r: nat, n: nat)
    requires n > 0
    ensures Primes.Pow(r, n) == r * Primes.Pow(r, n - 1)
  {
  }

  lemma HornerStep(r: nat, acc: nat, c: nat, w: int, next: nat, rest: int, m: nat)
    requires m > 0 && next == ((acc + c) * r) % m
    ensures (next * w + rest) % m == (acc * (r * w) + (c * (r * w) + rest)) % m
  {
    var x := (acc + c) * r;
    RestAdded(x, next, w, rest, m);
    assert x * w == (acc + c) * (r * w) by {
      MulAssoc(acc + c, r, w);
    }
    assert (acc + c) * (r * w) == acc * (r * w) + c * (r * w) by {
      Distribute(r * w, acc, c);
    }
  }

  lemma RestAdded(x: int, next: int, w: int, rest: int, m: nat)
    requires m > 0 && next == x % m
    ensures (next * w + rest) % m == (x * w + rest) % m
  {
    var u, v := next * w, x * w;
    assert u % m == v % m by {
      ModMul(x, w, m);
      ModMul(next, w, m);
      ModTwice(x, m);
    }
    ModAdd(u, rest, m);
    ModAdd(v, rest, m);
  }

  /** The tag is that polynomial, with the coefficients of the message, plus s, modulo 2^128. */
  lemma TagIsPolynomial(key: seq<byte>, msg: seq<byte>)
    requires |key| == 32
    ensures var acc := Absorb(LE(Clamp(key[..16])), 0, msg);
            Tag(key, msg) == (acc + LE(key[16..])) % TWO128 && acc == Polynomial(LE(Clamp(key[..16])), Coefficients(msg)) % P1305
  {
    hide Absorb, Polynomial, Coefficients, Clamp, LE;
    var r := LE(Clamp(key[..16]));
    AbsorbIsPolynomial(r, 0, msg);
    if |msg| == 0 {
      EmptyTag(r, msg);
    } else {
      ModSmall(Absorb(r, 0, msg), P1305);
    }
  }

  lemma EmptyTag(r: nat, msg: seq<byte>)
    requires |msg| == 0
    ensures Absorb(r, 0, msg) == 0 && Polynomial(r, Coefficients(msg)) == 0
  {
  }

  lemma FoldBlock(f: (nat, seq<byte>) -> nat, acc: nat, a: seq<byte>, b: seq<byte>)
    requires |a| == 16
    ensures Fold(f, acc, a + b) == Fold(f, f(acc, a), b)
  {
    assert (a + b)[..16] == a && (a + b)[16..] == b;
  }

  /** Whole blocks may be absorbed first. */
  lemma {:induction false} FoldConcat(f: (nat, seq<byte>) -> nat, acc: nat, a: seq<byte>, b: seq<byte>, k: nat)
    requires |a| == 16 * k
    ensures Fold(f, acc, a + b) == Fold(f, Fold(f, acc, a), b)
    decreases k
  {
    if k == 0 {
      assert a + b == b;
    } else {
      var c, d := a[..16], a[16..];
      assert a == c + d && a + b == c + (d + b);
      FoldBlock(f, acc, c, d);
      FoldBlock(f, acc, c, d + b);
      FoldConcat(f, f(acc, c), d, b, k - 1);
    }
  }

  // --- limbs ------------------------------------------------------------------------

  const B: int := 0x400_0000
  const B2: int := 0x10_0000_0000_0000
  const B3: int := 0x4000_0000_0000_0000_0000
  const B4: int := 0x100_0000_0000_0000_0000_0000_0000

  function V5(x0: int, x1: int, x2: int, x3: int, x4: int): int
  {
    x0 + B * x1 + B2 * x2 + B3 * x3 + B4 * x4
  }

  function Load32(m: seq<byte>, i: nat): uint32
    requires i + 4 <= |m|
  {
    m[i] as uint32 + 256 * m[i + 1] as uint32 + 65536 * m[i + 2] as uint32 + 16777216 * m[i + 3] as uint32
  }

  /** The five limbs of sixteen bytes, spelled out byte by byte. */
  function Limb(m: seq<byte>, k: int): int
    requires |m| == 16
  {
    if k == 0 then m[0] as int + 256 * m[1] as int + 65536 * m[2] as int + 16777216 * (m[3] as int % 4)
    else if k == 1 then m[3] as int / 4 + 64 * m[4] as int + 16384 * m[5] as int + 4194304 * (m[6] as int % 16)
    else if k == 2 then m[6] as int / 16 + 16 * m[7] as int + 4096 * m[8] as int + 1048576 * (m[9] as int % 64)
    else if k == 3 then m[9] as int / 64 + 4 * m[10] as int + 1024 * m[11] as int + 262144 * m[12] as int
    else m[13] as int + 256 * m[14] as int + 65536 * m[15] as int
  }

  lemma LE4(m: seq<byte>, i: nat)
    requires i + 4 <= |m|
    ensures LE(m[i..]) == Load32(m, i) as int + TWO32 * LE(m[i + 4..])
  {
    LEFirst(m, i);
    LEFirst(m, i + 1);
    LEFirst(m, i + 2);
    LEFirst(m, i + 3);
  }

  lemma LEFirst(m: seq<byte>, i: nat)
    requires i < |m|
    ensures LE(m[i..]) == m[i] as int + 256 * LE(m[i + 1..])
  {
    assert m[i..][1..] == m[i + 1..];
  }

  lemma LE16(m: seq<byte>)
    requires |m| == 16
    ensures LE(m) == Load32(m, 0) as int + TWO32 * Load32(m, 4) as int
                     + TWO32 * TWO32 * Load32(m, 8) as int + TWO32 * TWO32 * TWO32 * Load32(m, 12) as int
  {
    assert m[0..] == m && m[16..] == [];
    LE4(m, 0);
    LE4(m, 4);
    LE4(m, 8);
    LE4(m, 12);
  }

  lemma LimbsOfBytes(m: seq<byte>)
    requires |m| == 16
    ensures V5(Limb(m, 0), Limb(m, 1), Limb(m, 2), Limb(m, 3), Limb(m, 4)) == LE(m)
  {
    LE16(m);
  }

  lemma LimbBounds(m: seq<byte>, k: int)
    requires |m| == 16 && 0 <= k <= 4
    ensures 0 <= Limb(m, k) < B
    ensures k == 4 ==> Limb(m, k) < 0x100_0000
  {
  }

  /** The unaligned loads and shifts of the code, before any mask. */
  lemma UnalignedLoads(m: seq<byte>)
    requires |m| == 16
    ensures Load32(m, 0) as int % B == Limb(m, 0)
    ensures (Load32(m, 3) as int / 4) % B == Limb(m, 1)
    ensures (Load32(m, 6) as int / 16) % B == Limb(m, 2)
    ensures (Load32(m, 9) as int / 64) % B == Limb(m, 3)
    ensures Load32(m, 12) as int / 256 == Limb(m, 4)
  {
    DivModUnique(Load32(m, 0) as int, B, m[3] as int / 4, Limb(m, 0));
    ShiftedLoad(m, 3, 4, m[6] as int / 16, Limb(m, 1));
    ShiftedLoad(m, 6, 16, m[9] as int / 64, Limb(m, 2));
    ShiftedLoad(m, 9, 64, 0, Limb(m, 3));
    DivModUnique(Load32(m, 12) as int, 256, Limb(m, 4), m[12] as int);
  }

  lemma ShiftedLoad(m: seq<byte>, i: nat, d: int, top: int, limb: int)
    requires |m| == 16 && i + 4 <= 16 && d > 0
    requires 0 <= limb < B
    requires Load32(m, i) as int == d * (limb + B * top) + m[i] as int % d
    ensures (Load32(m, i) as int / d) % B == limb
  {
    DivModUnique(Load32(m, i) as int, d, limb + B * top, m[i] as int % d);
    DivModUnique(limb + B * top, B, top, limb);
  }

  // --- masks ------------------------------------------------------------------------

  /** A mask made of a ones, a gap, and b ones. */
  lemma MaskedBy(x: nat, a: nat, k: nat, b: nat)
    requires b <= k
    ensures x / Pow2(k) >= 0 && (Pow2(a) - 1) * Pow2(k) >= 0
    ensures Bits.And(x, (Pow2(a) - 1) * Pow2(k) + (Pow2(b) - 1))
            == ((x / Pow2(k)) % Pow2(a)) * Pow2(k) + (x % Pow2(k)) % Pow2(b)
  {
    Pow2Mono(b, k);
    var m := Pow2(k);
    var h, l := x / m, x % m;
    NonNegDiv(x, m);
    NonNegMul(Pow2(a) - 1, m);
    assert x == h * m + l;
    Bits.AndSplit(h, l, Pow2(a) - 1, Pow2(b) - 1, k);
    Bits.AndLowMask(h, a);
    Bits.AndLowMask(l, b);
  }

  lemma NonNegDiv(x: nat, m: nat)
    requires m > 0
    ensures x / m >= 0
  {
  }

  lemma NonNegMul(x: nat, m: nat)
    ensures x * m >= 0
  {
  }

  /** The constants below, as powers of two. */
  lemma Powers()
    ensures Pow2(0) == 1 && Pow2(2) == 4 && Pow2(4) == 16 && Pow2(6) == 64 && Pow2(8) == 256
    ensures Pow2(12) == 4096 && Pow2(14) == 16384 && Pow2(18) == 262144 && Pow2(20) == 1048576
    ensures Pow2(24) == 0x100_0000 && Pow2(26) == B
  {
    assert Pow2(4) == 16;
    Pow2Add(4, 2);
    Pow2Add(4, 4);
    Pow2Add(4, 8);
    Pow2Add(6, 8);
    Pow2Add(6, 12);
    Pow2Add(6, 14);
    Pow2Add(12, 12);
    Pow2Add(12, 14);
  }

  lemma Mask26(x: nat)
    ensures Bits.And(x, 0x3ffffff) == x % B
  {
    Powers();
    Bits.AndLowMask(x, 26);
  }

  lemma ClampMasks(x: nat)
    ensures Bits.And(x, 0x3ffff03) == ((x / 256) % 262144) * 256 + (x % 256) % 4
    ensures Bits.And(x, 0x3ffc0ff) == ((x / 16384) % 4096) * 16384 + (x % 16384) % 256
    ensures Bits.And(x, 0x3f03fff) == ((x / 1048576) % 64) * 1048576 + (x % 1048576) % 16384
    ensures Bits.And(x, 0xfffff) == x % 1048576
  {
    Powers();
    MaskedBy(x, 18, 8, 2);
    MaskedBy(x, 12, 14, 8);
    MaskedBy(x, 6, 20, 14);
    Bits.AndLowMask(x, 20);
  }

  lemma ByteMasks(b: byte)
    ensures And8(b, 15) as int == b as int % 16
    ensures And8(b, 252) as int == 4 * (b as int / 4)
  {
    Powers();
    Bits.AndLowMask(b as int, 4);
    MaskedBy(b as int, 6, 2, 0);
    assert b as int / 4 % 64 == b as int / 4;
  }

  lemma ClampedLimbs(k: seq<byte>)
    requires |k| == 16
    ensures var c := Clamp(k);
            && Bits.And(Load32(k, 0) as int, 0x3ffffff) == Limb(c, 0)
            && Bits.And(Load32(k, 3) as int / 4, 0x3ffff03) == Limb(c, 1)
            && Bits.And(Load32(k, 6) as int / 16, 0x3ffc0ff) == Limb(c, 2)
            && Bits.And(Load32(k, 9) as int / 64, 0x3f03fff) == Limb(c, 3)
            && Bits.And(Load32(k, 12) as int / 256, 0xfffff) == Limb(c, 4)
  {
    Mask26(Load32(k, 0) as int);
    UnalignedLoads(k);
    ClampedLimb0(k);
    ClampedLimb1(k);
    ClampedLimb2(k);
    ClampedLimb3(k);
    ClampedLimb4(k);
  }

  lemma ClampedLimb0(k: seq<byte>)
    requires |k| == 16
    ensures Limb(Clamp(k), 0) == Limb(k, 0)
  {
    ByteMasks(k[3]);
    ModMod(k[3] as int);
  }

  lemma ModMod(b: int)
    ensures (b % 16) % 4 == b % 4
  {
  }

  lemma ClampedLimb1(k: seq<byte>)
    requires |k| == 16
    ensures Bits.And(Load32(k, 3) as int / 4, 0x3ffff03) == Limb(Clamp(k), 1)
  {
    ClampMasks(Load32(k, 3) as int / 4);
    ByteMasks(k[3]);
    ByteMasks(k[4]);
    Gap1(k[3] as int, k[4] as int, k[5] as int, k[6] as int, Load32(k, 3) as int);
  }

  lemma Gap1(b3: int, b4: int, b5: int, b6: int, load: int)
    requires 0 <= b3 < 256 && 0 <= b4 < 256 && 0 <= b5 < 256 && 0 <= b6 < 256
    requires load == b3 + 256 * b4 + 65536 * b5 + 16777216 * b6
    ensures var x := load / 4;
            ((x / 256) % 262144) * 256 + (x % 256) % 4
            == (b3 % 16) / 4 + 64 * (4 * (b4 / 4)) + 16384 * b5 + 4194304 * (b6 % 16)
  {
    var x, low, high := load / 4, b3 / 4 + 64 * (b4 % 4), b4 / 4 + 64 * b5 + 16384 * b6;
    DivModUnique(load, 4, 256 * high + low, b3 % 4);
    DivModUnique(x, 256, high, low);
    DivModUnique(high, 262144, b6 / 16, b4 / 4 + 64 * b5 + 16384 * (b6 % 16));
    DivModUnique(low, 4, b3 / 16 + 16 * (b4 % 4), (b3 % 16) / 4);
  }

  lemma ClampedLimb2(k: seq<byte>)
    requires |k| == 16
    ensures Bits.And(Load32(k, 6) as int / 16, 0x3ffc0ff) == Limb(Clamp(k), 2)
  {
    ClampMasks(Load32(k, 6) as int / 16);
    ByteMasks(k[7]);
    ByteMasks(k[8]);
    Gap2(k[6] as int, k[7] as int, k[8] as int, k[9] as int, Load32(k, 6) as int);
  }

  lemma Gap2(b6: int, b7: int, b8: int, b9: int, load: int)
    requires 0 <= b6 < 256 && 0 <= b7 < 256 && 0 <= b8 < 256 && 0 <= b9 < 256
    requires load == b6 + 256 * b7 + 65536 * b8 + 16777216 * b9
    ensures var x := load / 16;
            ((x / 16384) % 4096) * 16384 + (x % 16384) % 256
            == b6 / 16 + 16 * (b7 % 16) + 4096 * (4 * (b8 / 4)) + 1048576 * (b9 % 64)
  {
    var x, low, high := load / 16, b6 / 16 + 16 * b7 + 4096 * (b8 % 4), b8 / 4 + 64 * b9;
    DivModUnique(load, 16, 16384 * high + low, b6 % 16);
    DivModUnique(x, 16384, high, low);
    DivModUnique(low, 256, b7 / 16 + 16 * (b8 % 4), b6 / 16 + 16 * (b7 % 16));
    DivModUnique(high, 4096, b9 / 64, b8 / 4 + 64 * (b9 % 64));
  }

  lemma ClampedLimb3(k: seq<byte>)
    requires |k| == 16
    ensures Bits.And(Load32(k, 9) as int / 64, 0x3f03fff) == Limb(Clamp(k), 3)
  {
    ClampMasks(Load32(k, 9) as int / 64);
    ByteMasks(k[11]);
    ByteMasks(k[12]);
    Gap3(k[9] as int, k[10] as int, k[11] as int, k[12] as int, Load32(k, 9) as int);
  }

  lemma Gap3(b9: int, b10: int, b11: int, b12: int, load: int)
    requires 0 <= b9 < 256 && 0 <= b10 < 256 && 0 <= b11 < 256 && 0 <= b12 < 256
    requires load == b9 + 256 * b10 + 65536 * b11 + 16777216 * b12
    ensures var x := load / 64;
            ((x / 1048576) % 64) * 1048576 + (x % 1048576) % 16384
            == b9 / 64 + 4 * b10 + 1024 * (b11 % 16) + 262144 * (4 * (b12 / 4))
  {
    var x, low := load / 64, b9 / 64 + 4 * b10 + 1024 * b11 + 262144 * (b12 % 4);
    DivModUnique(load, 64, 1048576 * (b12 / 4) + low, b9 % 64);
    DivModUnique(x, 1048576, b12 / 4, low);
    DivModUnique(low, 16384, b11 / 16 + 16 * (b12 % 4), b9 / 64 + 4 * b10 + 1024 * (b11 % 16));
    ModSmall(b12 / 4, 64);
  }

  lemma ClampedLimb4(k: seq<byte>)
    requires |k| == 16
    ensures Bits.And(Load32(k, 12) as int / 256, 0xfffff) == Limb(Clamp(k), 4)
  {
    var x := Load32(k, 12) as int / 256;
    ClampMasks(x);
    ByteMasks(k[15]);
    UnalignedLoads(k);
    DivModUnique(x, 1048576, k[15] as int / 16, x - 1048576 * (k[15] as int / 16));
  }

  // --- one block --------------------------------------------------------------------

  /** The bound every block restores: only limb 1 may exceed 26 bits, and by little. */
  ghost predicate LimbsOk(h0: uint32, h1: uint32, h2: uint32, h3: uint32, h4: uint32)
  {
    h0 < 0x400_0000 && h1 < 0x400_0040 && h2 < 0x400_0000 && h3 < 0x400_0000 && h4 < 0x400_0000
  }

  ghost predicate KeyOk(r0: uint32, r1: uint32, r2: uint32, r3: uint32, r4: uint32)
  {
    r0 < 0x400_0000 && r1 < 0x400_0000 && r2 < 0x400_0000 && r3 < 0x400_0000 && r4 < 0x400_0000
  }

  /** Limbs after the block has been added and before the product. */
  ghost predicate SumsOk(h0: uint32, h1: uint32, h2: uint32, h3: uint32, h4: uint32)
  {
    h0 < 0x800_0040 && h1 < 0x800_0040 && h2 < 0x800_0040 && h3 < 0x800_0040 && h4 < 0x800_0040
  }

  ghost function V32(h0: uint32, h1: uint32, h2: uint32, h3: uint32, h4: uint32): nat
  {
    V5(h0 as int, h1 as int, h2 as int, h3 as int, h4 as int)
  }

  method AddBlock(h0: uint32, h1: uint32, h2: uint32, h3: uint32, h4: uint32, m: seq<byte>, hibit: uint32)
    returns (g0: uint32, g1: uint32, g2: uint32, g3: uint32, g4: uint32)
    requires |m| == 16 && LimbsOk(h0, h1, h2, h3, h4) && (hibit == 0 || hibit == 0x100_0000)
    ensures SumsOk(g0, g1, g2, g3, g4)
    ensures V32(g0, g1, g2, g3, g4) == V32(h0, h1, h2, h3, h4) + (LE(m) + B4 * hibit as int)
  {
    BlockLimbs(m, hibit);
    g0 := h0 + And32(Load32(m, 0), 0x3ffffff);
    g1 := h1 + And32(Load32(m, 3) / 4, 0x3ffffff);
    g2 := h2 + And32(Load32(m, 6) / 16, 0x3ffffff);
    g3 := h3 + And32(Load32(m, 9) / 64, 0x3ffffff);
    g4 := h4 + Or32(Load32(m, 12) / 256, hibit);
  }

  lemma BlockLimbs(m: seq<byte>, hibit: uint32)
    requires |m| == 16 && (hibit == 0 || hibit == 0x100_0000)
    ensures And32(Load32(m, 0), 0x3ffffff) < 0x400_0000
    ensures And32(Load32(m, 3) / 4, 0x3ffffff) < 0x400_0000
    ensures And32(Load32(m, 6) / 16, 0x3ffffff) < 0x400_0000
    ensures And32(Load32(m, 9) / 64, 0x3ffffff) < 0x400_0000
    ensures Or32(Load32(m, 12) / 256, hibit) < 0x200_0000
    ensures V32(And32(Load32(m, 0), 0x3ffffff), And32(Load32(m, 3) / 4, 0x3ffffff), And32(Load32(m, 6) / 16, 0x3ffffff),
                And32(Load32(m, 9) / 64, 0x3ffffff), Or32(Load32(m, 12) / 256, hibit)) == LE(m) + B4 * hibit as int
  {
    Mask26(Load32(m, 0) as int);
    Mask26(Load32(m, 3) as int / 4);
    Mask26(Load32(m, 6) as int / 16);
    Mask26(Load32(m, 9) as int / 64);
    TopLimbOr(Load32(m, 12) as int / 256, hibit as int);
    UnalignedLoads(m);
    LimbBounds(m, 4);
    LimbsOfBytes(m);
  }

  lemma TopLimbOr(x: nat, hibit: nat)
    requires x < 0x100_0000 && (hibit == 0 || hibit == 0x100_0000)
    ensures Bits.Or(x, hibit) == x + hibit
  {
    Powers();
    Bits.OrDisjoint(x, if hibit == 0 then 0 else 1, 24);
  }

  lemma Row(x: int, r0: int, r1: int, r2: int, r3: int, r4: int)
    ensures x * V5(r0, r1, r2, r3, r4) == V5(x * r0, x * r1, x * r2, x * r3, x * r4)
  {
  }

  /** The product of two limb vectors, column by column, with 2^130 = p + 5. */
  lemma Schoolbook(h0: int, h1: int, h2: int, h3: int, h4: int, r0: int, r1: int, r2: int, r3: int, r4: int)
    ensures V5(h0, h1, h2, h3, h4) * V5(r0, r1, r2, r3, r4)
            == V5(h0 * r0 + 5 * (h1 * r4 + h2 * r3 + h3 * r2 + h4 * r1),
                  h0 * r1 + h1 * r0 + 5 * (h2 * r4 + h3 * r3 + h4 * r2),
                  h0 * r2 + h1 * r1 + h2 * r0 + 5 * (h3 * r4 + h4 * r3),
                  h0 * r3 + h1 * r2 + h2 * r1 + h3 * r0 + 5 * (h4 * r4),
                  h0 * r4 + h1 * r3 + h2 * r2 + h3 * r1 + h4 * r0)
               + (h1 * r4 + h2 * r3 + h3 * r2 + h4 * r1 + B * (h2 * r4 + h3 * r3 + h4 * r2)
                  + B2 * (h3 * r4 + h4 * r3) + B3 * (h4 * r4)) * P1305
  {
    var R := V5(r0, r1, r2, r3, r4);
    Row(R, h0, h1, h2, h3, h4);
    Row(h0, r0, r1, r2, r3, r4);
    Row(h1, r0, r1, r2, r3, r4);
    Row(h2, r0, r1, r2, r3, r4);
    Row(h3, r0, r1, r2, r3, r4);
    Row(h4, r0, r1, r2, r3, r4);
  }

  /** Bounds on the factors of a column, so that neither the sums nor the carries overflow. */
  lemma ProductBound(h: uint32, r: uint32)
    requires h < 0x800_0040 && r < 0x400_0000
    ensures 0 <= h as int * r as int <= 0x20_0001_0000_0000
  {
    MulBounds(h as int, r as int, 0x800_0040, 0x400_0000);
    MulMono(h as int, 0, r as int);
  }

  method Column(h0: uint32, x0: uint32, h1: uint32, x1: uint32, h2: uint32, x2: uint32,
                h3: uint32, x3: uint32, h4: uint32, x4: uint32) returns (d: uint64)
    requires SumsOk(h0, h1, h2, h3, h4)
    requires x0 < 0x1400_0000 && x1 < 0x1400_0000 && x2 < 0x1400_0000 && x3 < 0x1400_0000 && x4 < 0x1400_0000
    ensures d as int == h0 as int * x0 as int + h1 as int * x1 as int + h2 as int * x2 as int
                        + h3 as int * x3 as int + h4 as int * x4 as int
  {
    WideBound(h0, x0);
    WideBound(h1, x1);
    WideBound(h2, x2);
    WideBound(h3, x3);
    WideBound(h4, x4);
    d := h0 as uint64 * x0 as uint64 + h1 as uint64 * x1 as uint64 + h2 as uint64 * x2 as uint64
         + h3 as uint64 * x3 as uint64 + h4 as uint64 * x4 as uint64;
  }

  lemma WideBound(h: uint32, x: uint32)
    requires h < 0x800_0040 && x < 0x1400_0000
    ensures 0 <= h as int * x as int <= 0xa0_0005_0000_0000
  {
    MulBounds(h as int, x as int, 0x800_0040, 0x1400_0000);
    MulMono(h as int, 0, x as int);
  }

  /** A product with one of the precomputed s = 5 r. */
  lemma TimesFive(h: uint32, r: uint32, s: uint32)
    requires h < 0x800_0040 && r < 0x400_0000
    requires s as int == 5 * r as int
    ensures h as int * s as int == 5 * (h as int * r as int)
    ensures 0 <= h as int * r as int <= 0x20_0001_0000_0000
  {
    ProductBound(h, r);
    FiveOut(h as int, r as int);
  }

  lemma FiveOut(h: int, r: int)
    ensures h * (5 * r) == 5 * (h * r)
  {
  }

  /** Columns small enough that every carry fits in 32 bits. */
  ghost predicate ColumnsOk(d0: uint64, d1: uint64, d2: uint64, d3: uint64, d4: uint64)
  {
    && d0 <= 0x2a0_0015_0000_0000 && d1 <= 0x2a0_0015_0000_0000 && d2 <= 0x2a0_0015_0000_0000
    && d3 <= 0x2a0_0015_0000_0000 && d4 <= 0xa0_0005_0000_0000
  }

  ghost function V64(d0: uint64, d1: uint64, d2: uint64, d3: uint64, d4: uint64): int
  {
    V5(d0 as int, d1 as int, d2 as int, d3 as int, d4 as int)
  }

  method Multiply(h0: uint32, h1: uint32, h2: uint32, h3: uint32, h4: uint32,
                  r0: uint32, r1: uint32, r2: uint32, r3: uint32, r4: uint32)
    returns (d0: uint64, d1: uint64, d2: uint64, d3: uint64, d4: uint64)
    requires SumsOk(h0, h1, h2, h3, h4) && KeyOk(r0, r1, r2, r3, r4)
    ensures ColumnsOk(d0, d1, d2, d3, d4)
    ensures V64(d0, d1, d2, d3, d4) % P1305 == (V32(h0, h1, h2, h3, h4) * V32(r0, r1, r2, r3, r4)) % P1305
  {
    var s1, s2, s3, s4 := r1 * 5, r2 * 5, r3 * 5, r4 * 5;
    d0 := Column(h0, r0, h1, s4, h2, s3, h3, s2, h4, s1);
    d1 := Column(h0, r1, h1, r0, h2, s4, h3, s3, h4, s2);
    d2 := Column(h0, r2, h1, r1, h2, r0, h3, s4, h4, s3);
    d3 := Column(h0, r3, h1, r2, h2, r1, h3, r0, h4, s4);
    d4 := Column(h0, r4, h1, r3, h2, r2, h3, r1, h4, r0);
    PlainBounds(h0, h1, h2, h3, h4, r0, r1, r2, r3, r4);
    FoldedProducts(h1, h2, h3, h4, r1, r2, r3, r4, s1, s2, s3, s4);
    ProductOfLimbs(h0 as int, h1 as int, h2 as int, h3 as int, h4 as int,
                   r0 as int, r1 as int, r2 as int, r3 as int, r4 as int,
                   d0 as int, d1 as int, d2 as int, d3 as int, d4 as int);
  }

  lemma FoldedProducts(h1: uint32, h2: uint32, h3: uint32, h4: uint32, r1: uint32, r2: uint32, r3: uint32, r4: uint32,
                       s1: uint32, s2: uint32, s3: uint32, s4: uint32)
    requires h1 < 0x800_0040 && h2 < 0x800_0040 && h3 < 0x800_0040 && h4 < 0x800_0040
    requires r1 < 0x400_0000 && r2 < 0x400_0000 && r3 < 0x400_0000 && r4 < 0x400_0000
    requires s1 == 5 * r1 && s2 == 5 * r2 && s3 == 5 * r3 && s4 == 5 * r4
    ensures h1 as int * s4 as int == 5 * (h1 as int * r4 as int) <= 0xa0_0005_0000_0000
    ensures h2 as int * s3 as int == 5 * (h2 as int * r3 as int) <= 0xa0_0005_0000_0000
    ensures h3 as int * s2 as int == 5 * (h3 as int * r2 as int) <= 0xa0_0005_0000_0000
    ensures h4 as int * s1 as int == 5 * (h4 as int * r1 as int) <= 0xa0_0005_0000_0000
    ensures h2 as int * s4 as int == 5 * (h2 as int * r4 as int) <= 0xa0_0005_0000_0000
    ensures h3 as int * s3 as int == 5 * (h3 as int * r3 as int) <= 0xa0_0005_0000_0000
    ensures h4 as int * s2 as int == 5 * (h4 as int * r2 as int) <= 0xa0_0005_0000_0000
    ensures h3 as int * s4 as int == 5 * (h3 as int * r4 as int) <= 0xa0_0005_0000_0000
    ensures h4 as int * s3 as int == 5 * (h4 as int * r3 as int) <= 0xa0_0005_0000_0000
    ensures h4 as int * s4 as int == 5 * (h4 as int * r4 as int) <= 0xa0_0005_0000_0000
  {
    TimesFive(h1, r4, s4);
    TimesFive(h2, r3, s3);
    TimesFive(h3, r2, s2);
    TimesFive(h4, r1, s1);
    TimesFive(h2, r4, s4);
    TimesFive(h3, r3, s3);
    TimesFive(h4, r2, s2);
    TimesFive(h3, r4, s4);
    TimesFive(h4, r3, s3);
    TimesFive(h4, r4, s4);
  }

  lemma PlainBounds(h0: uint32, h1: uint32, h2: uint32, h3: uint32, h4: uint32,
                    r0: uint32, r1: uint32, r2: uint32, r3: uint32, r4: uint32)
    requires SumsOk(h0, h1, h2, h3, h4) && KeyOk(r0, r1, r2, r3, r4)
    ensures h0 as int * r0 as int <= 0x20_0001_0000_0000 && h0 as int * r1 as int <= 0x20_0001_0000_0000
    ensures h0 as int * r2 as int <= 0x20_0001_0000_0000 && h0 as int * r3 as int <= 0x20_0001_0000_0000
    ensures h0 as int * r4 as int <= 0x20_0001_0000_0000 && h1 as int * r0 as int <= 0x20_0001_0000_0000
    ensures h1 as int * r1 as int <= 0x20_0001_0000_0000 && h1 as int * r2 as int <= 0x20_0001_0000_0000
    ensures h1 as int * r3 as int <= 0x20_0001_0000_0000 && h2 as int * r0 as int <= 0x20_0001_0000_0000
    ensures h2 as int * r1 as int <= 0x20_0001_0000_0000 && h2 as int * r2 as int <= 0x20_0001_0000_0000
    ensures h3 as int * r0 as int <= 0x20_0001_0000_0000 && h3 as int * r1 as int <= 0x20_0001_0000_0000
    ensures h4 as int * r0 as int <= 0x20_0001_0000_0000
  {
    ProductBound(h0, r0);
    ProductBound(h0, r1);
    ProductBound(h0, r2);
    ProductBound(h0, r3);
    ProductBound(h0, r4);
    ProductBound(h1, r0);
    ProductBound(h1, r1);
    ProductBound(h1, r2);
    ProductBound(h1, r3);
    ProductBound(h2, r0);
    ProductBound(h2, r1);
    ProductBound(h2, r2);
    ProductBound(h3, r0);
    ProductBound(h3, r1);
    ProductBound(h4, r0);
  }

  lemma ProductOfLimbs(h0: int, h1: int, h2: int, h3: int, h4: int, r0: int, r1: int, r2: int, r3: int, r4: int,
                       d0: int, d1: int, d2: int, d3: int, d4: int)
    requires d0 == h0 * r0 + 5 * (h1 * r4) + 5 * (h2 * r3) + 5 * (h3 * r2) + 5 * (h4 * r1)
    requires d1 == h0 * r1 + h1 * r0 + 5 * (h2 * r4) + 5 * (h3 * r3) + 5 * (h4 * r2)
    requires d2 == h0 * r2 + h1 * r1 + h2 * r0 + 5 * (h3 * r4) + 5 * (h4 * r3)
    requires d3 == h0 * r3 + h1 * r2 + h2 * r1 + h3 * r0 + 5 * (h4 * r4)
    requires d4 == h0 * r4 + h1 * r3 + h2 * r2 + h3 * r1 + h4 * r0
    ensures V5(d0, d1, d2, d3, d4) % P1305 == (V5(h0, h1, h2, h3, h4) * V5(r0, r1, r2, r3, r4)) % P1305
  {
    Schoolbook(h0, h1, h2, h3, h4, r0, r1, r2, r3, r4);
    var k := h1 * r4 + h2 * r3 + h3 * r2 + h4 * r1 + B * (h2 * r4 + h3 * r3 + h4 * r2)
             + B2 * (h3 * r4 + h4 * r3) + B3 * (h4 * r4);
    ModEqual(V5(h0, h1, h2, h3, h4) * V5(r0, r1, r2, r3, r4), V5(d0, d1, d2, d3, d4), k, P1305);
  }

  method CarryColumns(e0: uint64, e1: uint64, e2: uint64, e3: uint64, e4: uint64)
    returns (h0: uint32, h1: uint32, h2: uint32, h3: uint32, h4: uint32)
    requires ColumnsOk(e0, e1, e2, e3, e4)
    ensures LimbsOk(h0, h1, h2, h3, h4)
    ensures V32(h0, h1, h2, h3, h4) % P1305 == V64(e0, e1, e2, e3, e4) % P1305
  {
    var c := (e0 / 0x400_0000) as uint32;
    h0 := (e0 % 0x400_0000) as uint32;
    var d1 := e1 + c as uint64;
    c := (d1 / 0x400_0000) as uint32;
    h1 := (d1 % 0x400_0000) as uint32;
    var d2 := e2 + c as uint64;
    c := (d2 / 0x400_0000) as uint32;
    h2 := (d2 % 0x400_0000) as uint32;
    var d3 := e3 + c as uint64;
    c := (d3 / 0x400_0000) as uint32;
    h3 := (d3 % 0x400_0000) as uint32;
    var d4 := e4 + c as uint64;
    c := (d4 / 0x400_0000) as uint32;
    h4 := (d4 % 0x400_0000) as uint32;
    ghost var k, v := c as int, V32(h0, h1, h2, h3, h4);
    assert V64(e0, e1, e2, e3, e4) == v + 0x4_0000_0000_0000_0000_0000_0000_0000_0000 * k;
    h0 := h0 + c * 5;
    c := h0 / 0x400_0000;
    h0 := h0 % 0x400_0000;
    h1 := h1 + c;
    assert V32(h0, h1, h2, h3, h4) == v + 5 * k;
    ModEqual(V64(e0, e1, e2, e3, e4), V32(h0, h1, h2, h3, h4), k, P1305);
  }

  method OneBlock(h0: uint32, h1: uint32, h2: uint32, h3: uint32, h4: uint32,
                  r0: uint32, r1: uint32, r2: uint32, r3: uint32, r4: uint32, m: seq<byte>, hibit: uint32)
    returns (g0: uint32, g1: uint32, g2: uint32, g3: uint32, g4: uint32)
    requires |m| == 16 && LimbsOk(h0, h1, h2, h3, h4) && KeyOk(r0, r1, r2, r3, r4)
    requires hibit == 0 || hibit == 0x100_0000
    ensures LimbsOk(g0, g1, g2, g3, g4)
    ensures V32(g0, g1, g2, g3, g4) % P1305
            == AddAndMultiply(V32(r0, r1, r2, r3, r4), hibit == 0, V32(h0, h1, h2, h3, h4) % P1305, m)
  {
    g0, g1, g2, g3, g4 := AddBlock(h0, h1, h2, h3, h4, m, hibit);
    ghost var v, r := V32(h0, h1, h2, h3, h4), V32(r0, r1, r2, r3, r4);
    ghost var want := AddAndMultiply(r, hibit == 0, v % P1305, m);
    StepMeans(v, m, hibit, r);
    var d0, d1, d2, d3, d4 := Multiply(g0, g1, g2, g3, g4, r0, r1, r2, r3, r4);
    assert V64(d0, d1, d2, d3, d4) % P1305 == want;
    g0, g1, g2, g3, g4 := CarryColumns(d0, d1, d2, d3, d4);
    assert LimbsOk(g0, g1, g2, g3, g4);
    assert V32(g0, g1, g2, g3, g4) % P1305 == want;
  }

  lemma StepMeans(acc: nat, m: seq<byte>, hibit: uint32, r: nat)
    requires |m| == 16 && (hibit == 0 || hibit == 0x100_0000)
    ensures ((acc + (LE(m) + B4 * hibit as int)) * r) % P1305 == AddAndMultiply(r, hibit == 0, acc % P1305, m)
  {
    HighBit(hibit, |m|);
    ReduceFirst(acc, LE(m) + B4 * hibit as int, r, P1305);
  }

  lemma HighBit(hibit: uint32, n: nat)
    requires n == 16
    ensures hibit == 0x100_0000 ==> B4 * hibit as int == Pow256(n)
  {
    Pow256Pow2(n);
    Pow2At32();
    Pow2Add(32, 32);
    Pow2Add(64, 64);
  }

  /** Reducing the accumulator before a block does not change the result. */
  lemma ReduceFirst(acc: int, n: int, r: int, p: int)
    requires p > 0
    ensures ((acc + n) * r) % p == ((acc % p + n) * r) % p
  {
    var q, x := acc / p, acc % p + n;
    assert acc + n == x + q * p;
    ScaleMultiple(x, q, p, r);
    ModEqual((acc + n) * r, x * r, q * r, p);
  }

  lemma ScaleMultiple(x: int, q: int, p: int, r: int)
    ensures (x + q * p) * r == x * r + (q * r) * p
  {
  }

  // --- the final reduction ------------------------------------------------------------

  ghost predicate Canonical26(h0: uint32, h1: uint32, h2: uint32, h3: uint32, h4: uint32)
  {
    h0 < 0x400_0000 && h1 < 0x400_0000 && h2 < 0x400_0000 && h3 < 0x400_0000 && h4 < 0x400_0000
  }

  method CarryChain(a0: uint32, a1: uint32, a2: uint32, a3: uint32, a4: uint32)
    returns (h0: uint32, h1: uint32, h2: uint32, h3: uint32, h4: uint32)
    requires LimbsOk(a0, a1, a2, a3, a4)
    ensures Canonical26(h0, h1, h2, h3, h4)
    ensures V32(h0, h1, h2, h3, h4) % P1305 == V32(a0, a1, a2, a3, a4) % P1305
  {
    h0, h1, h2, h3, h4 := a0, a1, a2, a3, a4;
    var c := h1 / 0x400_0000;
    h1 := h1 % 0x400_0000;
    h2 := h2 + c;
    c := h2 / 0x400_0000;
    h2 := h2 % 0x400_0000;
    h3 := h3 + c;
    c := h3 / 0x400_0000;
    h3 := h3 % 0x400_0000;
    h4 := h4 + c;
    c := h4 / 0x400_0000;
    h4 := h4 % 0x400_0000;
    ghost var k, v := c as int, V32(h0, h1, h2, h3, h4);
    assert V32(a0, a1, a2, a3, a4) == v + 0x4_0000_0000_0000_0000_0000_0000_0000_0000 * k;
    assert k > 0 ==> h1 < 65;
    h0 := h0 + c * 5;
    c := h0 / 0x400_0000;
    h0 := h0 % 0x400_0000;
    h1 := h1 + c;
    assert V32(h0, h1, h2, h3, h4) == v + 5 * k;
    ModEqual(V32(a0, a1, a2, a3, a4), V32(h0, h1, h2, h3, h4), k, P1305);
  }

  /** What the two complementary masks select. */
  lemma MaskSelects(h: uint32, g: uint32, keep: bool)
    ensures var mask: uint32 := if keep then 0 else 0xffff_ffff;
            Or32(And32(h, 0xffff_ffff - mask), And32(g, mask)) == if keep then h else g
  {
    Pow2At32();
    if keep {
      Bits.AndCommutes(h as int, 0xffff_ffff);
      Bits.AndAllOnes(h as int, 32);
      Bits.OrDisjoint(h as int, 0, 32);
    } else {
      Bits.AndCommutes(g as int, 0xffff_ffff);
      Bits.AndAllOnes(g as int, 32);
      Bits.OrZero(g as int);
    }
  }

  method SelectReduced(a0: uint32, a1: uint32, a2: uint32, a3: uint32, a4: uint32)
    returns (h0: uint32, h1: uint32, h2: uint32, h3: uint32, h4: uint32)
    requires Canonical26(a0, a1, a2, a3, a4)
    ensures Canonical26(h0, h1, h2, h3, h4)
    ensures V32(h0, h1, h2, h3, h4) == V32(a0, a1, a2, a3, a4) % P1305
  {
    var g0, g1, g2, g3, g4, keep := MinusPrime(a0, a1, a2, a3, a4);
    var mask: uint32 := Low32((g4 / 0x8000_0000) as int - 1);
    assert mask == if keep then 0 else 0xffff_ffff;
    MaskSelects(a0, g0, keep);
    MaskSelects(a1, g1, keep);
    MaskSelects(a2, g2, keep);
    MaskSelects(a3, g3, keep);
    MaskSelects(a4, g4, keep);
    h0 := Or32(And32(a0, 0xffff_ffff - mask), And32(g0, mask));
    h1 := Or32(And32(a1, 0xffff_ffff - mask), And32(g1, mask));
    h2 := Or32(And32(a2, 0xffff_ffff - mask), And32(g2, mask));
    h3 := Or32(And32(a3, 0xffff_ffff - mask), And32(g3, mask));
    h4 := Or32(And32(a4, 0xffff_ffff - mask), And32(g4, mask));
    ghost var v := V32(a0, a1, a2, a3, a4);
    DivModUnique(v, P1305, if keep then 0 else 1, V32(h0, h1, h2, h3, h4));
  }

  /** h + 5 - 2^130, whose top limb wraps around exactly when h is below p. */
  method MinusPrime(h0: uint32, h1: uint32, h2: uint32, h3: uint32, h4: uint32)
    returns (g0: uint32, g1: uint32, g2: uint32, g3: uint32, g4: uint32, ghost below: bool)
    requires Canonical26(h0, h1, h2, h3, h4)
    ensures below <==> V32(h0, h1, h2, h3, h4) < P1305
    ensures below ==> g4 >= 0x8000_0000
    ensures !below ==> Canonical26(g0, g1, g2, g3, g4) && V32(g0, g1, g2, g3, g4) == V32(h0, h1, h2, h3, h4) - P1305
  {
    g0 := h0 + 5;
    var c := g0 / 0x400_0000;
    g0 := g0 % 0x400_0000;
    g1 := h1 + c;
    c := g1 / 0x400_0000;
    g1 := g1 % 0x400_0000;
    g2 := h2 + c;
    c := g2 / 0x400_0000;
    g2 := g2 % 0x400_0000;
    g3 := h3 + c;
    c := g3 / 0x400_0000;
    g3 := g3 % 0x400_0000;
    ghost var top := h4 as int + c as int - B;
    assert V5(g0 as int, g1 as int, g2 as int, g3 as int, top) == V32(h0, h1, h2, h3, h4) - P1305;
    below := top < 0;
    g4 := Low32(h4 as int + c as int - 0x400_0000);
  }

  ghost function W4(w0: int, w1: int, w2: int, w3: int): int
  {
    w0 + TWO32 * w1 + TWO64 * w2 + 0x1_0000_0000_0000_0000_0000_0000 * w3
  }

  /** Two neighbouring limbs share a 32-bit word: the low one's top bits, then the next one's low bits. */
  lemma WordOfLimbs(lo: uint32, hi: uint32, n: nat, m: int, rest: int)
    requires n <= 32 && Pow2(n) == m && m * rest == TWO32 && lo as int < m && rest > 0
    ensures Or32(lo, Low32(hi as int * m)) as int == lo as int + m * (hi as int % rest)
  {
    var r := hi as int % rest;
    ShiftedWord(hi as int, m, rest);
    Bits.OrDisjoint(lo as int, r, n);
  }

  lemma ShiftedWord(hi: nat, m: int, rest: int)
    requires m > 0 && rest > 0 && m * rest == TWO32
    ensures (hi * m) % TWO32 == (hi % rest) * m == m * (hi % rest)
  {
    var q, r := hi / rest, hi % rest;
    WordSplit(hi, m, rest, q, r);
    DivModUnique(hi * m, TWO32, q, r * m);
  }

  lemma WordSplit(hi: int, m: int, rest: int, q: int, r: int)
    requires hi == q * rest + r && 0 <= r < rest && m > 0 && m * rest == TWO32
    ensures hi * m == q * TWO32 + r * m && r * m == m * r
    ensures 0 <= r * m < TWO32
  {
    calc {
      hi * m;
      (q * rest + r) * m;
      q * (m * rest) + r * m;
    }
    MulMono(m, r, rest - 1);
    MulMono(m, 0, r);
  }

  method PackWords(h0: uint32, h1: uint32, h2: uint32, h3: uint32, h4: uint32)
    returns (w0: uint32, w1: uint32, w2: uint32, w3: uint32)
    requires Canonical26(h0, h1, h2, h3, h4)
    ensures W4(w0 as int, w1 as int, w2 as int, w3 as int) == V32(h0, h1, h2, h3, h4) % TWO128
  {
    Powers();
    WordOfLimbs(h0, h1, 26, 0x400_0000, 64);
    w0 := Or32(h0, Low32(h1 as int * 0x400_0000));
    WordOfLimbs(h1 / 64, h2, 20, 0x10_0000, 4096);
    w1 := Or32(h1 / 64, Low32(h2 as int * 0x10_0000));
    WordOfLimbs(h2 / 4096, h3, 14, 0x4000, 0x4_0000);
    w2 := Or32(h2 / 4096, Low32(h3 as int * 0x4000));
    WordOfLimbs(h3 / 0x4_0000, h4, 8, 0x100, 0x100_0000);
    w3 := Or32(h3 / 0x4_0000, Low32(h4 as int * 0x100));
    LimbsToWords(h0 as int, h1 as int, h2 as int, h3 as int, h4 as int);
  }

  lemma LimbsToWords(h0: int, h1: int, h2: int, h3: int, h4: int)
    requires 0 <= h0 < B && 0 <= h1 < B && 0 <= h2 < B && 0 <= h3 < B && 0 <= h4 < B
    ensures W4(h0 + 0x400_0000 * (h1 % 64), h1 / 64 + 0x10_0000 * (h2 % 4096),
               h2 / 4096 + 0x4000 * (h3 % 0x4_0000), h3 / 0x4_0000 + 0x100 * (h4 % 0x100_0000))
            == V5(h0, h1, h2, h3, h4) % TWO128
  {
    var w := W4(h0 + 0x400_0000 * (h1 % 64), h1 / 64 + 0x10_0000 * (h2 % 4096),
                h2 / 4096 + 0x4000 * (h3 % 0x4_0000), h3 / 0x4_0000 + 0x100 * (h4 % 0x100_0000));
    DivModUnique(V5(h0, h1, h2, h3, h4), TWO128, h4 / 0x100_0000, w);
  }

  method AddPad(w0: uint32, w1: uint32, w2: uint32, w3: uint32, p0: uint32, p1: uint32, p2: uint32, p3: uint32)
    returns (t0: uint32, t1: uint32, t2: uint32, t3: uint32)
    ensures W4(t0 as int, t1 as int, t2 as int, t3 as int)
            == (W4(w0 as int, w1 as int, w2 as int, w3 as int) + W4(p0 as int, p1 as int, p2 as int, p3 as int)) % TWO128
  {
    var f: uint64 := w0 as uint64 + p0 as uint64;
    t0 := Low32(f as int);
    f := w1 as uint64 + p1 as uint64 + f / 0x1_0000_0000;
    t1 := Low32(f as int);
    f := w2 as uint64 + p2 as uint64 + f / 0x1_0000_0000;
    t2 := Low32(f as int);
    f := w3 as uint64 + p3 as uint64 + f / 0x1_0000_0000;
    t3 := Low32(f as int);
    DivModUnique(W4(w0 as int, w1 as int, w2 as int, w3 as int) + W4(p0 as int, p1 as int, p2 as int, p3 as int), TWO128,
                 f as int / TWO32, W4(t0 as int, t1 as int, t2 as int, t3 as int));
  }

  // --- the streaming context ---------------------------------------------------------

  class Context {
    const r: array<uint32>
    const h: array<uint32>
    const pad: array<uint32>
    const buffer: array<byte>
    var leftover: nat
    var final: bool

    ghost predicate Shape()
    {
      r.Length == 5 && h.Length == 5 && pad.Length == 4 && buffer.Length == 16 && r != h && r != pad && h != pad
    }

    ghost predicate InRange()
      requires Shape()
      reads r, h
    {
      LimbsOk(h[0], h[1], h[2], h[3], h[4]) && KeyOk(r[0], r[1], r[2], r[3], r[4])
    }

    /** The clamped key. */
    ghost function R(): (v: nat)
      reads r
      requires Shape()
    {
      V32(r[0], r[1], r[2], r[3], r[4])
    }

    /** The accumulator. */
    ghost function Acc(): (v: nat)
      reads h
      requires Shape()
    {
      V32(h[0], h[1], h[2], h[3], h[4]) % P1305
    }

    ghost function Pad(): (v: nat)
      reads pad
      requires Shape()
    {
      W4(pad[0] as int, pad[1] as int, pad[2] as int, pad[3] as int)
    }

    /** The context of key after msg: whole blocks are absorbed, the rest waits in the buffer. */
    ghost predicate Holds(key: seq<byte>, msg: seq<byte>)
      reads this, r, h, pad, buffer
      requires |key| == 32
    {
      && leftover < 16 && leftover <= |msg|
      && Progress(key, msg[..|msg| - leftover])
      && buffer[..leftover] == msg[|msg| - leftover..]
    }

    /** The whole blocks done have been absorbed. */
    ghost predicate Progress(key: seq<byte>, done: seq<byte>)
      reads this, r, h, pad
      requires |key| == 32
    {
      && Shape() && InRange() && !final && |done| % 16 == 0
      && R() == LE(Clamp(key[..16])) && Pad() == LE(key[16..])
      && Acc() == Absorb(R(), 0, done)
    }

    constructor (key: seq<byte>)
      requires |key| == 32
      ensures Holds(key, [])
      ensures fresh(r) && fresh(h) && fresh(pad) && fresh(buffer)
    {
      hide V32, W4, LE, And32, Load32, Clamp, Absorb, KeyOk, LimbsOk;
      var k := key[..16];
      KeyLimbs(k);
      PadWords(key);
      NothingAbsorbed(LE(Clamp(k)));
      r := new uint32[5] [And32(Load32(k, 0), 0x3ffffff), And32(Load32(k, 3) / 4, 0x3ffff03),
                          And32(Load32(k, 6) / 16, 0x3ffc0ff), And32(Load32(k, 9) / 64, 0x3f03fff),
                          And32(Load32(k, 12) / 256, 0x00fffff)];
      h := new uint32[5] [0, 0, 0, 0, 0];
      pad := new uint32[4] [Load32(key, 16), Load32(key, 20), Load32(key, 24), Load32(key, 28)];
      buffer := new byte[16];
      leftover, final := 0, false;
    }

    /** Absorbs every whole block of m. */
    method Blocks(m: seq<byte>)
      requires Shape() && InRange() && |m| % 16 == 0
      modifies h
      ensures InRange()
      ensures Acc() == Fold(Step(R(), final), old(Acc()), m)
    {
      ghost var key, acc := R(), Acc();
      var h0, h1, h2, h3, h4 := AbsorbBlocks(h[0], h[1], h[2], h[3], h[4], r[0], r[1], r[2], r[3], r[4], m, final);
      h[0], h[1], h[2], h[3], h[4] := h0, h1, h2, h3, h4;
    }

    method TakeBlocks(m: seq<byte>, ghost key: seq<byte>, ghost done: seq<byte>)
      requires |key| == 32 && Progress(key, done) && |m| % 16 == 0
      modifies h
      ensures Progress(key, done + m)
    {
      hide LimbsOk, KeyOk, V32, Fold, Step, W4, LE, Clamp;
      FoldConcat(Step(R(), false), 0, done, m, |done| / 16);
      Blocks(m);
    }

    /** memcpy into the buffer. */
    method Store(at: nat, data: seq<byte>)
      requires buffer.Length == 16 && at + |data| <= 16
      modifies buffer
      ensures buffer[..at + |data|] == old(buffer[..at]) + data
    {
      for i := 0 to |data|
        invariant buffer[..at + i] == old(buffer[..at]) + data[..i]
      {
        buffer[at + i] := data[i];
        assert data[..i + 1] == data[..i] + [data[i]];
        assert buffer[..at + i + 1] == buffer[..at + i] + [data[i]];
      }
    }

    method Update(data: seq<byte>, ghost key: seq<byte>, ghost msg: seq<byte>)
      requires |key| == 32 && Holds(key, msg)
      modifies this, h, buffer
      ensures Holds(key, msg + data)
    {
      hide InRange, R, Pad, Acc, Absorb, Clamp, LE;
      var m := data;
      ghost var done := msg[..|msg| - leftover];
      if leftover > 0 {
        var want := 16 - leftover;
        if want > |m| {
          want := |m|;
        }
        Store(leftover, m[..want]);
        m := m[want..];
        leftover := leftover + want;
        if leftover < 16 {
          assert (msg + data)[..|msg + data| - leftover] == done;
          return;
        }
        assert buffer[..] == buffer[..16];
        assert done + buffer[..] + m == msg + data;
        TakeBlocks(buffer[..], key, done);
        done := done + buffer[..];
        leftover := 0;
      }
      assert done + m == msg + data;
      UpdateAligned(m, key, done);
    }

    /** The part of an update that starts with an empty buffer. */
    method UpdateAligned(data: seq<byte>, ghost key: seq<byte>, ghost whole: seq<byte>)
      requires |key| == 32 && Progress(key, whole) && leftover == 0
      modifies this, h, buffer
      ensures Holds(key, whole + data)
    {
      hide InRange, R, Pad, Acc, Absorb, Clamp, LE;
      var m := data;
      ghost var done := whole;
      if |m| >= 16 {
        var want := |m| - |m| % 16;
        TakeBlocks(m[..want], key, done);
        done := done + m[..want];
        m := m[want..];
      }
      assert done + m == whole + data;
      if |m| > 0 {
        Store(leftover, m);
        leftover := leftover + |m|;
      }
      assert (whole + data)[..|whole + data| - leftover] == done;
      assert (whole + data)[|whole + data| - leftover..] == m;
    }

    method Finish(mac: array<byte>, ghost key: seq<byte>, ghost msg: seq<byte>)
      requires |key| == 32 && Holds(key, msg) && mac.Length == 16 && mac != buffer
      modifies this, r, h, pad, buffer, mac
      ensures LE(mac[..]) == Tag(key, msg)
    {
      hide V32, V5, W4, LE, Clamp, Absorb, LimbsOk, KeyOk, Canonical26;
      AbsorbTail(key, msg);
      TruncateFirst(Acc(), Pad(), TWO128);
      var h0, h1, h2, h3, h4 := CarryChain(h[0], h[1], h[2], h[3], h[4]);
      h0, h1, h2, h3, h4 := SelectReduced(h0, h1, h2, h3, h4);
      var w0, w1, w2, w3 := PackWords(h0, h1, h2, h3, h4);
      w0, w1, w2, w3 := AddPad(w0, w1, w2, w3, pad[0], pad[1], pad[2], pad[3]);
      StoreWords(mac, w0, w1, w2, w3);
      Wipe();
    }

    /** The last, shorter block gets its final one from the buffer instead of the high bit. */
    method AbsorbTail(ghost key: seq<byte>, ghost msg: seq<byte>)
      requires |key| == 32 && Holds(key, msg)
      modifies this, h, buffer
      ensures Shape() && InRange()
      ensures R() == LE(Clamp(key[..16])) && Pad() == LE(key[16..])
      ensures Acc() == Absorb(R(), 0, msg)
    {
      hide LimbsOk, KeyOk, V32, W4, LE, Clamp, Pow256;
      ghost var done, tail := msg[..|msg| - leftover], msg[|msg| - leftover..];
      assert msg == done + tail;
      FoldConcat(Step(R(), false), 0, done, tail, |done| / 16);
      if leftover > 0 {
        Store(leftover, [1] + seq(15 - leftover, _ => 0));
        leftover := leftover + 1;
        assert buffer[..] == buffer[..16] == tail + [1] + seq(15 - |tail|, _ => 0);
        PaddedNumber(tail);
        final := true;
        Blocks(buffer[..]);
        FoldOne(Step(R(), true), Absorb(R(), 0, done), buffer[..]);
      }
    }

    /** memset of the whole context. */
    method Wipe()
      requires Shape()
      modifies this, r, h, pad, buffer
      ensures leftover == 0 && !final
      ensures (forall i :: 0 <= i < 5 ==> r[i] == 0 && h[i] == 0) && (forall i :: 0 <= i < 4 ==> pad[i] == 0)
      ensures forall i :: 0 <= i < 16 ==> buffer[i] == 0
    {
      leftover, final := 0, false;
      forall i | 0 <= i < 5 {
        r[i] := 0;
      }
      forall i | 0 <= i < 5 {
        h[i] := 0;
      }
      forall i | 0 <= i < 4 {
        pad[i] := 0;
      }
      forall i | 0 <= i < 16 {
        buffer[i] := 0;
      }
    }
  }

  lemma FoldOne(f: (nat, seq<byte>) -> nat, acc: nat, b: seq<byte>)
    requires |b| == 16
    ensures Fold(f, acc, b) == f(acc, b)
  {
    assert b == b + [];
    FoldBlock(f, acc, b, []);
  }

  /** A one after the tail, then zeros, is the tail's block number. */
  lemma PaddedNumber(tail: seq<byte>)
    requires |tail| < 16
    ensures LE(tail + [1] + seq(15 - |tail|, _ => 0)) == BlockNumber(tail)
  {
    hide LE, Pow256;
    var zeros: seq<byte> := seq(15 - |tail|, _ => 0);
    assert tail + [1] + zeros == tail + ([1] + zeros);
    LEConcat(tail, [1] + zeros);
    LEOneZeros(zeros);
  }

  lemma LEOneZeros(zeros: seq<byte>)
    requires forall i :: 0 <= i < |zeros| ==> zeros[i] == 0
    ensures LE([1] + zeros) == 1
  {
    LEConcat([1], zeros);
    LEZeros(zeros);
    LEOne(1);
  }

  lemma TruncateFirst(x: int, y: int, m: int)
    requires m > 0
    ensures (x % m + y) % m == (x + y) % m
  {
    ModShift(x % m + y, x / m, m);
  }

  lemma {:induction false} LEZeros(s: seq<byte>)
    requires forall i :: 0 <= i < |s| ==> s[i] == 0
    ensures LE(s) == 0
  {
    if |s| > 0 {
      LEZeros(s[1..]);
    }
  }

  method StoreWords(mac: array<byte>, w0: uint32, w1: uint32, w2: uint32, w3: uint32)
    requires mac.Length == 16
    modifies mac
    ensures LE(mac[..]) == W4(w0 as int, w1 as int, w2 as int, w3 as int)
  {
    Store32(mac, 0, w0);
    Store32(mac, 4, w1);
    Store32(mac, 8, w2);
    Store32(mac, 12, w3);
    LE16(mac[..]);
  }

  method Store32(p: array<byte>, at: nat, v: uint32)
    requires at + 4 <= p.Length
    modifies p
    ensures Load32(p[..], at) == v
    ensures forall i :: 0 <= i < p.Length && !(at <= i < at + 4) ==> p[i] == old(p[i])
  {
    p[at] := (v % 256) as byte;
    p[at + 1] := ((v / 256) % 256) as byte;
    p[at + 2] := ((v / 65536) % 256) as byte;
    p[at + 3] := (v / 16777216) as byte;
  }

  lemma NothingAbsorbed(r: nat)
    ensures LimbsOk(0, 0, 0, 0, 0) && V32(0, 0, 0, 0, 0) % P1305 == Absorb(r, 0, [])
  {
    ModSmall(0, P1305);
  }

  lemma KeyLimbs(k: seq<byte>)
    requires |k| == 16
    ensures var r0, r1, r2, r3, r4 :=
              And32(Load32(k, 0), 0x3ffffff), And32(Load32(k, 3) / 4, 0x3ffff03), And32(Load32(k, 6) / 16, 0x3ffc0ff),
              And32(Load32(k, 9) / 64, 0x3f03fff), And32(Load32(k, 12) / 256, 0x00fffff);
            KeyOk(r0, r1, r2, r3, r4) && V32(r0, r1, r2, r3, r4) == LE(Clamp(k))
  {
    var c := Clamp(k);
    ClampedLimbs(k);
    LimbsOfBytes(c);
    LimbBounds(c, 0);
    LimbBounds(c, 1);
    LimbBounds(c, 2);
    LimbBounds(c, 3);
    LimbBounds(c, 4);
  }

  lemma PadWords(key: seq<byte>)
    requires |key| == 32
    ensures W4(Load32(key, 16) as int, Load32(key, 20) as int, Load32(key, 24) as int, Load32(key, 28) as int) == LE(key[16..])
  {
    LE16(key[16..]);
  }

  /** The block loop on local copies of the limbs. */
  method AbsorbBlocks(a0: uint32, a1: uint32, a2: uint32, a3: uint32, a4: uint32,
                      r0: uint32, r1: uint32, r2: uint32, r3: uint32, r4: uint32, m: seq<byte>, final: bool)
    returns (h0: uint32, h1: uint32, h2: uint32, h3: uint32, h4: uint32)
    requires LimbsOk(a0, a1, a2, a3, a4) && KeyOk(r0, r1, r2, r3, r4) && |m| % 16 == 0
    ensures LimbsOk(h0, h1, h2, h3, h4)
    ensures V32(h0, h1, h2, h3, h4) % P1305
            == Fold(Step(V32(r0, r1, r2, r3, r4), final), V32(a0, a1, a2, a3, a4) % P1305, m)
  {
    hide V32, LimbsOk, KeyOk, Step, AddAndMultiply;
    var hibit: uint32 := if final then 0 else 0x100_0000;
    h0, h1, h2, h3, h4 := a0, a1, a2, a3, a4;
    ghost var key: nat, acc: nat, done := V32(r0, r1, r2, r3, r4), V32(a0, a1, a2, a3, a4) % P1305, 0;
    var rest := m;
    while |rest| >= 16
      invariant |m| == |rest| + 16 * done && rest == m[16 * done..]
      invariant LimbsOk(h0, h1, h2, h3, h4)
      invariant V32(h0, h1, h2, h3, h4) % P1305 == Fold(Step(key, final), acc, m[..16 * done])
      decreases |rest|
    {
      StepSnoc(key, final, acc, m, done);
      h0, h1, h2, h3, h4 := OneBlock(h0, h1, h2, h3, h4, r0, r1, r2, r3, r4, rest[..16], hibit);
      rest, done := rest[16..], done + 1;
    }
    assert m[..16 * done] == m;
  }

  lemma StepSnoc(r: nat, padded: bool, acc: nat, m: seq<byte>, k: nat)
    requires 16 * k + 16 <= |m|
    ensures Fold(Step(r, padded), acc, m[..16 * (k + 1)])
            == AddAndMultiply(r, padded, Fold(Step(r, padded), acc, m[..16 * k]), m[16 * k..][..16])
  {
    FoldSnoc(Step(r, padded), acc, m, k);
    assert m[16 * k..][..16] == m[16 * k..16 * k + 16];
  }

  lemma FoldSnoc(f: (nat, seq<byte>) -> nat, acc: nat, m: seq<byte>, k: nat)
    requires 16 * k + 16 <= |m|
    ensures Fold(f, acc, m[..16 * k + 16]) == f(Fold(f, acc, m[..16 * k]), m[16 * k..16 * k + 16])
  {
    var a, b := m[..16 * k], m[16 * k..16 * k + 16];
    assert m[..16 * k + 16] == a + b;
    FoldConcat(f, acc, a, b, k);
    assert b == b + [];
    FoldBlock(f, Fold(f, acc, a), b, []);
  }
}
