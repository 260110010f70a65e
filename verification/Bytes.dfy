/** Bytes and their little-endian reading. */
module Bytes {
  import opened Arith
  import Bits

  newtype byte = x: int | 0 <= x < 256

  function Pow256(k: nat): (w: nat)
    ensures w > 0
  {
    if k == 0 then 1 else 256 * Pow256(k - 1)
  }

  lemma Pow256Eight()
    ensures Pow256(8) == TWO64
  {
    assert Pow256(4) == 0x1_0000_0000;
  }

  function LE(s: seq<byte>): nat
  {
    if |s| == 0 then 0 else s[0] as int + 256 * LE(s[1..])
  }

  /** The big-endian reading. */
  function BE(s: seq<byte>): nat
  {
    if |s| == 0 then 0 else 256 * BE(s[..|s| - 1]) + s[|s| - 1] as int
  }

  function And8(a: byte, b: byte): byte
  {
    Bits.AndBound(a as int, b as int);
    Bits.And(a as int, b as int) as byte
  }

  function Or8(a: byte, b: byte): byte
  {
    Bits.OrBound(a as int, b as int, 8);
    assert Pow2(8) == 256;
    Bits.Or(a as int, b as int) as byte
  }

  function Zeros(n: nat): (z: seq<byte>)
    ensures |z| == n
  {
    seq(n, _ => 0)
  }

  /** The pieces, one after the other. */
  function Joined(pieces: seq<seq<byte>>): seq<byte>
  {
    if |pieces| == 0 then [] else Joined(pieces[..|pieces| - 1]) + pieces[|pieces| - 1]
  }

  lemma JoinedPrefix(pieces: seq<seq<byte>>, i: nat)
    requires i <= |pieces|
    ensures i == 0 ==> Joined(pieces[..i]) == []
    ensures i > 0 ==> Joined(pieces[..i]) == Joined(pieces[..i - 1]) + pieces[i - 1]
  {
    if i > 0 {
      assert pieces[..i][..i - 1] == pieces[..i - 1];
    }
  }

  lemma {:induction false} Pow256Pow2(k: nat)
    ensures Pow256(k) == Pow2(8 * k)
  {
    if k > 0 {
      Pow256Pow2(k - 1);
      Pow2Add(8, 8 * (k - 1));
      assert Pow2(8) == 256;
    }
  }

  lemma {:induction false} LEConcat(s: seq<byte>, t: seq<byte>)
    ensures LE(s + t) == LE(s) + Pow256(|s|) * LE(t)
  {
    if |s| == 0 {
      assert s + t == t;
    } else {
      assert (s + t)[1..] == s[1..] + t;
      LEConcat(s[1..], t);
      Scaled(Pow256(|s| - 1), LE(t));
    }
  }

  lemma Scaled(w: nat, v: nat)
    ensures (256 * w) * v == 256 * (w * v)
  {
  }

  lemma LEOne(x: byte)
    ensures LE([x]) == x as int
  {
    assert [x][1..] == [];
  }

  lemma {:induction false} LEBound(s: seq<byte>)
    ensures LE(s) < Pow256(|s|)
  {
    if |s| > 0 {
      LEBound(s[1..]);
    }
  }

  /** Equal length and equal value mean equal bytes. */
  lemma {:induction false} LEInjective(s: seq<byte>, t: seq<byte>)
    requires |s| == |t| && LE(s) == LE(t)
    ensures s == t
  {
    if |s| > 0 {
      DivModUnique(LE(s), 256, LE(s[1..]), s[0] as int);
      DivModUnique(LE(t), 256, LE(t[1..]), t[0] as int);
      LEInjective(s[1..], t[1..]);
      assert s == [s[0]] + s[1..] && t == [t[0]] + t[1..];
    }
  }

  /** Bit t of the number is bit t mod 8 of byte t / 8. */
  lemma {:induction false} LEBit(s: seq<byte>, t: nat)
    requires t / 8 < |s|
    ensures (LE(s) / Pow2(t)) % 2 == (s[t / 8] as int / Pow2(t % 8)) % 2
  {
    if t < 8 {
      LowBit(s[0] as int, LE(s[1..]), t);
    } else {
      LEBit(s[1..], t - 8);
      assert s[1..][(t - 8) / 8] == s[t / 8];
      Pow2Add(8, t - 8);
      assert Pow2(8) == 256;
      DropLow(s[0] as int, LE(s[1..]), 256, Pow2(t - 8));
    }
  }

  lemma LowBit(x: int, r: int, t: nat)
    requires 0 <= x < 256 && t < 8
    ensures ((x + 256 * r) / Pow2(t)) % 2 == (x / Pow2(t)) % 2
  {
    Pow2Add(t, 8 - t);
    assert Pow2(8) == 256 && Pow2(8 - t) == 2 * Pow2(7 - t);
    HighPart(x, r, Pow2(t), Pow2(7 - t));
  }

  lemma HighPart(x: int, r: int, m: int, q: int)
    requires m > 0 && m * (2 * q) == 256
    ensures ((x + 256 * r) / m) % 2 == (x / m) % 2
  {
    var h := q * r;
    assert 256 * r == (2 * h) * m by {
      calc {
        256 * r;
        (m * (2 * q)) * r;
        (2 * h) * m;
      }
    }
    ModShift(x, 2 * h, m);
    DivModUnique(x + 256 * r, m, x / m + 2 * h, x % m);
    ModShift(x / m, h, 2);
  }

  lemma DropLow(x: int, r: nat, b: nat, m: nat)
    requires 0 <= x < b && m > 0
    ensures b * m > 0 && (x + b * r) / (b * m) == r / m
  {
    var q, k := r / m, r % m;
    assert b * m > 0;
    assert b * r == q * (b * m) + b * k by {
      assert r == q * m + k;
    }
    assert b * k <= b * (m - 1) by {
      MulMono(b, k, m - 1);
    }
    assert x + b * k < b * m by {
      assert b * (m - 1) == b * m - b;
    }
    DivModUnique(x + b * r, b * m, q, x + b * k);
  }
}
