/** The set of pieces as it travels: one bit a piece, the first in the high bit of the first byte. */
module Bitfield {
  import opened Counting

  datatype Octet = Octet(bits: bv8)

  /** The bit of place k in a byte, counted from the high end. */
  function Mask(k: nat): bv8
  {
    if k == 0 then 0x80 else if k == 1 then 0x40 else if k == 2 then 0x20 else if k == 3 then 0x10
    else if k == 4 then 0x08 else if k == 5 then 0x04 else if k == 6 then 0x02 else if k == 7 then 0x01 else 0
  }

  /** The first place is the high bit, each next one half of it, and the low s places are the number 2^s - 1. */
  lemma MaskOrder(k: nat)
    ensures Mask(0) == 0x80 && (k < 7 ==> Mask(k + 1) == Mask(k) >> 1) && Mask(7) == 1
    ensures LowMask(0) == 0 && LowMask(1) == 1 && LowMask(2) == 3 && LowMask(3) == 7 && LowMask(4) == 15 && LowMask(5) == 31
    ensures LowMask(6) == 63 && LowMask(7) == 127 && LowMask(8) == 255
  {
    if k == 0 {} else if k == 1 {} else if k == 2 {} else if k == 3 {} else if k == 4 {} else if k == 5 {} else {}
  }

  predicate Bit(o: Octet, k: nat)
  {
    o.bits & Mask(k) != 0
  }

  function With(o: Octet, k: nat, value: bool): Octet
  {
    Octet(if value then o.bits | Mask(k) else o.bits & !Mask(k))
  }

  lemma MaskApart(k: nat, j: nat)
    ensures k < 8 && j < 8 && j != k ==> Mask(k) & Mask(j) == 0
    ensures k < 8 ==> Mask(k) != 0
  {
    if k == 0 {} else if k == 1 {} else if k == 2 {} else if k == 3 {} else if k == 4 {} else if k == 5 {} else if k == 6 {} else {}
  }

  /** Setting one bit changes that bit and no other. */
  lemma WithBit(o: Octet, k: nat, value: bool, j: nat)
    requires k < 8 && j < 8
    ensures Bit(With(o, k, value), j) == if j == k then value else Bit(o, j)
  {
    MaskApart(k, j);
    var m, n := Mask(k), Mask(j);
    hide Mask;
    BitwiseSet(o.bits, m, n);
  }

  lemma BitwiseSet(x: bv8, m: bv8, n: bv8)
    ensures m & n == 0 ==> (x | m) & n == x & n && (x & !m) & n == x & n
    ensures (x | m) & m == m && (x & !m) & m == 0
  {
  }

  /** The low s bits of a byte, one after another, are what the shifted mask covers. */
  function LowMask(s: nat): bv8
    requires s <= 8
  {
    if s == 0 then 0 else LowMask(s - 1) | Mask(8 - s)
  }

  lemma {:induction false} PaddingMask(o: Octet, s: nat)
    requires s <= 8
    ensures o.bits & LowMask(s) == 0 <==> forall k :: 8 - s <= k < 8 ==> !Bit(o, k)
  {
    if s > 0 {
      PaddingMask(o, s - 1);
      var m, n := LowMask(s - 1), Mask(8 - s);
      assert LowMask(s) == m | n;
      BitIs(o, 8 - s);
      hide Mask, LowMask, Bit;
      AndOr(o.bits, m, n);
    }
  }

  lemma BitIs(o: Octet, k: nat)
    ensures Bit(o, k) <==> o.bits & Mask(k) != 0
  {
  }

  lemma AndOr(x: bv8, m: bv8, n: bv8)
    ensures x & (m | n) == 0 <==> x & m == 0 && x & n == 0
  {
  }

  // --- all the bits of some bytes -----------------------------------------------------------------

  function BitsOf(o: Octet): (s: seq<bool>)
    ensures |s| == 8 && forall k :: 0 <= k < 8 ==> s[k] == Bit(o, k)
  {
    [Bit(o, 0), Bit(o, 1), Bit(o, 2), Bit(o, 3), Bit(o, 4), Bit(o, 5), Bit(o, 6), Bit(o, 7)]
  }

  function AllBits(data: seq<Octet>): (s: seq<bool>)
    ensures |s| == 8 * |data|
  {
    if |data| == 0 then [] else AllBits(data[..|data| - 1]) + BitsOf(data[|data| - 1])
  }

  lemma {:induction false} AllBitsAt(data: seq<Octet>, i: nat)
    requires i < 8 * |data|
    ensures AllBits(data)[i] == Bit(data[i / 8], i % 8)
  {
    hide Bit;
    var n := |data| - 1;
    if i < 8 * n {
      AllBitsAt(data[..n], i);
    }
  }

  lemma {:induction false} AllBitsWith(data: seq<Octet>, i: nat, value: bool)
    requires i < 8 * |data|
    ensures AllBits(data[i / 8 := With(data[i / 8], i % 8, value)]) == AllBits(data)[i := value]
  {
    hide Bit, With, AllBits;
    var changed := data[i / 8 := With(data[i / 8], i % 8, value)];
    forall j | 0 <= j < 8 * |data|
      ensures AllBits(changed)[j] == AllBits(data)[i := value][j]
    {
      AllBitsAt(data, j);
      AllBitsAt(changed, j);
      SamePlace(i, j);
      if j / 8 == i / 8 {
        WithBit(data[i / 8], i % 8, value, j % 8);
      }
    }
  }

  lemma SamePlace(i: nat, j: nat)
    ensures i == j <==> i / 8 == j / 8 && i % 8 == j % 8
  {
  }

  // --- the object ---------------------------------------------------------------------------------

  class Bits {
    var data: seq<Octet>
    var size: nat
    var count: nat

    /** The set the bytes stand for. */
    ghost function View(): (v: seq<bool>)
      requires size <= 8 * |data|
      reads this
      ensures |v| == size
    {
      AllBits(data)[..size]
    }

    /** As many bytes as needed, an exact count, and no bit beyond the last piece. */
    ghost predicate Valid()
      reads this
    {
      && |data| == (size + 7) / 8 && count == CountTrue(View())
      && forall i :: size <= i < 8 * |data| ==> !AllBits(data)[i]
    }

    constructor ()
      ensures Valid() && size == 0
    {
      data, size, count := [], 0, 0;
    }

    method Resize(bits: nat)
      modifies this
      ensures Valid() && size == bits && forall i :: 0 <= i < bits ==> !View()[i]
    {
      hide Bit;
      size, count := bits, 0;
      data := seq((bits + 7) / 8, _ => Octet(0));
      forall i | 0 <= i < 8 * |data|
        ensures !AllBits(data)[i]
      {
        AllBitsAt(data, i);
        BitIs(Octet(0), i % 8);
      }
      CountTrueNone(View());
    }

    method Get(index: nat) returns (r: bool)
      requires Valid()
      ensures r == (index < size && View()[index])
    {
      hide Bit;
      if index >= size {
        return false;
      }
      AllBitsAt(data, index);
      r := Bit(data[index / 8], index % 8);
    }

    method Set(index: nat, value: bool)
      requires Valid()
      modifies this
      ensures Valid() && size == old(size)
      ensures View() == if index < size then old(View())[index := value] else old(View())
    {
      hide Bit, With, AllBits;
      if index >= size {
        return;
      }
      AllBitsAt(data, index);
      var was := Bit(data[index / 8], index % 8);
      if value == was {
        assert View()[index := value] == View();
        return;
      }
      AllBitsWith(data, index, value);
      ghost var before := View();
      if value {
        CountTrueUpdate(before, index);
        count := count + 1;
      } else {
        CountTrueClear(before, index);
        count := count - 1;
      }
      data := data[index / 8 := With(data[index / 8], index % 8, value)];
      assert View() == before[index := value];
    }

    /** from_bytes: taken only with the right number of bytes and no padding bit set. */
    method FromBytes(bytes: seq<Octet>, bits: nat) returns (ok: bool)
      requires Valid()
      modifies this
      ensures Valid()
      ensures ok <==> |bytes| == (bits + 7) / 8 && forall i :: bits <= i < 8 * |bytes| ==> !AllBits(bytes)[i]
      ensures ok ==> size == bits && data == bytes && View() == AllBits(bytes)[..bits]
      ensures !ok ==> data == old(data) && size == old(size)
    {
      hide Bit, AllBits, LowMask;
      if |bytes| != (bits + 7) / 8 {
        return false;
      }
      var spare := |bytes| * 8 - bits;
      if spare > 0 {
        PaddingOf(bytes, bits, spare);
        if bytes[|bytes| - 1].bits & LowMask(spare) != 0 {
          return false;
        }
      }
      size, data := bits, bytes;
      count := CountBits(bytes);
      CountTrueSum(AllBits(data)[..size], AllBits(data)[size..]);
      CountTrueNone(AllBits(data)[size..]);
      assert AllBits(data) == AllBits(data)[..size] + AllBits(data)[size..];
      return true;
    }
  }

  lemma PaddingOf(bytes: seq<Octet>, bits: nat, spare: nat)
    requires |bytes| > 0 && spare == |bytes| * 8 - bits && 0 < spare < 8
    ensures bytes[|bytes| - 1].bits & LowMask(spare) == 0 <==> forall i :: bits <= i < 8 * |bytes| ==> !AllBits(bytes)[i]
  {
    hide Bit, AllBits, LowMask;
    var n, last := |bytes| - 1, bytes[|bytes| - 1];
    PaddingMask(last, spare);
    if last.bits & LowMask(spare) == 0 {
      forall i | bits <= i < 8 * |bytes|
        ensures !AllBits(bytes)[i]
      {
        AllBitsAt(bytes, i);
        assert 8 - spare <= i - 8 * n < 8;
      }
    } else {
      var k: int :| 8 - spare <= k < 8 && Bit(last, k);
      AllBitsAt(bytes, 8 * n + k);
      assert AllBits(bytes)[8 * n + k];
    }
  }

  /** The counting loop. */
  method CountBits(bytes: seq<Octet>) returns (count: nat)
    ensures count == CountTrue(AllBits(bytes))
  {
    hide Bit;
    count := 0;
    assert AllBits(bytes[..0]) == [];
    for i := 0 to |bytes|
      invariant count == CountTrue(AllBits(bytes[..i]))
    {
      var ones := CountOctet(bytes[i]);
      assert bytes[..i + 1][..i] == bytes[..i];
      CountTrueSum(AllBits(bytes[..i]), BitsOf(bytes[i]));
      count := count + ones;
    }
    assert bytes[..|bytes|] == bytes;
  }

  method CountOctet(o: Octet) returns (ones: nat)
    ensures ones == CountTrue(BitsOf(o))
  {
    hide Bit;
    ones := 0;
    ghost var s := BitsOf(o);
    assert s[..0] == [];
    for b := 0 to 8
      invariant ones == CountTrue(s[..b])
    {
      assert s[..b + 1][..b] == s[..b];
      if Bit(o, b) {
        ones := ones + 1;
      }
    }
    assert s[..8] == s;
  }
}
