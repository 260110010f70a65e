/** Unsigned machine words: arithmetic on these types may not overflow; truncation is written out. */
module Words {
  import opened Arith
  import Bits

  newtype uint32 = x: int | 0 <= x < 0x1_0000_0000
  newtype uint64 = x: int | 0 <= x < 0x1_0000_0000_0000_0000

  function And32(a: uint32, b: uint32): uint32
  {
    Bits.AndBound(a as int, b as int);
    Bits.And(a as int, b as int) as uint32
  }

  function Or32(a: uint32, b: uint32): uint32
  {
    Pow2At32();
    Bits.OrBound(a as int, b as int, 32);
    Bits.Or(a as int, b as int) as uint32
  }

  lemma Pow2At32()
    ensures Pow2(32) == TWO32
  {
    assert Pow2(4) == 16;
    Pow2Add(4, 4);
    Pow2Add(8, 8);
    Pow2Add(16, 16);
  }

  /** The low 32 bits of a wider value, as a cast to uint32_t keeps them. */
  function Low32(x: int): uint32
  {
    (x % TWO32) as uint32
  }
}
