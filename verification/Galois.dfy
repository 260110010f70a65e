/** The field GF(256) modulo 0x11D and its tables, as QR codes use it (ISO/IEC 18004:2015, section 7.5.2). */
module Galois {

  /** Addition, which is also subtraction. */
  function Add(a: bv8, b: bv8): bv8
  {
    a ^ b
  }

  /** Multiplication by the element 2. */
  function Xtime(a: bv8): bv8
  {
    (a << 1) ^ (if a & 0x80 != 0 then 0x1d else 0)
  }

  /** What one bit of the right factor contributes. */
  function Pick(a: bv8, b: bv8): bv8
  {
    if b & 1 == 1 then a else 0
  }

  /** The reference product: shift and add over the low n bits of b. */
  function MulN(a: bv8, b: bv8, n: nat): bv8
    decreases n
  {
    if n == 0 then 0 else Add(Pick(a, b), Xtime(MulN(a, b >> 1, n - 1)))
  }

  function Mul(a: bv8, b: bv8): bv8
  {
    MulN(a, b, 8)
  }

  // --- doubling -------------------------------------------------------------------------------

  lemma XtimeAdd(a: bv8, b: bv8)
    ensures Xtime(Add(a, b)) == Add(Xtime(a), Xtime(b))
  {
    assert (a ^ b) << 1 == (a << 1) ^ (b << 1);
    assert (a ^ b) & 0x80 == (a & 0x80) ^ (b & 0x80);
    assert a & 0x80 == 0 || a & 0x80 == 0x80;
    assert b & 0x80 == 0 || b & 0x80 == 0x80;
    if a & 0x80 == 0 {
      if b & 0x80 == 0 {} else {}
    } else if b & 0x80 == 0 {
    } else {
    }
  }

  lemma XtimeZero(c: bv8)
    ensures Xtime(c) == 0 <==> c == 0
  {
    if c & 0x80 == 0 {} else {}
  }

  lemma AddIsZero(a: bv8, b: bv8)
    ensures Add(a, b) == 0 <==> a == b
  {
  }

  lemma AddZero(a: bv8)
    ensures Add(a, 0) == a && Add(0, a) == a && Add(a, a) == 0
  {
  }

  lemma XtimeInjective(a: bv8, b: bv8)
    requires Xtime(a) == Xtime(b)
    ensures a == b
  {
    XtimeAdd(a, b);
    XtimeZero(Add(a, b));
    hide Xtime;
    AddIsZero(a, b);
    AddIsZero(Xtime(a), Xtime(b));
    hide Add;
  }

  // --- the ring of products ---------------------------------------------------------------------

  lemma MulNStep(a: bv8, b: bv8, n: nat)
    requires n > 0
    ensures MulN(a, b, n) == Add(Pick(a, b), Xtime(MulN(a, b >> 1, n - 1)))
  {
  }

  lemma MulNNone(a: bv8, b: bv8)
    ensures MulN(a, b, 0) == 0
  {
  }

  lemma PickAdd(a: bv8, b: bv8, c: bv8)
    ensures Pick(Add(a, b), c) == Add(Pick(a, c), Pick(b, c))
    ensures Pick(a, Add(b, c)) == Add(Pick(a, b), Pick(a, c))
    ensures Add(b, c) >> 1 == Add(b >> 1, c >> 1)
  {
    assert (b ^ c) & 1 == (b & 1) ^ (c & 1);
    assert b & 1 == 0 || b & 1 == 1;
    assert c & 1 == 0 || c & 1 == 1;
    if b & 1 == 1 {
      if c & 1 == 1 {} else {}
    } else if c & 1 == 1 {
    } else {
    }
  }

  lemma AddAssociates(a: bv8, b: bv8, c: bv8)
    ensures Add(Add(a, b), c) == Add(a, Add(b, c))
  {
  }

  lemma AddCommutes(a: bv8, b: bv8)
    ensures Add(a, b) == Add(b, a)
  {
  }

  lemma AddSwap(p: bv8, q: bv8, x: bv8, y: bv8)
    ensures Add(Add(p, q), Add(x, y)) == Add(Add(p, x), Add(q, y))
  {
    hide Add;
    AddAssociates(Add(p, q), x, y);
    AddAssociates(p, q, x);
    AddCommutes(q, x);
    AddAssociates(p, x, q);
    AddAssociates(Add(p, x), q, y);
  }

  lemma {:induction false} MulNAddLeft(a: bv8, b: bv8, c: bv8, n: nat)
    ensures MulN(Add(a, b), c, n) == Add(MulN(a, c, n), MulN(b, c, n))
    decreases n
  {
    hide Xtime, MulN, Pick, Add;
    MulNNone(a, c);
    MulNNone(b, c);
    MulNNone(Add(a, b), c);
    AddZero(0);
    if n > 0 {
      MulNStep(a, c, n);
      MulNStep(b, c, n);
      MulNStep(Add(a, b), c, n);
      var x, y := MulN(a, c >> 1, n - 1), MulN(b, c >> 1, n - 1);
      MulNAddLeft(a, b, c >> 1, n - 1);
      XtimeAdd(x, y);
      PickAdd(a, b, c);
      AddSwap(Pick(a, c), Pick(b, c), Xtime(x), Xtime(y));
    }
  }

  lemma {:induction false} MulNAddRight(a: bv8, b: bv8, c: bv8, n: nat)
    ensures MulN(a, Add(b, c), n) == Add(MulN(a, b, n), MulN(a, c, n))
    decreases n
  {
    hide Xtime, MulN, Pick, Add;
    MulNNone(a, b);
    MulNNone(a, c);
    MulNNone(a, Add(b, c));
    AddZero(0);
    if n > 0 {
      MulNStep(a, b, n);
      MulNStep(a, c, n);
      MulNStep(a, Add(b, c), n);
      var x, y := MulN(a, b >> 1, n - 1), MulN(a, c >> 1, n - 1);
      MulNAddRight(a, b >> 1, c >> 1, n - 1);
      XtimeAdd(x, y);
      PickAdd(a, b, c);
      AddSwap(Pick(a, b), Pick(a, c), Xtime(x), Xtime(y));
    }
  }

  lemma PickXtime(a: bv8, b: bv8)
    ensures Pick(Xtime(a), b) == Xtime(Pick(a, b)) && Pick(0, b) == 0
  {
    XtimeZero(0);
    hide Xtime;
    if b & 1 == 1 {} else {}
  }

  lemma {:induction false} MulNXtimeLeft(a: bv8, b: bv8, n: nat)
    ensures MulN(Xtime(a), b, n) == Xtime(MulN(a, b, n))
    decreases n
  {
    hide Xtime, MulN, Pick, Add;
    XtimeZero(0);
    MulNNone(a, b);
    MulNNone(Xtime(a), b);
    if n > 0 {
      MulNStep(a, b, n);
      MulNStep(Xtime(a), b, n);
      MulNXtimeLeft(a, b >> 1, n - 1);
      XtimeAdd(Pick(a, b), Xtime(MulN(a, b >> 1, n - 1)));
      PickXtime(a, b);
    }
  }

  lemma {:induction false} MulNZero(b: bv8, n: nat)
    ensures MulN(0, b, n) == 0
    decreases n
  {
    XtimeZero(0);
    hide Xtime;
    if n > 0 {
      MulNZero(b >> 1, n - 1);
    }
  }

  /** n ones. */
  function Mask(n: nat): bv8
  {
    if n == 0 then 0 else (Mask(n - 1) << 1) | 1
  }

  lemma {:induction false} MulNOneLeft(b: bv8, n: nat)
    ensures MulN(1, b, n) == b & Mask(n)
    decreases n
  {
    if n > 0 {
      MulNOneLeft(b >> 1, n - 1);
      JoinLowBit(b, Mask(n - 1));
    }
  }

  lemma JoinLowBit(b: bv8, m: bv8)
    ensures Add(Pick(1, b), Xtime((b >> 1) & m)) == b & ((m << 1) | 1)
  {
    assert ((b >> 1) & m) & 0x80 == 0;
    assert b & 1 == 0 || b & 1 == 1;
    if b & 1 == 1 {} else {}
  }

  // The width is a variable below, so that the product is not unfolded eight times.

  lemma MulOneLeft(b: bv8, n: nat)
    requires n == 8
    ensures Mul(1, b) == MulN(1, b, n) == b && Mul(0, b) == MulN(0, b, n) == 0
  {
    MulNOneLeft(b, n);
    MulNZero(b, n);
    assert Mask(8) == 0xff;
    hide Xtime, MulN, Mask;
  }

  lemma MulAdd(a: bv8, b: bv8, c: bv8, n: nat)
    requires n == 8
    ensures Mul(a, Add(b, c)) == Add(Mul(a, b), Mul(a, c))
    ensures Mul(Add(b, c), a) == Add(Mul(b, a), Mul(c, a))
  {
    hide MulN;
    MulNAddRight(a, b, c, n);
    MulNAddLeft(b, c, a, n);
  }

  lemma MulIs(a: bv8, b: bv8, n: nat)
    requires n == 8
    ensures Mul(a, b) == MulN(a, b, n)
  {
    hide MulN;
  }

  lemma {:induction false} MulNSwaps(a: bv8, b: bv8, n: nat, w: nat)
    requires w == 8
    ensures MulN(a, b, n) == Mul(MulN(1, b, n), a)
    decreases n
  {
    hide Xtime, MulN, Mul, Pick, Add;
    MulOneLeft(a, w);
    MulNNone(a, b);
    MulNNone(1, b);
    if n > 0 {
      MulNStep(a, b, n);
      MulNStep(1, b, n);
      var m := MulN(1, b >> 1, n - 1);
      MulNSwaps(a, b >> 1, n - 1, w);
      XtimeOut(m, a, w);
      MulAdd(a, Pick(1, b), Xtime(m), w);
      PickOne(a, b, w);
    }
  }

  lemma XtimeOut(a: bv8, b: bv8, n: nat)
    requires n == 8
    ensures Mul(Xtime(a), b) == Xtime(Mul(a, b))
  {
    hide MulN, Xtime;
    MulNXtimeLeft(a, b, n);
  }

  lemma PickOne(a: bv8, b: bv8, n: nat)
    requires n == 8
    ensures Mul(Pick(1, b), a) == Pick(a, b)
  {
    MulOneLeft(a, n);
    hide Mul;
    if b & 1 == 1 {} else {}
  }

  lemma MulCommutes(a: bv8, b: bv8, n: nat)
    requires n == 8
    ensures Mul(a, b) == Mul(b, a)
  {
    MulIs(a, b, n);
    hide Mul, MulN;
    MulNSwaps(a, b, n, n);
    MulOneLeft(b, n);
  }

  lemma MulUnits(a: bv8, n: nat)
    requires n == 8
    ensures Mul(a, 1) == a && Mul(1, a) == a && Mul(a, 0) == 0 && Mul(0, a) == 0
  {
    hide Mul;
    MulOneLeft(a, n);
    MulCommutes(a, 1, n);
    MulCommutes(a, 0, n);
  }

  lemma MulXtime(a: bv8, b: bv8, n: nat)
    requires n == 8
    ensures Mul(a, Xtime(b)) == Xtime(Mul(a, b)) && Mul(Xtime(a), b) == Xtime(Mul(a, b))
  {
    hide Xtime, Mul;
    XtimeOut(a, b, n);
    XtimeOut(b, a, n);
    MulCommutes(a, b, n);
    MulCommutes(a, Xtime(b), n);
  }

  lemma PickProduct(a: bv8, b: bv8, c: bv8, n: nat)
    requires n == 8
    ensures Pick(Mul(a, b), c) == Mul(a, Pick(b, c))
  {
    MulUnits(a, n);
    hide Mul;
    if c & 1 == 1 {} else {}
  }

  lemma {:induction false} MulNAssociates(a: bv8, b: bv8, c: bv8, n: nat, w: nat)
    requires w == 8
    ensures MulN(Mul(a, b), c, n) == Mul(a, MulN(b, c, n))
    decreases n
  {
    hide Xtime, Mul, MulN, Pick, Add;
    MulUnits(a, w);
    MulNNone(b, c);
    MulNNone(Mul(a, b), c);
    if n > 0 {
      MulNStep(b, c, n);
      MulNStep(Mul(a, b), c, n);
      var m := MulN(b, c >> 1, n - 1);
      MulNAssociates(a, b, c >> 1, n - 1, w);
      MulXtime(a, m, w);
      MulAdd(a, Pick(b, c), Xtime(m), w);
      PickProduct(a, b, c, w);
    }
  }

  lemma MulAssociates(a: bv8, b: bv8, c: bv8, n: nat)
    requires n == 8
    ensures Mul(Mul(a, b), c) == Mul(a, Mul(b, c))
  {
    MulIs(Mul(a, b), c, n);
    MulIs(b, c, n);
    hide Mul, MulN;
    MulNAssociates(a, b, c, n, n);
  }

  // --- powers of the generator ------------------------------------------------------------------

  /** The powers of 2, which is the primitive element of the field. */
  function Power(i: nat): bv8
  {
    if i == 0 then 1 else Xtime(Power(i - 1))
  }

  lemma {:induction false} PowerAdd(i: nat, j: nat, w: nat)
    requires w == 8
    ensures Mul(Power(i), Power(j)) == Power(i + j)
    decreases j
  {
    hide Mul, Xtime;
    if j == 0 {
      MulUnits(Power(i), w);
    } else {
      PowerAdd(i, j - 1, w);
      MulXtime(Power(i), Power(j - 1), w);
    }
  }

  lemma {:induction false} PowerNonzero(i: nat)
    ensures Power(i) != 0
  {
    hide Xtime;
    if i > 0 {
      PowerNonzero(i - 1);
      XtimeZero(Power(i - 1));
    }
  }

  /** None of n consecutive powers from the i-th on is 1. */
  ghost predicate NeverOne(i: nat, n: nat)
  {
    forall j :: i <= j < i + n ==> Power(j) != 1
  }

  // Doubling 2, 4, ... 64 times, and whether 1 is met before the end.

  function Xtime2(a: bv8): bv8 { Xtime(Xtime(a)) }

  function Xtime4(a: bv8): bv8 { Xtime2(Xtime2(a)) }

  function Xtime8(a: bv8): bv8 { Xtime4(Xtime4(a)) }

  function Xtime16(a: bv8): bv8 { Xtime8(Xtime8(a)) }

  function Xtime32(a: bv8): bv8 { Xtime16(Xtime16(a)) }

  function Xtime64(a: bv8): bv8 { Xtime32(Xtime32(a)) }

  predicate Misses2(a: bv8) { a != 1 && Xtime(a) != 1 }

  predicate Misses4(a: bv8) { Misses2(a) && Misses2(Xtime2(a)) }

  predicate Misses8(a: bv8) { Misses4(a) && Misses4(Xtime4(a)) }

  predicate Misses16(a: bv8) { Misses8(a) && Misses8(Xtime8(a)) }

  predicate Misses32(a: bv8) { Misses16(a) && Misses16(Xtime16(a)) }

  predicate Misses64(a: bv8) { Misses32(a) && Misses32(Xtime32(a)) }

  lemma Run2(i: nat)
    ensures Power(i + 2) == Xtime2(Power(i)) && (Misses2(Power(i)) ==> NeverOne(i, 2))
  {
    hide Xtime;
    assert Power(i + 1) == Xtime(Power(i));
  }

  lemma Run4(i: nat)
    ensures Power(i + 4) == Xtime4(Power(i)) && (Misses4(Power(i)) ==> NeverOne(i, 4))
  {
    hide Power, Xtime2, Misses2;
    Run2(i);
    Run2(i + 2);
  }

  lemma Run8(i: nat)
    ensures Power(i + 8) == Xtime8(Power(i)) && (Misses8(Power(i)) ==> NeverOne(i, 8))
  {
    hide Power, Xtime4, Misses4;
    Run4(i);
    Run4(i + 4);
  }

  lemma Run16(i: nat)
    ensures Power(i + 16) == Xtime16(Power(i)) && (Misses16(Power(i)) ==> NeverOne(i, 16))
  {
    hide Power, Xtime8, Misses8;
    Run8(i);
    Run8(i + 8);
  }

  lemma Run32(i: nat)
    ensures Power(i + 32) == Xtime32(Power(i)) && (Misses32(Power(i)) ==> NeverOne(i, 32))
  {
    hide Power, Xtime16, Misses16;
    Run16(i);
    Run16(i + 16);
  }

  lemma Run64(i: nat)
    ensures Power(i + 64) == Xtime64(Power(i)) && (Misses64(Power(i)) ==> NeverOne(i, 64))
  {
    hide Power, Xtime32, Misses32;
    Run32(i);
    Run32(i + 32);
  }

  lemma FirstHalf()
    ensures Misses16(2) && Xtime16(2) == 152 && Misses16(152) && Xtime16(152) == 39
  {
  }

  lemma FirstOtherHalf()
    ensures Misses16(39) && Xtime16(39) == 140 && Misses16(140) && Xtime16(140) == 190
  {
  }

  lemma FirstRun()
    ensures Misses64(2) && Xtime64(2) == 190
  {
    hide Misses16, Xtime16;
    FirstHalf();
    FirstOtherHalf();
  }

  lemma SecondHalf()
    ensures Misses16(190) && Xtime16(190) == 231 && Misses16(231) && Xtime16(231) == 175
  {
  }

  lemma SecondOtherHalf()
    ensures Misses16(175) && Xtime16(175) == 31 && Misses16(31) && Xtime16(31) == 23
  {
  }

  lemma SecondRun()
    ensures Misses64(190) && Xtime64(190) == 23
  {
    hide Misses16, Xtime16;
    SecondHalf();
    SecondOtherHalf();
  }

  lemma ThirdHalf()
    ensures Misses16(23) && Xtime16(23) == 77 && Misses16(77) && Xtime16(77) == 209
  {
  }

  lemma ThirdOtherHalf()
    ensures Misses16(209) && Xtime16(209) == 219 && Misses16(219) && Xtime16(219) == 25
  {
  }

  lemma ThirdRun()
    ensures Misses64(23) && Xtime64(23) == 25
  {
    hide Misses16, Xtime16;
    ThirdHalf();
    ThirdOtherHalf();
  }

  lemma LastParts()
    ensures Misses16(25) && Xtime16(25) == 162 && Misses16(162) && Xtime16(162) == 36
  {
  }

  lemma LastTail()
    ensures Misses16(36) && Xtime16(36) == 88
    ensures Misses8(88) && Xtime8(88) == 54 && Misses4(54) && Xtime4(54) == 71
    ensures Misses2(71) && Xtime2(71) == 1
  {
  }

  lemma LastRun()
    ensures Misses32(25) && Xtime32(25) == 36 && Misses16(36) && Xtime16(36) == 88
    ensures Misses8(88) && Xtime8(88) == 54 && Misses4(54) && Xtime4(54) == 71
    ensures Misses2(71) && Xtime2(71) == 1
  {
    hide Misses16, Xtime16;
    LastParts();
    LastTail();
  }

  /** The element 2 has order exactly 255. */
  lemma Primitive(n: nat)
    requires n == 255
    ensures Power(n) == 1 && NeverOne(1, n - 1)
  {
    assert Power(n - 254) == 2 by {
      assert Power(1) == Xtime(1) == 2;
    }
    hide *;
    var i := n - 254;
    FirstRun();
    SecondRun();
    ThirdRun();
    LastRun();
    Run64(i);
    Run64(i + 64);
    Run64(i + 128);
    Run32(i + 192);
    Run16(i + 224);
    Run8(i + 240);
    Run4(i + 248);
    Run2(i + 252);
    NeverOnePasted(n);
  }

  lemma NeverOnePasted(n: nat)
    requires n == 255 && NeverOne(n - 254, 64) && NeverOne(n - 190, 64) && NeverOne(n - 126, 64)
    requires NeverOne(n - 62, 32) && NeverOne(n - 30, 16) && NeverOne(n - 14, 8) && NeverOne(n - 6, 4) && NeverOne(n - 2, 2)
    ensures NeverOne(1, n - 1)
  {
    hide Power;
  }

  lemma {:induction false} PowerPeriod(i: nat, n: nat)
    requires n == 255
    ensures Power(i + n) == Power(i)
    decreases i
  {
    hide Xtime;
    Primitive(n);
    if i > 0 {
      PowerPeriod(i - 1, n);
    }
  }

  lemma {:induction false} PowerCancels(i: nat, j: nat, n: nat)
    requires Power(i + n) == Power(j + n)
    ensures Power(i) == Power(j)
    decreases n
  {
    hide Xtime;
    if n > 0 {
      XtimeInjective(Power(i + n - 1), Power(j + n - 1));
      PowerCancels(i, j, n - 1);
    }
  }

  lemma {:induction false} PowerInjective(i: nat, j: nat, n: nat)
    requires i < j < n == 255
    ensures Power(i) != Power(j)
  {
    hide Xtime;
    if Power(i) == Power(j) {
      PowerCancels(0, j - i, i);
      Primitive(n);
    }
  }

  // --- every nonzero element is a power ---------------------------------------------------------

  /** The first n powers, read as numbers. */
  ghost function Powers(n: nat): set<nat>
  {
    if n == 0 then {} else Powers(n - 1) + {Power(n - 1) as nat}
  }

  lemma {:induction false} IndexIn(a: bv8, n: nat) returns (i: nat)
    requires a as nat in Powers(n)
    ensures i < n && Power(i) == a
  {
    hide Power;
    i := n - 1;
    if a as nat in Powers(n - 1) {
      i := IndexIn(a, n - 1);
    } else {
      SameByte(a, Power(n - 1));
    }
  }

  lemma SameByte(a: bv8, b: bv8)
    requires a as int == b as int
    ensures a == b
  {
    assert (a as int) as bv8 == a && (b as int) as bv8 == b;
  }

  lemma {:induction false} PowersSize(n: nat, w: nat)
    requires n <= w == 255
    ensures |Powers(n)| == n
    decreases n
  {
    hide Power;
    if n > 0 {
      PowersSize(n - 1, w);
      if Power(n - 1) as nat in Powers(n - 1) {
        var i := IndexIn(Power(n - 1), n - 1);
        PowerInjective(i, n - 1, w);
      }
    }
  }

  lemma {:induction false} PowersRange(n: nat, w: nat)
    requires w == 255
    ensures Powers(n) <= Upto(w)
    decreases n
  {
    hide Power, Upto;
    UptoSize(w);
    if n > 0 {
      PowersRange(n - 1, w);
      PowerNonzero(n - 1);
      NonzeroByte(Power(n - 1));
    }
  }

  lemma NonzeroByte(a: bv8)
    requires a != 0
    ensures 1 <= a as int <= 255
  {
    if a as int == 0 {
      SameByte(a, 0);
    }
  }

  ghost function Upto(n: nat): set<nat>
  {
    if n == 0 then {} else Upto(n - 1) + {n}
  }

  lemma {:induction false} UptoSize(n: nat)
    ensures |Upto(n)| == n && forall x :: x in Upto(n) <==> 1 <= x <= n
  {
    if n > 0 {
      UptoSize(n - 1);
    }
  }

  lemma {:induction false} SubsetSize(a: set<nat>, b: set<nat>)
    requires a <= b
    ensures |a| <= |b|
    decreases a
  {
    if a != {} {
      var x :| x in a;
      SubsetSize(a - {x}, b - {x});
    }
  }

  lemma {:induction false} Logarithm(a: bv8, n: nat) returns (i: nat)
    requires a != 0 && n == 255
    ensures i < n && Power(i) == a
  {
    hide Power, Powers, Upto;
    PowersSize(n, n);
    PowersRange(n, n);
    UptoSize(n);
    NonzeroByte(a);
    if a as nat !in Powers(n) {
      SubsetSize(Powers(n) + {a as nat}, Upto(n));
    }
    i := IndexIn(a, n);
  }

  // --- the tables ---------------------------------------------------------------------------------

  class GaloisTables {
    const exp: array<bv8>
    const log: array<nat>

    ghost predicate Valid()
      reads exp, log
    {
      && exp.Length == 512 && log.Length == 256
      && (forall i :: 0 <= i < 512 ==> exp[i] == Power(i))
      && forall a: bv8 :: a != 0 ==> IsLog(log, a)
    }

    constructor ()
      ensures Valid() && fresh(exp) && fresh(log)
    {
      exp, log := new bv8[512](_ => 0), new nat[256](_ => 0);
      new;
      FillFirst(255);
      FillRest(255);
    }

    /** The first loop. x is the low byte of the code's wider integer; its ninth bit is the carry. */
    method FillFirst(n: nat)
      requires exp.Length == 512 && log.Length == 256 && n == 255
      modifies exp, log
      ensures forall j :: 0 <= j < n ==> exp[j] == Power(j)
      ensures forall a: bv8 :: a != 0 ==> IsLog(log, a)
    {
      hide Xtime, LogsBelow, IsLog;
      NoLogs(log);
      var x: bv8 := 1;
      for i := 0 to n
        invariant x == Power(i)
        invariant forall j :: 0 <= j < i ==> exp[j] == Power(j)
        invariant LogsBelow(log, i)
      {
        exp[i] := x;
        Record(i, x, n);
        x := Double(x);
      }
      AllLogged(log, n);
    }

    method Record(i: nat, x: bv8, n: nat)
      requires log.Length == 256 && i < n == 255 && x == Power(i) && LogsBelow(log, i)
      modifies log
      ensures LogsBelow(log, i + 1)
    {
      hide Power;
      log[x as int] := i;
      forall j | 0 <= j < i
        ensures Power(j) as int != x as int
      {
        PowerInjective(j, i, n);
        if Power(j) as int == x as int {
          SameByte(Power(j), x);
        }
      }
    }

    /** The second loop: doubled, so that the sum of two logarithms needs no reduction. */
    method FillRest(n: nat)
      requires exp.Length == 512 && n == 255
      requires forall j :: 0 <= j < n ==> exp[j] == Power(j)
      modifies exp
      ensures forall j :: 0 <= j < 512 ==> exp[j] == Power(j)
    {
      hide Power;
      for i := n to 512
        invariant forall j :: 0 <= j < i ==> exp[j] == Power(j)
      {
        PowerPeriod(i - n, n);
        exp[i] := exp[i - n];
      }
    }

    /** gf_mul: the product by logarithms is the product of the field. */
    method Product(a: bv8, b: bv8) returns (r: bv8)
      requires Valid()
      ensures r == Mul(a, b)
    {
      hide Power, Mul;
      MulUnits(a, 8);
      MulUnits(b, 8);
      assert (a != 0 ==> IsLog(log, a)) && (b != 0 ==> IsLog(log, b));
      if a == 0 || b == 0 {
        return 0;
      }
      var s := log[a as int] + log[b as int];
      PowerAdd(log[a as int], log[b as int], 8);
      return exp[s];
    }
  }

  method Double(a: bv8) returns (r: bv8)
    ensures r == Xtime(a)
  {
    var carry := a & 0x80 != 0;
    r := a << 1;
    if carry {
      r := r ^ 0x1d;
    }
  }

  ghost predicate IsLog(log: array<nat>, a: bv8)
    requires log.Length == 256
    reads log
  {
    log[a as int] < 255 && Power(log[a as int]) == a
  }

  lemma NoLogs(log: array<nat>)
    requires log.Length == 256
    ensures LogsBelow(log, 0)
  {
  }

  lemma AllLogged(log: array<nat>, n: nat)
    requires log.Length == 256 && n == 255 && LogsBelow(log, n)
    ensures forall a: bv8 :: a != 0 ==> IsLog(log, a)
  {
    hide Power;
    forall a: bv8 | a != 0
      ensures IsLog(log, a)
    {
      var i := Logarithm(a, n);
    }
  }

  ghost predicate LogsBelow(log: array<nat>, i: nat)
    requires log.Length == 256
    reads log
  {
    forall j :: 0 <= j < i ==> log[Power(j) as int] == j
  }
}
