/** The 64-message window of WireGuard (section 5.4.6 of its whitepaper), as bits of one machine word. */
module ReplayWindow {
  import opened Arith
  import Bits

  const WIDTH: nat := 64

  function Bit(w: nat, i: nat): bool
  {
    (w / Pow2(i)) % 2 == 1
  }

  // --- bits of words --------------------------------------------------------------------

  lemma {:induction false} BitHalf(w: nat, i: nat)
    requires i > 0
    ensures Bit(w, i) == Bit(w / 2, i - 1)
  {
    var m := Pow2(i - 1);
    HalfDiv(w, m);
  }

  lemma HalfDiv(w: nat, m: nat)
    requires m > 0
    ensures w / (2 * m) == (w / 2) / m
  {
    var h := w / 2;
    var q, r := h / m, h % m;
    assert w == q * (2 * m) + (2 * r + w % 2) by {
      assert h == q * m + r;
    }
    DivModUnique(w, 2 * m, q, 2 * r + w % 2);
  }

  lemma {:induction false} BitOr(a: nat, b: nat, i: nat)
    ensures Bit(Bits.Or(a, b), i) == (Bit(a, i) || Bit(b, i))
    decreases i
  {
    OrHalves(a, b);
    if i > 0 {
      BitHalf(a, i);
      BitHalf(b, i);
      BitHalf(Bits.Or(a, b), i);
      BitOr(a / 2, b / 2, i - 1);
    }
  }

  lemma OrHalves(a: nat, b: nat)
    ensures Bits.Or(a, b) / 2 == Bits.Or(a / 2, b / 2)
    ensures Bits.Or(a, b) % 2 == 1 <==> a % 2 == 1 || b % 2 == 1
  {
  }

  lemma {:induction false} BitPow2(k: nat, i: nat)
    ensures Bit(Pow2(k), i) <==> i == k
  {
    if i > 0 {
      BitHalf(Pow2(k), i);
      if k > 0 {
        BitPow2(k - 1, i - 1);
      } else {
        NoBits(i - 1);
      }
    }
  }

  lemma NoBits(i: nat)
    ensures !Bit(0, i)
  {
    DivModUnique(0, Pow2(i), 0, 0);
  }

  lemma {:induction false} BitShifted(w: nat, s: nat, i: nat)
    ensures Bit(w * Pow2(s), i) <==> i >= s && Bit(w, i - s)
  {
    hide Bit;
    if s > 0 {
      var x := w * Pow2(s - 1);
      TwiceProduct(w, Pow2(s - 1));
      EvenLow(x);
      if i > 0 {
        BitHalf(2 * x, i);
        BitShifted(w, s - 1, i - 1);
      }
    }
  }

  lemma TwiceProduct(w: nat, m: nat)
    ensures w * (2 * m) == 2 * (w * m)
  {
  }

  lemma EvenLow(x: nat)
    ensures !Bit(2 * x, 0) && 2 * x / 2 == x
  {
  }

  lemma {:induction false} BitTruncated(w: nat, n: nat, i: nat)
    ensures Bit(w % Pow2(n), i) <==> i < n && Bit(w, i)
  {
    if n == 0 {
      NoBits(i);
    } else {
      Bits.HalfMod(w, Pow2(n - 1));
      var t := w % Pow2(n);
      assert t / 2 == (w / 2) % Pow2(n - 1) && t % 2 == w % 2;
      if i > 0 {
        BitHalf(w, i);
        BitHalf(t, i);
        BitTruncated(w / 2, n - 1, i - 1);
      }
    }
  }

  // --- the window -------------------------------------------------------------------------

  /** The receiving side's view of the counters it has accepted. */
  datatype Window = Window(have: bool, highest: nat, bits: nat)

  const EMPTY: Window := Window(false, 0, 0)

  /** The checks made before a packet is opened; the sum is 64 bits wide. */
  predicate Passes(w: Window, counter: nat)
  {
    !w.have || ((counter + WIDTH) % TWO64 > w.highest && (counter > w.highest || !Bit(w.bits, w.highest - counter)))
  }

  /** The update made once a packet has proved authentic. */
  function Accept(w: Window, counter: nat): Window
  {
    if !w.have then Window(true, counter, 1)
    else if counter > w.highest then
      var shift := counter - w.highest;
      Window(true, counter, if shift >= WIDTH then 1 else Bits.Or((w.bits * Pow2(shift)) % Pow2(64), 1))
    else Window(true, w.highest, Bits.Or(w.bits, Pow2(w.highest - counter)))
  }

  /** The window stands for a set of counters: its maximum, and exact membership near it. */
  ghost predicate Stands(w: Window, seen: set<nat>)
  {
    && (w.have <==> seen != {}) && (w.have ==> w.highest in seen)
    && (forall c :: c in seen ==> c <= w.highest < TWO64)
    && forall c: nat :: w.have && c <= w.highest < c + WIDTH ==> (c in seen <==> Bit(w.bits, w.highest - c))
  }

  lemma {:induction false} AcceptedBits(w: Window, counter: nat, i: nat)
    requires i < WIDTH
    ensures !w.have ==> (Bit(Accept(w, counter).bits, i) <==> i == 0)
    ensures w.have && counter > w.highest ==>
              (Bit(Accept(w, counter).bits, i) <==> i == 0 || (i >= counter - w.highest && Bit(w.bits, i - (counter - w.highest))))
    ensures w.have && counter <= w.highest ==> (Bit(Accept(w, counter).bits, i) <==> Bit(w.bits, i) || i == w.highest - counter)
  {
    hide Bit;
    BitPow2(0, i);
    if w.have && counter > w.highest {
      var shift := counter - w.highest;
      if shift < WIDTH {
        BitShifted(w.bits, shift, i);
        BitTruncated(w.bits * Pow2(shift), 64, i);
        BitOr((w.bits * Pow2(shift)) % Pow2(64), 1, i);
      }
    } else if w.have {
      BitPow2(w.highest - counter, i);
      BitOr(w.bits, Pow2(w.highest - counter), i);
    }
  }

  /** Accepting a counter that passes adds it to the set. */
  lemma {:induction false} AcceptAdds(w: Window, seen: set<nat>, counter: nat)
    requires Stands(w, seen) && counter < TWO64 && Passes(w, counter)
    ensures Stands(Accept(w, counter), seen + {counter})
  {
    hide Bit;
    var v := Accept(w, counter);
    forall c: nat | c <= v.highest < c + WIDTH
      ensures c in seen + {counter} <==> Bit(v.bits, v.highest - c)
    {
      AcceptedBits(w, counter, v.highest - c);
    }
  }

  /** Replay protection, for every 64-bit counter: what has been accepted never passes again. */
  lemma {:induction false} NeverTwice(w: Window, seen: set<nat>, counter: nat)
    requires Stands(w, seen) && counter in seen
    ensures !Passes(w, counter)
  {
    hide Bit;
    if counter + WIDTH < TWO64 {
      ModSmall(counter + WIDTH, TWO64);
    } else {
      DivModUnique(counter + WIDTH, TWO64, 1, counter + WIDTH - TWO64);
    }
  }

  /** Away from the top of the counter space, what passes is what is new and not too old. */
  lemma {:induction false} PassesIff(w: Window, seen: set<nat>, counter: nat)
    requires Stands(w, seen) && counter + WIDTH < TWO64
    ensures Passes(w, counter) <==> counter !in seen && forall c :: c in seen ==> c < counter + WIDTH
  {
    hide Bit;
    ModSmall(counter + WIDTH, TWO64);
  }

  /** In the last 64 counters the sum wraps: they pass only while everything seen lies below it. */
  lemma {:induction false} PassesAtTheTopIff(w: Window, seen: set<nat>, counter: nat)
    requires Stands(w, seen) && counter < TWO64 <= counter + WIDTH
    ensures Passes(w, counter) <==> forall c :: c in seen ==> c < counter + WIDTH - TWO64
  {
    hide Bit;
    DivModUnique(counter + WIDTH, TWO64, 1, counter + WIDTH - TWO64);
  }
}
