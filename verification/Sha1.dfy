/** SHA-1 fed piece by piece (sections 5.1.1 and 6.1.2 of FIPS 180-4); the compression function is a parameter. */
module Sha1 {
  import opened Arith
  import opened Bytes

  const BLOCK: nat := 64

  type Chain = seq<nat>
  type Compress = (Chain, seq<byte>) -> Chain

  /** The chaining value after the whole blocks of data. */
  function Fold(f: Compress, h: Chain, data: seq<byte>): Chain
    decreases |data|
  {
    if |data| < BLOCK then h else Fold(f, f(h, data[..BLOCK]), data[BLOCK..])
  }

  function Big64(n: nat): (s: seq<byte>)
    ensures |s| == 8
  {
    seq(8, i requires 0 <= i < 8 => (n / Pow256(7 - i) % 256) as byte)
  }

  /** Zeros that bring a message and its 0x80 to 56 modulo 64. */
  function Gap(n: nat): nat
  {
    (119 - n % BLOCK) % BLOCK
  }

  function Pad(m: seq<byte>): seq<byte>
  {
    m + [0x80] + Zeros(Gap(|m|)) + Big64(8 * |m| % TWO64)
  }

  lemma GapFits(n: nat)
    ensures (n + 1 + Gap(n)) % BLOCK == 56 && (n + 9 + Gap(n)) % BLOCK == 0
  {
    var q, r := n / 64, n % 64;
    assert Gap(n) == if r <= 55 then 55 - r else 119 - r;
    assert n + 1 + Gap(n) == 56 + 64 * if r <= 55 then q else q + 1;
  }

  lemma PadWhole(m: seq<byte>)
    ensures |Pad(m)| % BLOCK == 0 && (|m| + 1 + Gap(|m|)) % BLOCK == 56
  {
    PadLength(m);
    hide Pad, Gap;
    GapFits(|m|);
  }

  lemma PadLength(m: seq<byte>)
    ensures |Pad(m)| == |m| + 9 + Gap(|m|)
  {
    hide Gap, Big64, Zeros;
  }

  lemma {:induction false} BigRead(s: seq<byte>, n: nat)
    requires forall i :: 0 <= i < |s| ==> s[i] as int == n / Pow256(|s| - 1 - i) % 256
    ensures BE(s) == n % Pow256(|s|)
  {
    if |s| > 0 {
      var t := s[..|s| - 1];
      forall i | 0 <= i < |t|
        ensures t[i] as int == (n / 256) / Pow256(|t| - 1 - i) % 256
      {
        DivTwice(n, 256, Pow256(|t| - 1 - i));
      }
      BigRead(t, n / 256);
      assert s[|s| - 1] as int == n / Pow256(0) % 256 == n % 256;
      DigitSplit(n, Pow256(|t|));
    }
  }

  lemma Big64Read(n: nat)
    requires n < TWO64
    ensures BE(Big64(n)) == n
  {
    BigRead(Big64(n), n);
    Pow256Eight();
    ModSmall(n, TWO64);
  }

  /** Section 5.1.1 of FIPS 180-4: the message, a one bit, zeros, and the length in bits, big end first, in whole blocks. */
  lemma PadShape(m: seq<byte>)
    ensures var p := Pad(m);
            && |p| % BLOCK == 0 && |m| + 9 <= |p| < |m| + 9 + BLOCK
            && p[..|m|] == m && p[|m|] == 0x80 && (forall i :: |m| < i < |p| - 8 ==> p[i] == 0)
            && BE(p[|p| - 8..]) == 8 * |m| % TWO64
  {
    hide Big64, BE;
    PadWhole(m);
    var p, n := Pad(m), 8 * |m| % TWO64;
    Big64Read(n);
    assert p[|p| - 8..] == Big64(n);
  }

  /** Below 2^61 bytes, different messages are padded differently. */
  lemma PadInjective(m: seq<byte>, n: seq<byte>)
    requires |m| < 0x2000_0000_0000_0000 && |n| < 0x2000_0000_0000_0000 && Pad(m) == Pad(n)
    ensures m == n
  {
    PadShape(m);
    PadShape(n);
    hide Pad, BE;
    ModSmall(8 * |m|, TWO64);
    ModSmall(8 * |n|, TWO64);
  }

  /** The digest, as the chaining value after the padded message. */
  function Digest(f: Compress, iv: Chain, m: seq<byte>): Chain
  {
    Fold(f, iv, Pad(m))
  }

  lemma {:induction false} FoldGoesOn(f: Compress, h: Chain, a: seq<byte>, b: seq<byte>)
    requires |a| % BLOCK == 0
    ensures Fold(f, h, a + b) == Fold(f, Fold(f, h, a), b)
    decreases |a|
  {
    if |a| == 0 {
      assert a + b == b;
    } else {
      assert (a + b)[..BLOCK] == a[..BLOCK] && (a + b)[BLOCK..] == a[BLOCK..] + b;
      FoldGoesOn(f, f(h, a[..BLOCK]), a[BLOCK..], b);
    }
  }

  lemma FoldOne(f: Compress, h: Chain, block: seq<byte>)
    requires |block| == BLOCK
    ensures Fold(f, h, block) == f(h, block)
  {
    assert block[..BLOCK] == block;
  }

  /** h is the chain over the whole blocks of msg, and rest is what follows them. */
  ghost predicate Streams(f: Compress, iv: Chain, msg: seq<byte>, h: Chain, rest: seq<byte>)
  {
    && |rest| <= |msg| && (|msg| - |rest|) % BLOCK == 0
    && rest == msg[|msg| - |rest|..] && h == Fold(f, iv, msg[..|msg| - |rest|])
  }

  lemma StreamsNone(f: Compress, iv: Chain)
    ensures Streams(f, iv, [], iv, [])
  {
  }

  lemma StreamsMore(f: Compress, iv: Chain, msg: seq<byte>, h: Chain, rest: seq<byte>, more: seq<byte>)
    requires Streams(f, iv, msg, h, rest)
    ensures Streams(f, iv, msg + more, h, rest + more)
  {
    var n := |msg| - |rest|;
    assert (msg + more)[..n] == msg[..n] && (msg + more)[n..] == rest + more;
  }

  lemma StreamsBlock(f: Compress, iv: Chain, msg: seq<byte>, h: Chain, rest: seq<byte>)
    requires Streams(f, iv, msg, h, rest) && |rest| >= BLOCK
    ensures Streams(f, iv, msg, f(h, rest[..BLOCK]), rest[BLOCK..])
  {
    var n := |msg| - |rest|;
    FoldGoesOn(f, iv, msg[..n], rest[..BLOCK]);
    FoldOne(f, h, rest[..BLOCK]);
    assert msg[..n + BLOCK] == msg[..n] + rest[..BLOCK];
    assert rest[BLOCK..] == msg[n + BLOCK..];
  }

  class Hasher {
    const f: Compress
    const iv: Chain
    const buf: array<byte>
    var h: Chain
    var bufLen: nat
    var totalBits: nat
    ghost var msg: seq<byte>

    ghost predicate Valid()
      reads this, buf
    {
      buf.Length == BLOCK && bufLen < BLOCK && Streams(f, iv, msg, h, buf[..bufLen])
    }

    /** The 64-bit count of the bits fed in. */
    ghost predicate Counted()
      reads this
    {
      totalBits == 8 * |msg| % TWO64
    }

    constructor (f: Compress, iv: Chain)
      ensures Valid() && Counted() && fresh(buf) && msg == [] && totalBits == 0 && this.f == f && this.iv == iv
    {
      this.f, this.iv, h := f, iv, iv;
      buf := new byte[BLOCK];
      bufLen, totalBits, msg := 0, 0, [];
      new;
      StreamsNone(f, iv);
      assert buf[..0] == [];
    }

    /** update, for any split of the input. */
    method Update(data: seq<byte>)
      requires Valid()
      modifies this, buf
      ensures Valid() && msg == old(msg) + data && totalBits == (old(totalBits) + 8 * |data|) % TWO64
      ensures old(Counted()) ==> Counted()
    {
      hide Streams, Fold;
      CountMore(|msg|, |data|);
      ghost var all := old(msg) + data;
      totalBits := (totalBits + 8 * |data|) % TWO64;
      var rest := data;
      StreamsMore(f, iv, msg, h, buf[..bufLen], data);
      if bufLen > 0 {
        var need := BLOCK - bufLen;
        var take := if |data| < need then |data| else need;
        rest := Complete(data, take);
        if bufLen < BLOCK {
          assert rest == [] && buf[..bufLen] + rest == buf[..bufLen];
          msg := all;
          return;
        }
        assert buf[..bufLen] == buf[..];
        assert (buf[..] + rest)[..BLOCK] == buf[..] && (buf[..] + rest)[BLOCK..] == rest;
        StreamsBlock(f, iv, all, h, buf[..] + rest);
        assert Streams(f, iv, all, f(h, buf[..]), rest);
        h := f(h, buf[..]);
        bufLen := 0;
      } else {
        assert buf[..0] + data == data;
      }
      while |rest| >= BLOCK
        invariant Streams(f, iv, all, h, rest) && bufLen == 0
        invariant totalBits == (old(totalBits) + 8 * |data|) % TWO64
      {
        StreamsBlock(f, iv, all, h, rest);
        h := f(h, rest[..BLOCK]);
        rest := rest[BLOCK..];
      }
      Keep(rest);
      msg := all;
    }

    /** Moves the first bytes of data behind what the buffer holds. */
    method Complete(data: seq<byte>, take: nat) returns (rest: seq<byte>)
      requires buf.Length == BLOCK && take <= |data| && bufLen + take <= BLOCK
      modifies this`bufLen, buf
      ensures bufLen == old(bufLen) + take && rest == data[take..]
      ensures buf[..bufLen] + rest == old(buf[..bufLen]) + data
    {
      ghost var before := buf[..bufLen];
      for i := 0 to take
        invariant bufLen == old(bufLen) && buf[..bufLen + i] == before + data[..i]
      {
        buf[bufLen + i] := data[i];
        assert data[..i + 1] == data[..i] + [data[i]];
        assert buf[..bufLen + i + 1] == buf[..bufLen + i] + [data[i]];
      }
      bufLen := bufLen + take;
      rest := data[take..];
      assert data == data[..take] + rest;
    }

    method Keep(rest: seq<byte>)
      requires buf.Length == BLOCK && |rest| < BLOCK && bufLen == 0
      modifies this`bufLen, buf
      ensures bufLen == |rest| && buf[..bufLen] == rest
    {
      var none := Complete(rest, |rest|);
      assert buf[..bufLen] + [] == buf[..bufLen] && [] + rest == rest;
    }

    /** digest: equal to the digest of the concatenation of everything fed in. */
    method Finish() returns (out: Chain)
      requires Valid() && Counted()
      modifies this, buf
      ensures out == Digest(f, iv, old(msg)) && h == out
    {
      hide Streams, Fold, Pad, Big64;
      ghost var m := msg;
      var bits := totalBits;
      Update([0x80]);
      totalBits := bits;
      ghost var zeros: nat := 0;
      assert m + [0x80] + Zeros(0) == m + [0x80];
      RestLength();
      while bufLen != 56
        invariant Valid() && totalBits == bits && msg == m + [0x80] + Zeros(zeros) && zeros <= Gap(|m|)
        invariant bufLen == (|m| + 1 + zeros) % BLOCK
        decreases Gap(|m|) - zeros
      {
        PadWhole(m);
        Update([0]);
        totalBits := bits;
        RestLength();
        assert Zeros(zeros) + [0] == Zeros(zeros + 1);
        assert m + [0x80] + Zeros(zeros) + [0] == m + [0x80] + Zeros(zeros + 1);
        zeros := zeros + 1;
      }
      GapReached(|m|, zeros);
      StreamsMore(f, iv, msg, h, buf[..56], Big64(bits));
      var tail := Complete(Big64(bits), 8);
      assert buf[..BLOCK] == buf[..] && tail == [] && buf[..] + tail == buf[..];
      LastBlock(msg + Big64(bits), h, buf[..]);
      assert msg + Big64(bits) == Pad(m) by {
        PadIs(m);
      }
      h := f(h, buf[..]);
      bufLen := 0;
      out := h;
    }

    lemma RestLength()
      requires Valid()
      ensures bufLen == |msg| % BLOCK
    {
      hide Fold;
    }

    lemma LastBlock(all: seq<byte>, h: Chain, block: seq<byte>)
      requires Streams(f, iv, all, h, block) && |block| == BLOCK
      ensures Fold(f, iv, all) == f(h, block)
    {
      hide Fold;
      StreamsBlock(f, iv, all, h, block);
      assert block[..BLOCK] == block;
      assert block[BLOCK..] == [] && all[..|all|] == all;
    }
  }

  lemma PadIs(m: seq<byte>)
    ensures Pad(m) == m + [0x80] + Zeros(Gap(|m|)) + Big64(8 * |m| % TWO64)
  {
  }

  lemma GapReached(n: nat, zeros: nat)
    requires zeros <= Gap(n) && (n + 1 + zeros) % BLOCK == 56
    ensures zeros == Gap(n)
  {
  }

  lemma CountMore(n: nat, k: nat)
    ensures (8 * n % TWO64 + 8 * k) % TWO64 == 8 * (n + k) % TWO64
  {
    ModShift(8 * n % TWO64 + 8 * k, 8 * n / TWO64, TWO64);
  }

  /** Feeding a message in any pieces gives the digest of the whole. */
  method DigestOfPieces(f: Compress, iv: Chain, pieces: seq<seq<byte>>) returns (out: Chain)
    ensures out == Digest(f, iv, Joined(pieces))
  {
    hide Digest, Streams;
    var hasher := new Hasher(f, iv);
    JoinedPrefix(pieces, 0);
    for i := 0 to |pieces|
      invariant hasher.Valid() && hasher.Counted() && fresh(hasher) && fresh(hasher.buf) && hasher.f == f && hasher.iv == iv
      invariant hasher.msg == Joined(pieces[..i])
    {
      JoinedPrefix(pieces, i + 1);
      hasher.Update(pieces[i]);
    }
    assert pieces[..|pieces|] == pieces;
    out := hasher.Finish();
  }
}
