/** BLAKE2s fed piece by piece (section 3.3 of RFC 7693); the compression function is a parameter. */
module Blake2s {
  import opened Arith
  import opened Bytes
  import Bits

  const BLOCK: nat := 64

  type Chain = seq<nat>

  /** Chaining value, block, 64-bit byte counter, last-block flag. */
  type Compress = (Chain, seq<byte>, nat, bool) -> Chain

  /** The whole hash: every block but the last as it is, the last one padded and flagged, even when empty. */
  function Hash(f: Compress, h: Chain, d: seq<byte>, t: nat): Chain
    decreases |d|
  {
    if |d| <= BLOCK then f(h, d + Zeros(BLOCK - |d|), (t + |d|) % TWO64, true)
    else Hash(f, f(h, d[..BLOCK], (t + BLOCK) % TWO64, false), d[BLOCK..], t + BLOCK)
  }

  /** A key goes in front as a block of its own. */
  function Keyed(key: seq<byte>, d: seq<byte>): seq<byte>
    requires |key| <= BLOCK
  {
    if |key| == 0 then d else key + Zeros(BLOCK - |key|) + d
  }

  /** The parameter block goes into the first word (section 2.5). */
  function Parameters(iv: Chain, outLen: nat, keyLen: nat): Chain
    requires |iv| > 0
  {
    iv[0 := Bits.Xor(iv[0], Bits.Xor(Bits.Xor(0x01010000, keyLen * 256), outLen))]
  }

  lemma {:induction false} XorDisjoint(h: nat, l: nat, n: nat)
    requires l < Pow2(n)
    ensures Bits.Xor(h * Pow2(n), l) == h * Pow2(n) + l
  {
    hide Bits.Xor;
    if n == 0 {
      Bits.XorZero(h);
      assert h * Pow2(0) == h;
    } else {
      var m := Pow2(n - 1);
      XorDisjoint(h, l / 2, n - 1);
      Bits.TwiceProduct(h, m);
      XorJoin(h * m, l);
    }
  }

  lemma XorJoin(x: nat, l: nat)
    ensures Bits.Xor(2 * x, l) == 2 * Bits.Xor(x, l / 2) + l % 2
  {
  }

  /** The parameter word of an unkeyed or keyed hash with fan-out and depth 1, as a number. */
  lemma ParameterWord(keyLen: nat, outLen: nat)
    requires keyLen < 256 && outLen < 256
    ensures Bits.Xor(Bits.Xor(0x01010000, keyLen * 256), outLen) == 0x01010000 + 256 * keyLen + outLen
  {
    hide Bits.Xor;
    assert Pow2(8) == 256 && Pow2(16) == 65536;
    XorDisjoint(0x0101, keyLen * 256, 16);
    XorDisjoint(0x010100 + keyLen, outLen, 8);
  }

  /** Key, zeros, message. */
  lemma KeyedParts(key: seq<byte>, d: seq<byte>)
    requires 0 < |key| <= BLOCK
    ensures var m := Keyed(key, d);
            |m| == BLOCK + |d| && m[..|key|] == key && (forall i :: |key| <= i < BLOCK ==> m[i] == 0) && m[BLOCK..] == d
  {
  }

  /** The chain after whole blocks none of which is the last. */
  function Fold(f: Compress, h: Chain, d: seq<byte>, t: nat): Chain
    decreases |d|
  {
    if |d| < BLOCK then h else Fold(f, f(h, d[..BLOCK], (t + BLOCK) % TWO64, false), d[BLOCK..], t + BLOCK)
  }

  lemma {:induction false} FoldGoesOn(f: Compress, h: Chain, a: seq<byte>, block: seq<byte>, t: nat)
    requires |a| % BLOCK == 0 && |block| == BLOCK
    ensures Fold(f, h, a + block, t) == f(Fold(f, h, a, t), block, (t + |a| + BLOCK) % TWO64, false)
    decreases |a|
  {
    if |a| == 0 {
      assert a + block == block && block[..BLOCK] == block;
    } else {
      assert (a + block)[..BLOCK] == a[..BLOCK] && (a + block)[BLOCK..] == a[BLOCK..] + block;
      FoldGoesOn(f, f(h, a[..BLOCK], (t + BLOCK) % TWO64, false), a[BLOCK..], block, t + BLOCK);
    }
  }

  /** The whole hash is the chain up to the last block, and then the last block. */
  lemma {:induction false} HashIsFold(f: Compress, h: Chain, a: seq<byte>, rest: seq<byte>, t: nat)
    requires |a| % BLOCK == 0 && |rest| <= BLOCK && (|a| > 0 ==> |rest| > 0)
    ensures Hash(f, h, a + rest, t) == f(Fold(f, h, a, t), rest + Zeros(BLOCK - |rest|), (t + |a| + |rest|) % TWO64, true)
    decreases |a|
  {
    if |a| == 0 {
      assert a + rest == rest;
    } else {
      assert (a + rest)[..BLOCK] == a[..BLOCK] && (a + rest)[BLOCK..] == a[BLOCK..] + rest;
      HashIsFold(f, f(h, a[..BLOCK], (t + BLOCK) % TWO64, false), a[BLOCK..], rest, t + BLOCK);
    }
  }

  /** h is the chain over whole blocks of msg, and rest is what follows them. */
  ghost predicate Streams(f: Compress, start: Chain, msg: seq<byte>, h: Chain, rest: seq<byte>)
  {
    && |rest| <= |msg| && (|msg| - |rest|) % BLOCK == 0
    && rest == msg[|msg| - |rest|..] && h == Fold(f, start, msg[..|msg| - |rest|], 0)
  }

  lemma StreamsNone(f: Compress, start: Chain)
    ensures Streams(f, start, [], start, [])
  {
  }

  lemma StreamsMore(f: Compress, start: Chain, msg: seq<byte>, h: Chain, rest: seq<byte>, data: seq<byte>)
    requires Streams(f, start, msg, h, rest)
    ensures Streams(f, start, msg + data, h, rest + data)
  {
    hide Fold;
    var n := |msg| - |rest|;
    assert (msg + data)[..n] == msg[..n] && (msg + data)[n..] == rest + data;
  }

  lemma StreamsBlock(f: Compress, start: Chain, msg: seq<byte>, h: Chain, rest: seq<byte>)
    requires Streams(f, start, msg, h, rest) && |rest| >= BLOCK
    ensures Streams(f, start, msg, f(h, rest[..BLOCK], (|msg| - |rest| + BLOCK) % TWO64, false), rest[BLOCK..])
  {
    hide Fold;
    var n := |msg| - |rest|;
    FoldNext(f, start, msg, n);
    assert rest[..BLOCK] == msg[n..n + BLOCK];
    assert rest[BLOCK..] == msg[n + BLOCK..];
    assert |msg| - |rest[BLOCK..]| == n + BLOCK;
  }

  lemma FoldNext(f: Compress, start: Chain, msg: seq<byte>, n: nat)
    requires n % BLOCK == 0 && n + BLOCK <= |msg|
    ensures Fold(f, start, msg[..n + BLOCK], 0) == f(Fold(f, start, msg[..n], 0), msg[n..n + BLOCK], (n + BLOCK) % TWO64, false)
    ensures (n + BLOCK) % BLOCK == 0
  {
    hide Fold;
    FoldGoesOn(f, start, msg[..n], msg[n..n + BLOCK], 0);
    assert msg[..n + BLOCK] == msg[..n] + msg[n..n + BLOCK];
  }

  /** The last block is compressed only now, flagged, padded and counted exactly. */
  lemma StreamsEnd(f: Compress, start: Chain, msg: seq<byte>, h: Chain, rest: seq<byte>)
    requires Streams(f, start, msg, h, rest) && |rest| <= BLOCK && (|msg| > 0 ==> |rest| > 0)
    ensures Hash(f, start, msg, 0) == f(h, rest + Zeros(BLOCK - |rest|), |msg| % TWO64, true)
  {
    hide Fold, Hash;
    var n := |msg| - |rest|;
    HashIsFold(f, start, msg[..n], rest, 0);
    assert msg == msg[..n] + rest;
  }

  class State {
    const f: Compress
    const buf: array<byte>
    var h: Chain
    var t0: nat
    var t1: nat
    var bufLen: nat
    ghost var start: Chain
    ghost var msg: seq<byte>  // what has been fed in, the key block included

    function Counter(): nat
      reads this
    {
      t0 + t1 * TWO32
    }

    /** The counter is exact modulo 2^64, and once there is input the buffer is never empty. */
    ghost predicate Valid()
      reads this, buf
    {
      && buf.Length == BLOCK && bufLen <= BLOCK && bufLen <= |msg| && (|msg| > 0 ==> bufLen > 0)
      && t0 < TWO32 && t1 < TWO32 && Counter() == (|msg| - bufLen) % TWO64
      && Streams(f, start, msg, h, buf[..bufLen])
    }

    /** blake2s_init_key */
    constructor (f: Compress, iv: Chain, outLen: nat, key: seq<byte>)
      requires |iv| > 0 && |key| <= 32
      ensures Valid() && fresh(buf) && this.f == f
      ensures start == Parameters(iv, outLen, |key|) && msg == Keyed(key, [])
    {
      this.f := f;
      buf := new byte[BLOCK](_ => 0);
      h, start := Parameters(iv, outLen, |key|), Parameters(iv, outLen, |key|);
      t0, t1, bufLen, msg := 0, 0, 0, [];
      new;
      hide Streams, Fold, Hash, Bits.Xor, Parameters;
      StreamsNone(f, start);
      assert buf[..0] == [];
      assert |key| == 0 ==> Keyed(key, []) == [];
      if |key| > 0 {
        assert [] + (key + Zeros(BLOCK - |key|)) == Keyed(key, []);
        Update(key + Zeros(BLOCK - |key|));
      }
    }

    /** increment_counter, over two 32-bit words. */
    method Increment(inc: nat)
      requires inc <= BLOCK && t0 < TWO32 && t1 < TWO32
      modifies this`t0, this`t1
      ensures t0 < TWO32 && t1 < TWO32 && Counter() == (old(Counter()) + inc) % TWO64
    {
      CarryCount(t0, t1, inc);
      t0 := (t0 + inc) % TWO32;
      if t0 < inc {
        t1 := (t1 + 1) % TWO32;
      }
    }

    /** blake2s_update, for any split of the input. */
    method Update(data: seq<byte>)
      requires Valid()
      modifies this, buf
      ensures Valid() && msg == old(msg) + data && start == old(start)
    {
      hide Streams, Fold, Hash;
      if |data| == 0 {
        assert msg + data == msg;
        return;
      }
      ghost var all := msg + data;
      var rest := data;
      StreamsMore(f, start, msg, h, buf[..bufLen], data);
      var fill := BLOCK - bufLen;
      if |data| > fill {
        rest := FirstBlock(data, all);
        while |rest| > BLOCK
          invariant 0 < |rest| <= |all| && bufLen == 0 && msg == old(msg) && start == old(start)
          invariant t0 < TWO32 && t1 < TWO32 && Counter() == (|all| - |rest|) % TWO64
          invariant Streams(f, start, all, h, rest)
        {
          rest := NextBlock(rest, all);
        }
      }
      assert |data| <= fill ==> rest == data;
      if |data| > fill {
        assert buf[..0] + rest == rest;
      }
      Append(rest);
      msg := all;
    }

    /** Compresses a block that lies in the input. */
    method NextBlock(input: seq<byte>, ghost all: seq<byte>) returns (rest: seq<byte>)
      requires |input| > BLOCK && Streams(f, start, all, h, input) && |input| <= |all|
      requires t0 < TWO32 && t1 < TWO32 && Counter() == (|all| - |input|) % TWO64
      modifies this`h, this`t0, this`t1
      ensures rest == input[BLOCK..] && Streams(f, start, all, h, rest)
      ensures t0 < TWO32 && t1 < TWO32 && Counter() == (|all| - |rest|) % TWO64
    {
      hide Streams, Fold, Hash;
      StreamsBlock(f, start, all, h, input);
      CountBlock(|all| - |input|);
      Increment(BLOCK);
      h := f(h, input[..BLOCK], Counter(), false);
      rest := input[BLOCK..];
    }

    /** Fills the buffer up and compresses it. */
    method FirstBlock(data: seq<byte>, ghost all: seq<byte>) returns (rest: seq<byte>)
      requires buf.Length == BLOCK && bufLen <= BLOCK && |data| > BLOCK - bufLen && bufLen + |data| <= |all|
      requires Streams(f, start, all, h, buf[..bufLen] + data)
      requires t0 < TWO32 && t1 < TWO32 && Counter() == (|all| - bufLen - |data|) % TWO64
      modifies this`h, this`t0, this`t1, this`bufLen, buf
      ensures bufLen == 0 && 0 < |rest| <= |all| && Streams(f, start, all, h, rest)
      ensures t0 < TWO32 && t1 < TWO32 && Counter() == (|all| - |rest|) % TWO64
    {
      hide Streams, Fold, Hash;
      var fill := BLOCK - bufLen;
      ghost var whole := buf[..bufLen] + data;
      Append(data[..fill]);
      rest := data[fill..];
      assert whole == buf[..] + rest by {
        assert data == data[..fill] + rest;
        assert buf[..BLOCK] == buf[..];
      }
      assert whole[..BLOCK] == buf[..] && whole[BLOCK..] == rest;
      StreamsBlock(f, start, all, h, whole);
      CountBlock(|all| - |whole|);
      Increment(BLOCK);
      h := f(h, buf[..], Counter(), false);
      bufLen := 0;
    }

    method Append(data: seq<byte>)
      requires buf.Length == BLOCK && bufLen + |data| <= BLOCK
      modifies this`bufLen, buf
      ensures bufLen == old(bufLen) + |data| && buf[..bufLen] == old(buf[..bufLen]) + data
    {
      ghost var before := buf[..bufLen];
      for i := 0 to |data|
        invariant bufLen == old(bufLen) && buf[..bufLen + i] == before + data[..i]
      {
        buf[bufLen + i] := data[i];
        assert data[..i + 1] == data[..i] + [data[i]];
        assert buf[..bufLen + i + 1] == buf[..bufLen + i] + [data[i]];
      }
      bufLen := bufLen + |data|;
      assert data[..|data|] == data;
    }

    /** blake2s_final: the hash of everything fed in. */
    method Final() returns (out: Chain)
      requires Valid()
      modifies this, buf
      ensures out == Hash(f, old(start), old(msg), 0)
    {
      hide Streams, Fold, Hash;
      StreamsEnd(f, start, msg, h, buf[..bufLen]);
      CountRest(|msg|, bufLen);
      Increment(bufLen);
      Append(Zeros(BLOCK - bufLen));
      assert buf[..BLOCK] == buf[..];
      h := f(h, buf[..], Counter(), true);
      out := h;
    }
  }

  /** The carry is seen in the low word having become smaller than what was added. */
  lemma CarryCount(t0: nat, t1: nat, inc: nat)
    requires inc <= BLOCK && t0 < TWO32 && t1 < TWO32
    ensures var low := (t0 + inc) % TWO32; var high := if low < inc then (t1 + 1) % TWO32 else t1;
            low + high * TWO32 == (t0 + t1 * TWO32 + inc) % TWO64
  {
    var total := t0 + t1 * TWO32 + inc;
    if t0 + inc < TWO32 {
      ModSmall(total, TWO64);
    } else if t1 + 1 < TWO32 {
      ModSmall(total, TWO64);
    } else {
      DivModUnique(total, TWO64, 1, t0 + inc - TWO32);
    }
  }

  lemma CountBlock(n: nat)
    ensures (n % TWO64 + BLOCK) % TWO64 == (n + BLOCK) % TWO64
  {
    ModShift(n % TWO64 + BLOCK, n / TWO64, TWO64);
  }

  lemma CountRest(n: nat, k: nat)
    requires k <= n
    ensures ((n - k) % TWO64 + k) % TWO64 == n % TWO64
  {
    ModShift((n - k) % TWO64 + k, (n - k) / TWO64, TWO64);
  }

  /** blake2s: feeding a message in any pieces, keyed or not, gives the hash of the whole. */
  method HashOfPieces(f: Compress, iv: Chain, outLen: nat, key: seq<byte>, pieces: seq<seq<byte>>) returns (out: Chain)
    requires |iv| > 0 && |key| <= 32
    ensures out == Hash(f, Parameters(iv, outLen, |key|), Keyed(key, Joined(pieces)), 0)
  {
    hide Hash, Fold, Streams, Parameters, Bits.Xor, Keyed;
    var s := new State(f, iv, outLen, key);
    JoinedPrefix(pieces, 0);
    for i := 0 to |pieces|
      invariant s.Valid() && fresh(s) && fresh(s.buf) && s.f == f && s.start == Parameters(iv, outLen, |key|)
      invariant s.msg == Keyed(key, Joined(pieces[..i]))
    {
      JoinedPrefix(pieces, i + 1);
      KeyedMore(key, Joined(pieces[..i]), pieces[i]);
      s.Update(pieces[i]);
    }
    assert pieces[..|pieces|] == pieces;
    out := s.Final();
  }

  lemma KeyedMore(key: seq<byte>, d: seq<byte>, more: seq<byte>)
    requires |key| <= BLOCK
    ensures Keyed(key, d + more) == Keyed(key, d) + more
  {
  }
}
