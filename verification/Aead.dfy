/** ChaCha20-Poly1305 (section 2.8 of RFC 8439); the ChaCha20 block function is a parameter. */
module Aead {
  import opened Arith
  import opened Bytes
  import opened Options
  import opened Words
  import Bits
  import Poly = Poly1305

  /** Byte j of the block with the given counter, under a key and a nonce. */
  type BlockFn = (seq<byte>, seq<byte>, nat, nat) -> byte

  function Xor8(a: byte, b: byte): byte
  {
    assert Pow2(8) == 256;
    Bits.XorBound(a as int, b as int, 8);
    Bits.Xor(a as int, b as int) as byte
  }

  /** Byte i of the key stream that starts at a block counter; the counter wraps at 32 bits. */
  function StreamByte(f: BlockFn, key: seq<byte>, nonce: seq<byte>, counter: nat, i: nat): byte
  {
    f(key, nonce, (counter + i / 64) % TWO32, i % 64)
  }

  function Stream(f: BlockFn, key: seq<byte>, nonce: seq<byte>, counter: nat, data: seq<byte>): seq<byte>
  {
    seq(|data|, i requires 0 <= i < |data| => Xor8(data[i], StreamByte(f, key, nonce, counter, i)))
  }

  lemma StreamInverts(f: BlockFn, key: seq<byte>, nonce: seq<byte>, counter: nat, data: seq<byte>)
    ensures Stream(f, key, nonce, counter, Stream(f, key, nonce, counter, data)) == data
  {
    var once := Stream(f, key, nonce, counter, data);
    forall i | 0 <= i < |data|
      ensures Stream(f, key, nonce, counter, once)[i] == data[i]
    {
      var k := StreamByte(f, key, nonce, counter, i);
      XorTwice(data[i], k);
    }
  }

  lemma XorTwice(a: byte, k: byte)
    ensures Xor8(Xor8(a, k), k) == a
  {
    Bits.XorCommutes(a as int, k as int);
    Bits.XorCommutes(Bits.Xor(k as int, a as int), k as int);
    Bits.XorCancels(k as int, a as int);
  }

  method ChaCha20Xor(out: array<byte>, input: seq<byte>, f: BlockFn, key: seq<byte>, nonce: seq<byte>, counter: uint32)
    requires out.Length >= |input|
    modifies out
    ensures out[..|input|] == Stream(f, key, nonce, counter as int, input)
    ensures out[|input|..] == old(out[|input|..])
  {
    var ctr: uint32 := counter;
    var at := 0;
    ghost var blocks := 0;
    while at < |input|
      invariant at == if 64 * blocks < |input| then 64 * blocks else |input|
      invariant 64 * blocks < |input| ==> ctr as int == (counter as int + blocks) % TWO32
      invariant forall i :: 0 <= i < at ==> out[i] == Xor8(input[i], StreamByte(f, key, nonce, counter as int, i))
      invariant out[|input|..] == old(out[|input|..])
    {
      var take := if |input| - at < 64 then |input| - at else 64;
      for i := 0 to take
        invariant forall j :: 0 <= j < at + i ==> out[j] == Xor8(input[j], StreamByte(f, key, nonce, counter as int, j))
        invariant out[|input|..] == old(out[|input|..])
      {
        BlockIndex(blocks, i);
        out[at + i] := Xor8(input[at + i], f(key, nonce, ctr as int, i));
      }
      NextCounter(counter as int, blocks);
      ctr := Low32(ctr as int + 1);
      at, blocks := at + take, blocks + 1;
    }
  }

  lemma BlockIndex(b: nat, i: nat)
    requires i < 64
    ensures (64 * b + i) / 64 == b && (64 * b + i) % 64 == i
  {
  }

  lemma NextCounter(c: nat, b: nat)
    ensures ((c + b) % TWO32 + 1) % TWO32 == (c + (b + 1)) % TWO32
  {
    Poly.TruncateFirst(c + b, 1, TWO32);
  }

  // --- authenticated encryption ------------------------------------------------------

  /** The zeros that bring a length to a multiple of 16. */
  function Padding(n: nat): seq<byte>
  {
    if n % 16 == 0 then [] else Zeros(16 - n % 16)
  }

  function Length64(n: nat): seq<byte>
  {
    seq(8, i requires 0 <= i < 8 => ((n / Pow256(i)) % 256) as byte)
  }

  function MacData(aad: seq<byte>, ciphertext: seq<byte>): seq<byte>
  {
    aad + Padding(|aad|) + ciphertext + Padding(|ciphertext|) + (Length64(|aad|) + Length64(|ciphertext|))
  }

  function OneTimeKey(f: BlockFn, key: seq<byte>, nonce: seq<byte>): seq<byte>
  {
    Stream(f, key, nonce, 0, Zeros(64))[..32]
  }

  function TagOf(f: BlockFn, key: seq<byte>, nonce: seq<byte>, aad: seq<byte>, ciphertext: seq<byte>): nat
  {
    Poly.Tag(OneTimeKey(f, key, nonce), MacData(aad, ciphertext))
  }

  datatype Sealed = Sealed(ciphertext: seq<byte>, tag: nat)

  function Seal(f: BlockFn, key: seq<byte>, nonce: seq<byte>, aad: seq<byte>, plaintext: seq<byte>): Sealed
  {
    var c := Stream(f, key, nonce, 1, plaintext);
    Sealed(c, TagOf(f, key, nonce, aad, c))
  }

  function Open(f: BlockFn, key: seq<byte>, nonce: seq<byte>, aad: seq<byte>, box: Sealed): Option<seq<byte>>
  {
    if box.tag == TagOf(f, key, nonce, aad, box.ciphertext) then Some(Stream(f, key, nonce, 1, box.ciphertext)) else None
  }

  /** Opening inverts sealing, and a ciphertext opens under one tag only. */
  lemma OpenInvertsSeal(f: BlockFn, key: seq<byte>, nonce: seq<byte>, aad: seq<byte>, plaintext: seq<byte>, tag: nat)
    ensures var box := Seal(f, key, nonce, aad, plaintext);
            && Open(f, key, nonce, aad, box) == Some(plaintext)
            && (Open(f, key, nonce, aad, Sealed(box.ciphertext, tag)).Some? <==> tag == box.tag)
  {
    StreamInverts(f, key, nonce, 1, plaintext);
  }

  // --- which block is for what ------------------------------------------------------------

  /** The key of the tag is block 0, and only that: block functions that agree there give the same tags. */
  lemma TagFromBlockZero(f: BlockFn, h: BlockFn, key: seq<byte>, nonce: seq<byte>, aad: seq<byte>, ciphertext: seq<byte>)
    requires forall j :: 0 <= j < 64 ==> f(key, nonce, 0, j) == h(key, nonce, 0, j)
    ensures TagOf(f, key, nonce, aad, ciphertext) == TagOf(h, key, nonce, aad, ciphertext)
  {
    hide Poly.Tag, MacData, Xor8;
    assert Stream(f, key, nonce, 0, Zeros(64)) == Stream(h, key, nonce, 0, Zeros(64));
  }

  lemma OneTimeKeyIs(f: BlockFn, key: seq<byte>, nonce: seq<byte>, j: nat)
    requires j < 32
    ensures |OneTimeKey(f, key, nonce)| == 32 && OneTimeKey(f, key, nonce)[j] == f(key, nonce, 0, j)
  {
    Bits.XorCommutes(0, f(key, nonce, 0, j) as int);
    Bits.XorZero(f(key, nonce, 0, j) as int);
  }

  /** The bytes that blocks 1 to 2^32 - 1 cover; the next one comes from block 0. */
  const STREAM_LIMIT: nat := 64 * (TWO32 - 1)

  /** Block functions that agree on every block but 0 give the same ciphertext. */
  ghost predicate SeparateAt(n: nat)
  {
    forall f: BlockFn, h: BlockFn, key: seq<byte>, nonce: seq<byte>, plaintext: seq<byte> ::
      |plaintext| == n && AgreeBeyondZero(f, h, key, nonce) ==> SameText(f, h, key, nonce, plaintext)
  }

  ghost predicate AgreeBeyondZero(f: BlockFn, h: BlockFn, key: seq<byte>, nonce: seq<byte>)
  {
    forall n: nat, j: nat :: 0 < n < TWO32 && j < 64 ==> f(key, nonce, n, j) == h(key, nonce, n, j)
  }

  ghost predicate SameText(f: BlockFn, h: BlockFn, key: seq<byte>, nonce: seq<byte>, plaintext: seq<byte>)
  {
    forall aad: seq<byte> :: Seal(f, key, nonce, aad, plaintext).ciphertext == Seal(h, key, nonce, aad, plaintext).ciphertext
  }

  /** The key of the tag never encrypts: exactly up to the length where the 32-bit counter comes round. */
  lemma KeySeparationIff(n: nat)
    ensures SeparateAt(n) <==> n <= STREAM_LIMIT
  {
    hide AgreeBeyondZero, SameText;
    if n <= STREAM_LIMIT {
      forall f: BlockFn, h: BlockFn, key: seq<byte>, nonce: seq<byte>, plaintext: seq<byte> | |plaintext| == n && AgreeBeyondZero(f, h, key, nonce)
        ensures SameText(f, h, key, nonce, plaintext)
      {
        TextFromLaterBlocks(f, h, key, nonce, plaintext);
      }
    } else {
      CounterComesRound(n);
    }
  }

  lemma TextFromLaterBlocks(f: BlockFn, h: BlockFn, key: seq<byte>, nonce: seq<byte>, plaintext: seq<byte>)
    requires |plaintext| <= STREAM_LIMIT && AgreeBeyondZero(f, h, key, nonce)
    ensures SameText(f, h, key, nonce, plaintext)
  {
    hide Xor8, TagOf;
    var a, b := Stream(f, key, nonce, 1, plaintext), Stream(h, key, nonce, 1, plaintext);
    forall i | 0 <= i < |plaintext|
      ensures a[i] == b[i]
    {
      assert 0 < (1 + i / 64) % TWO32 && i % 64 < 64;
    }
    assert a == b;
  }

  lemma TextBytes(f: BlockFn, key: seq<byte>, nonce: seq<byte>, plaintext: seq<byte>)
    ensures var c := Stream(f, key, nonce, 1, plaintext);
            |c| == |plaintext| && forall i :: 0 <= i < |c| && i < STREAM_LIMIT ==> c[i] == Xor8(plaintext[i], f(key, nonce, 1 + i / 64, i % 64))
  {
    hide Xor8;
    forall i | 0 <= i < |plaintext| && i < STREAM_LIMIT
      ensures (1 + i / 64) % TWO32 == 1 + i / 64
    {
    }
  }

  lemma CounterComesRound(n: nat)
    requires n > STREAM_LIMIT
    ensures !SeparateAt(n)
  {
    hide TagOf, Bits.Xor;
    var f: BlockFn := (k, nc, c, j) => 0;
    var h: BlockFn := (k, nc, c, j) => if c == 0 then 1 else 0;
    var plaintext := Zeros(n);
    var i := STREAM_LIMIT;
    assert (1 + i / 64) % TWO32 == 0;
    assert Seal(f, [], [], [], plaintext).ciphertext[i] == Xor8(0, 0);
    assert Seal(h, [], [], [], plaintext).ciphertext[i] == Xor8(0, 1);
    ZeroAndOne();
    assert AgreeBeyondZero(f, h, [], []) && !SameText(f, h, [], [], plaintext);
  }

  lemma ZeroAndOne()
    ensures Xor8(0, 0) == 0 && Xor8(0, 1) == 1
  {
  }

  // --- what the tag covers ------------------------------------------------------------------

  lemma {:induction false} DigitsRead(s: seq<byte>, n: nat)
    requires forall i :: 0 <= i < |s| ==> s[i] as int == (n / Pow256(i)) % 256
    ensures LE(s) == n % Pow256(|s|)
  {
    if |s| > 0 {
      forall i | 0 <= i < |s[1..]|
        ensures s[1..][i] as int == ((n / 256) / Pow256(i)) % 256
      {
        DivTwice(n, 256, Pow256(i));
        assert s[1..][i] == s[i + 1];
      }
      DigitsRead(s[1..], n / 256);
      assert s[0] as int == (n / Pow256(0)) % 256 == n % 256;
      DigitSplit(n, Pow256(|s| - 1));
    }
  }

  lemma LengthRead(n: nat)
    ensures LE(Length64(n)) == n % TWO64
  {
    DigitsRead(Length64(n), n);
    Pow256Eight();
  }

  /** The authenticated data are whole blocks, and the last one holds the two lengths modulo 2^64. */
  lemma MacDataEnds(aad: seq<byte>, ciphertext: seq<byte>)
    ensures var m := MacData(aad, ciphertext);
            |m| >= 16 && |m| % 16 == 0
            && LE(m[|m| - 16..|m| - 8]) == |aad| % TWO64 && LE(m[|m| - 8..]) == |ciphertext| % TWO64
  {
    hide Padding, Length64, LE;
    LengthRead(|aad|);
    LengthRead(|ciphertext|);
    PaddedIsWhole(|aad|);
    PaddedIsWhole(|ciphertext|);
    TwoLengthsLast(aad, Padding(|aad|), ciphertext, Padding(|ciphertext|), Length64(|aad|), Length64(|ciphertext|));
  }

  lemma PaddedIsWhole(n: nat)
    ensures (n + |Padding(n)|) % 16 == 0 && |Length64(n)| == 8
  {
  }

  lemma TwoLengthsLast(a: seq<byte>, p: seq<byte>, c: seq<byte>, q: seq<byte>, x: seq<byte>, y: seq<byte>)
    requires |x| == |y| == 8
    ensures var m := a + p + c + q + (x + y); |m| == |a| + |p| + |c| + |q| + 16 && m[|m| - 16..|m| - 8] == x && m[|m| - 8..] == y
    ensures var m := a + p + c + q + (x + y); m[..|a|] == a && m[|a| + |p|..|a| + |p| + |c|] == c
  {
  }

  /** So different pairs are authenticated as different data. */
  lemma MacDataInjective(aad: seq<byte>, ciphertext: seq<byte>, aad': seq<byte>, ciphertext': seq<byte>)
    requires |aad| < TWO64 && |ciphertext| < TWO64 && |aad'| < TWO64 && |ciphertext'| < TWO64
    requires MacData(aad, ciphertext) == MacData(aad', ciphertext')
    ensures aad == aad' && ciphertext == ciphertext'
  {
    MacDataParts(aad, ciphertext);
    MacDataParts(aad', ciphertext');
    hide MacData, Padding, LE;
    MacDataEnds(aad, ciphertext);
    MacDataEnds(aad', ciphertext');
    ModSmall(|aad|, TWO64);
    ModSmall(|aad'|, TWO64);
    ModSmall(|ciphertext|, TWO64);
    ModSmall(|ciphertext'|, TWO64);
  }

  lemma MacDataParts(aad: seq<byte>, ciphertext: seq<byte>)
    ensures var m, at := MacData(aad, ciphertext), |aad| + |Padding(|aad|)|;
            at + |ciphertext| <= |m| && m[..|aad|] == aad && m[at..at + |ciphertext|] == ciphertext
  {
    hide Padding, Length64;
    PaddedIsWhole(|aad|);
    PaddedIsWhole(|ciphertext|);
    TwoLengthsLast(aad, Padding(|aad|), ciphertext, Padding(|ciphertext|), Length64(|aad|), Length64(|ciphertext|));
  }

  method Pad16(ctx: Poly.Context, len: nat, ghost key: seq<byte>, ghost msg: seq<byte>)
    requires |key| == 32 && ctx.Holds(key, msg)
    modifies ctx, ctx.h, ctx.buffer
    ensures ctx.Holds(key, msg + Padding(len))
  {
    hide Poly.Context.Holds;
    var rem := len % 16;
    ghost var padded := msg + Padding(len);
    if rem != 0 {
      ctx.Update(Zeros(16 - rem), key, msg);
    } else {
      assert padded == msg;
    }
  }

  /** Some data, then zeros up to a whole block. */
  method Feed(ctx: Poly.Context, data: seq<byte>, ghost key: seq<byte>, ghost msg: seq<byte>)
    requires |key| == 32 && ctx.Holds(key, msg)
    modifies ctx, ctx.h, ctx.buffer
    ensures ctx.Holds(key, msg + data + Padding(|data|))
  {
    if |data| > 0 {
      ctx.Update(data, key, msg);
    } else {
      assert msg + data == msg;
    }
    Pad16(ctx, |data|, key, msg + data);
  }

  method FeedMacData(ctx: Poly.Context, aad: seq<byte>, ciphertext: seq<byte>, ghost key: seq<byte>)
    requires |key| == 32 && ctx.Holds(key, [])
    modifies ctx, ctx.h, ctx.buffer
    ensures ctx.Holds(key, MacData(aad, ciphertext))
  {
    assert [] + aad == aad;
    Feed(ctx, aad, key, []);
    ghost var m := aad + Padding(|aad|);
    Feed(ctx, ciphertext, key, m);
    m := m + ciphertext + Padding(|ciphertext|);
    ctx.Update(Length64(|aad|) + Length64(|ciphertext|), key, m);
  }

  /** The tag computation that encryption and decryption share. */
  method ComputeTag(mac: array<byte>, f: BlockFn, key: seq<byte>, nonce: seq<byte>, aad: seq<byte>, ciphertext: seq<byte>)
    requires mac.Length == 16
    modifies mac
    ensures LE(mac[..]) == TagOf(f, key, nonce, aad, ciphertext)
  {
    var polyKey := new byte[64];
    ChaCha20Xor(polyKey, Zeros(64), f, key, nonce, 0);
    ghost var k := OneTimeKey(f, key, nonce);
    assert polyKey[..32] == polyKey[..64][..32] == k;
    var ctx := new Poly.Context(polyKey[..32]);
    FeedMacData(ctx, aad, ciphertext, k);
    ctx.Finish(mac, k, MacData(aad, ciphertext));
  }

  method Encrypt(ciphertext: array<byte>, tag: array<byte>, plaintext: seq<byte>, aad: seq<byte>,
                 f: BlockFn, key: seq<byte>, nonce: seq<byte>)
    requires ciphertext.Length == |plaintext| && tag.Length == 16 && ciphertext != tag
    modifies ciphertext, tag
    ensures Sealed(ciphertext[..], LE(tag[..])) == Seal(f, key, nonce, aad, plaintext)
    ensures forall i :: 0 <= i < |plaintext| && i < STREAM_LIMIT ==> ciphertext[i] == Xor8(plaintext[i], f(key, nonce, 1 + i / 64, i % 64))
  {
    hide Stream, StreamByte, TagOf, Xor8;
    TextBytes(f, key, nonce, plaintext);
    ChaCha20Xor(ciphertext, plaintext, f, key, nonce, 1);
    assert ciphertext[..] == ciphertext[..|plaintext|];
    ComputeTag(tag, f, key, nonce, aad, ciphertext[..]);
  }

  /** Or-ing the differences: the result is zero exactly when the bytes agree. */
  method Differs(a: seq<byte>, b: seq<byte>) returns (diff: byte)
    requires |a| == |b|
    ensures diff == 0 <==> a == b
  {
    diff := 0;
    for i := 0 to |a|
      invariant diff == 0 <==> a[..i] == b[..i]
    {
      assert a[..i + 1] == a[..i] + [a[i]] && b[..i + 1] == b[..i] + [b[i]];
      ZeroDifference(diff, a[i], b[i]);
      diff := Or8(diff, Xor8(a[i], b[i]));
    }
    assert a[..|a|] == a && b[..|b|] == b;
  }

  lemma ZeroDifference(d: byte, x: byte, y: byte)
    ensures Or8(d, Xor8(x, y)) == 0 <==> d == 0 && x == y
  {
    Bits.OrIsZero(d as int, Bits.Xor(x as int, y as int));
    Bits.XorIsZero(x as int, y as int);
  }

  method Decrypt(plaintext: array<byte>, ciphertext: seq<byte>, tag: seq<byte>, aad: seq<byte>,
                 f: BlockFn, key: seq<byte>, nonce: seq<byte>) returns (ok: bool)
    requires plaintext.Length == |ciphertext| && |tag| == 16
    modifies plaintext
    ensures var r := Open(f, key, nonce, aad, Sealed(ciphertext, LE(tag)));
            ok == r.Some? && plaintext[..] == if ok then r.value else old(plaintext[..])
  {
    var expected := new byte[16];
    ComputeTag(expected, f, key, nonce, aad, ciphertext);
    var diff := Differs(expected[..], tag);
    if diff != 0 {
      if LE(expected[..]) == LE(tag) {
        LEInjective(expected[..], tag);
      }
      return false;
    }
    ChaCha20Xor(plaintext, ciphertext, f, key, nonce, 1);
    assert plaintext[..] == plaintext[..|ciphertext|];
    return true;
  }
}
