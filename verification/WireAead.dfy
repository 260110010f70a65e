/** The law the handshake needs of its cipher holds of the ChaCha20-Poly1305 construction, whatever its block function. */
module WireAead {
  import opened Arith
  import opened Bytes
  import opened Options
  import opened Aead
  import opened Noise
  import Poly = Poly1305

  /** A 96-bit nonce made of a 64-bit counter. */
  function Nonce(counter: nat): seq<byte>
  {
    [0, 0, 0, 0] + Little(counter, 8)
  }

  /** Under one key, nonces are equal exactly when the counters agree modulo 2^64. */
  lemma {:induction false} NoncesEqualIff(a: nat, b: nat)
    ensures |Nonce(a)| == 12 && Nonce(a)[..4] == [0, 0, 0, 0] && LE(Nonce(a)[4..]) == a % TWO64
    ensures Nonce(a) == Nonce(b) <==> a % TWO64 == b % TWO64
  {
    LittleIs(a, 8);
    LittleIs(b, 8);
    Pow256Eight();
    assert Nonce(a)[4..] == Little(a, 8) && Nonce(b)[4..] == Little(b, 8);
    if a % TWO64 == b % TWO64 {
      LEInjective(Little(a, 8), Little(b, 8));
    }
  }

  lemma {:induction false} LittleIs(v: nat, n: nat)
    ensures LE(Little(v, n)) == v % Pow256(n)
  {
    if n > 0 {
      assert Little(v, n)[1..] == Little(v / 256, n - 1);
      LittleIs(v / 256, n - 1);
      DigitSplit(v, Pow256(n - 1));
    }
  }

  /** Ciphertext and tag, one behind the other. */
  function SealBytes(f: BlockFn, key: Key, counter: nat, ad: seq<byte>, plaintext: seq<byte>): seq<byte>
  {
    var box := Seal(f, key, Nonce(counter), ad, plaintext);
    box.ciphertext + Little(box.tag, 16)
  }

  function OpenBytes(f: BlockFn, key: Key, counter: nat, ad: seq<byte>, sealed: seq<byte>): Option<seq<byte>>
  {
    if |sealed| < 16 then None
    else Open(f, key, Nonce(counter), ad, Sealed(sealed[..|sealed| - 16], LE(sealed[|sealed| - 16..])))
  }

  lemma TagFits(f: BlockFn, key: Key, nonce: seq<byte>, ad: seq<byte>, plaintext: seq<byte>)
    ensures Seal(f, key, nonce, ad, plaintext).tag < Pow256(16)
  {
    hide Poly.Absorb, Stream, MacData, Poly.Clamp;
    assert Pow256(4) == 0x1_0000_0000;
    assert Pow256(8) == 0x1_0000_0000_0000_0000;
    assert Pow256(16) == 0x1_0000_0000_0000_0000_0000_0000_0000_0000;
  }

  lemma OpensItsOwn(f: BlockFn, key: Key, counter: nat, ad: seq<byte>, plaintext: seq<byte>)
    ensures |SealBytes(f, key, counter, ad, plaintext)| == |plaintext| + 16
    ensures OpenBytes(f, key, counter, ad, SealBytes(f, key, counter, ad, plaintext)) == Some(plaintext)
  {
    var nonce := Nonce(counter);
    hide Nonce, TagOf;
    var box := Seal(f, key, nonce, ad, plaintext);
    var tag := Little(box.tag, 16);
    assert (box.ciphertext + tag)[..|box.ciphertext|] == box.ciphertext;
    assert (box.ciphertext + tag)[|box.ciphertext|..] == tag;
    TagFits(f, key, nonce, ad, plaintext);
    LittleRead(box.tag, 16);
    OpenInvertsSeal(f, key, nonce, ad, plaintext, box.tag);
  }

  /** Any primitives that seal and open this way open what they seal. */
  lemma CipherIsLawful(f: BlockFn, c: Crypto)
    requires forall k: Key, n: nat, ad: seq<byte>, p: seq<byte> :: c.seal(k, n, ad, p) == SealBytes(f, k, n, ad, p)
    requires forall k: Key, n: nat, ad: seq<byte>, s: seq<byte> :: c.open(k, n, ad, s) == OpenBytes(f, k, n, ad, s)
    ensures OpensWhatItSeals(c)
  {
    hide SealBytes, OpenBytes;
    forall k: Key, n: nat, ad: seq<byte>, p: seq<byte>
      ensures |SealBytes(f, k, n, ad, p)| == |p| + 16 && OpenBytes(f, k, n, ad, SealBytes(f, k, n, ad, p)) == Some(p)
    {
      OpensItsOwn(f, k, n, ad, p);
    }
  }
}
