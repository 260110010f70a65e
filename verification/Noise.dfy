/** The WireGuard handshake (sections 5.4.2 to 5.4.5 of its whitepaper) over abstract primitives. */
module Noise {
  import opened Bytes
  import opened Options

  type Key = k: seq<byte> | |k| == 32 witness seq(32, _ => 0)

  /** The primitives: Diffie-Hellman, hash, HMAC, keyed mac, and authenticated encryption with a counter nonce. */
  datatype Crypto = Crypto(
    pub: Key -> Key,
    dh: (Key, Key) -> Key,
    hash: seq<byte> -> Key,
    hmac: (seq<byte>, seq<byte>) -> Key,
    mac: (Key, seq<byte>) -> seq<byte>,
    seal: (Key, nat, seq<byte>, seq<byte>) -> seq<byte>,
    open: (Key, nat, seq<byte>, seq<byte>) -> Option<seq<byte>>)

  ghost predicate DhCommutes(c: Crypto)
  {
    forall a: Key, b: Key :: c.dh(a, c.pub(b)) == c.dh(b, c.pub(a))
  }

  ghost predicate OpensWhatItSeals(c: Crypto)
  {
    && (forall k: Key, n: nat, ad: seq<byte>, p: seq<byte> :: |c.seal(k, n, ad, p)| == |p| + 16)
    && forall k: Key, n: nat, ad: seq<byte>, p: seq<byte> :: c.open(k, n, ad, c.seal(k, n, ad, p)) == Some(p)
  }

  ghost predicate Lawful(c: Crypto)
  {
    DhCommutes(c) && OpensWhatItSeals(c) && forall k: Key, m: seq<byte> :: |c.mac(k, m)| == 16
  }

  // --- bytes ------------------------------------------------------------------------------

  function Little(v: nat, n: nat): (s: seq<byte>)
    ensures |s| == n
  {
    if n == 0 then [] else [(v % 256) as byte] + Little(v / 256, n - 1)
  }

  lemma {:induction false} LittleRead(v: nat, n: nat)
    requires v < Pow256(n)
    ensures LE(Little(v, n)) == v
  {
    if n > 0 {
      assert Little(v, n)[1..] == Little(v / 256, n - 1);
      assert v / 256 < Pow256(n - 1);
      LittleRead(v / 256, n - 1);
    }
  }

  function Header(kind: byte): seq<byte>
  {
    [kind, 0, 0, 0]
  }

  // --- the transcript -----------------------------------------------------------------------

  datatype Transcript = Transcript(ck: Key, h: Key)

  function Prk(c: Crypto, ck: Key, x: seq<byte>): Key
  {
    c.hmac(ck, x)
  }

  function Kdf1(c: Crypto, ck: Key, x: seq<byte>): Key
  {
    c.hmac(Prk(c, ck, x), [1])
  }

  function Kdf2(c: Crypto, ck: Key, x: seq<byte>): Key
  {
    c.hmac(Prk(c, ck, x), Kdf1(c, ck, x) + [2])
  }

  function Kdf3(c: Crypto, ck: Key, x: seq<byte>): Key
  {
    c.hmac(Prk(c, ck, x), Kdf2(c, ck, x) + [3])
  }

  function MixHash(c: Crypto, h: Key, data: seq<byte>): Key
  {
    c.hash(h + data)
  }

  function Begin(c: Crypto, construction: seq<byte>, identifier: seq<byte>, responder: Key): Transcript
  {
    var ck := c.hash(construction);
    Transcript(ck, MixHash(c, c.hash(ck + identifier), responder))
  }

  function WithEphemeral(c: Crypto, t: Transcript, e: Key): Transcript
  {
    Transcript(Kdf1(c, t.ck, e), MixHash(c, t.h, e))
  }

  function WithSecret(c: Crypto, t: Transcript, shared: Key): Transcript
  {
    Transcript(Kdf1(c, t.ck, shared), t.h)
  }

  function WithSealed(c: Crypto, t: Transcript, sealed: seq<byte>): Transcript
  {
    Transcript(t.ck, MixHash(c, t.h, sealed))
  }

  /** Mixing in the preshared key gives the next transcript and the key of the empty payload. */
  function WithPreshared(c: Crypto, t: Transcript, psk: Key): Transcript
  {
    Transcript(Kdf1(c, t.ck, psk), MixHash(c, t.h, Kdf2(c, t.ck, psk)))
  }

  // --- the first message, from the values both sides share ----------------------------------------

  /** The transcript before the sealed static key; its sealing key. */
  function First(c: Crypto, start: Transcript, e: Key, es: Key): (Transcript, Key)
  {
    var t := WithEphemeral(c, start, e);
    (WithSecret(c, t, es), Kdf2(c, t.ck, es))
  }

  function Initiation(c: Crypto, start: Transcript, s: Key, e: Key, es: Key, ss: Key, timestamp: seq<byte>): (seq<byte>, seq<byte>, Transcript)
  {
    var (t1, k1) := First(c, start, e, es);
    var sealedKey := c.seal(k1, 0, t1.h, s);
    var t2 := WithSealed(c, t1, sealedKey);
    var k2 := Kdf2(c, t2.ck, ss);
    var t3 := WithSecret(c, t2, ss);
    var sealedTime := c.seal(k2, 0, t3.h, timestamp);
    (sealedKey, sealedTime, WithSealed(c, t3, sealedTime))
  }

  function InitiationBody(index: nat, e: Key, sealedKey: seq<byte>, sealedTime: seq<byte>): seq<byte>
  {
    Header(1) + Little(index, 4) + e + sealedKey + sealedTime
  }

  /** What the responder reads out of an initiation, in its order of checks. */
  datatype Greeting = Greeting(transcript: Transcript, initiator: Key, ephemeral: Key, index: nat)

  function ReadInitiation(c: Crypto, start: Transcript, private: Key, msg: seq<byte>): Option<Greeting>
  {
    if |msg| != 148 || msg[0] != 1 then None
    else
      var e: Key := msg[8..40];
      var (t1, k1) := First(c, start, e, c.dh(private, e));
      var s := c.open(k1, 0, t1.h, msg[40..88]);
      if s.None? || |s.value| != 32 then None
      else
        var initiator: Key := s.value;
        var t2 := WithSealed(c, t1, msg[40..88]);
        var ss := c.dh(private, initiator);
        var t3 := WithSecret(c, t2, ss);
        var time := c.open(Kdf2(c, t2.ck, ss), 0, t3.h, msg[88..116]);
        if time.None? then None
        else Some(Greeting(WithSealed(c, t3, msg[88..116]), initiator, e, LE(msg[4..8])))
  }

  // --- the second message -------------------------------------------------------------------------

  /** The transcript of the response up to its empty payload, and that payload's key. */
  function Second(c: Crypto, t: Transcript, e: Key, ee: Key, se: Key, psk: Key): (Transcript, Key)
  {
    var t1 := WithSecret(c, WithSecret(c, WithEphemeral(c, t, e), ee), se);
    (WithPreshared(c, t1, psk), Kdf3(c, t1.ck, psk))
  }

  function ResponseBody(index: nat, remote: nat, e: Key, empty: seq<byte>): seq<byte>
  {
    Header(2) + Little(index, 4) + Little(remote, 4) + e + empty
  }

  // --- what the handshake amounts to -----------------------------------------------------------------

  /** Block n of the output of HKDF (section 2.3 of RFC 5869). */
  function Expand(c: Crypto, prk: Key, n: nat): seq<byte>
    requires n < 256
  {
    if n == 0 then [] else c.hmac(prk, Expand(c, prk, n - 1) + [n as byte])
  }

  /** The three derived keys are the first three blocks, extracted with the chaining key for salt. */
  lemma KdfIsHkdf(c: Crypto, ck: Key, x: seq<byte>)
    ensures var prk := c.hmac(ck, x);
            Kdf1(c, ck, x) == Expand(c, prk, 1) && Kdf2(c, ck, x) == Expand(c, prk, 2) && Kdf3(c, ck, x) == Expand(c, prk, 3)
  {
    var prk := c.hmac(ck, x);
    assert Expand(c, prk, 0) + [1] == [1];
    assert Expand(c, prk, 1) == c.hmac(prk, [1]);
    assert Expand(c, prk, 2) == c.hmac(prk, Expand(c, prk, 1) + [2]);
  }

  /** The chaining key after all of xs, one after the other. */
  function Chain(c: Crypto, ck: Key, xs: seq<seq<byte>>): Key
  {
    if |xs| == 0 then ck else Kdf1(c, Chain(c, ck, xs[..|xs| - 1]), xs[|xs| - 1])
  }

  /** The running hash after all of xs. */
  function Hashes(c: Crypto, h: Key, xs: seq<seq<byte>>): Key
  {
    if |xs| == 0 then h else MixHash(c, Hashes(c, h, xs[..|xs| - 1]), xs[|xs| - 1])
  }

  lemma ChainSnoc(c: Crypto, ck: Key, xs: seq<seq<byte>>, x: seq<byte>)
    ensures Chain(c, ck, xs + [x]) == Kdf1(c, Chain(c, ck, xs), x)
    ensures Hashes(c, ck, xs + [x]) == MixHash(c, Hashes(c, ck, xs), x)
  {
    assert (xs + [x])[..|xs|] == xs;
  }

  /** What enters the chaining key: both ephemeral keys, the four shared secrets and the preshared key. */
  function Secrets(c: Crypto, si: Key, ei: Key, sr: Key, er: Key, psk: Key): (r: seq<seq<byte>>)
    ensures |r| == 7
  {
    [c.pub(ei), c.dh(ei, c.pub(sr)), c.dh(si, c.pub(sr)), c.pub(er), c.dh(ei, c.pub(er)), c.dh(si, c.pub(er)), psk]
  }

  /** What enters the hash: the identities and every text sent, each sealed under the keys reached by then. */
  function Texts(c: Crypto, ck: Key, identifier: seq<byte>, si: Key, ei: Key, sr: Key, er: Key, psk: Key, timestamp: seq<byte>): seq<seq<byte>>
  {
    var xs := Secrets(c, si, ei, sr, er, psk);
    var a := [identifier, c.pub(sr), c.pub(ei)];
    var b := a + [c.seal(Kdf2(c, Chain(c, ck, xs[..1]), xs[1]), 0, Hashes(c, ck, a), c.pub(si))];
    var d := b + [c.seal(Kdf2(c, Chain(c, ck, xs[..2]), xs[2]), 0, Hashes(c, ck, b), timestamp)];
    var e := d + [c.pub(er)] + [Kdf2(c, Chain(c, ck, xs[..6]), psk)];
    e + [c.seal(Kdf3(c, Chain(c, ck, xs[..6]), psk), 0, Hashes(c, ck, e), [])]
  }

  /** The transcript of the whole handshake is these two lists, folded from the hash of the construction. */
  lemma HandshakeFolds(c: Crypto, construction: seq<byte>, identifier: seq<byte>, si: Key, ei: Key, sr: Key, er: Key, psk: Key, timestamp: seq<byte>)
    ensures var ck := c.hash(construction);
            var (sealedKey, sealedTime, t) := Initiation(c, Begin(c, construction, identifier, c.pub(sr)), c.pub(si), c.pub(ei),
                                                         c.dh(ei, c.pub(sr)), c.dh(si, c.pub(sr)), timestamp);
            var (u, k) := Second(c, t, c.pub(er), c.dh(ei, c.pub(er)), c.dh(si, c.pub(er)), psk);
            && u.ck == Chain(c, ck, Secrets(c, si, ei, sr, er, psk))
            && WithSealed(c, u, c.seal(k, 0, u.h, [])).h == Hashes(c, ck, Texts(c, ck, identifier, si, ei, sr, er, psk, timestamp))
  {
    hide Kdf1, Kdf2, Kdf3, MixHash, Chain, Hashes;
    var ck := c.hash(construction);
    var xs := Secrets(c, si, ei, sr, er, psk);
    SevenSecrets(c, ck, xs);
    TextsBegin(c, ck, identifier, c.pub(sr), c.pub(ei));
    var (sealedKey, sealedTime, t) := Initiation(c, Begin(c, construction, identifier, c.pub(sr)), c.pub(si), c.pub(ei),
                                                 c.dh(ei, c.pub(sr)), c.dh(si, c.pub(sr)), timestamp);
    var a := [identifier, c.pub(sr), c.pub(ei)];
    ChainSnoc(c, ck, a, sealedKey);
    ChainSnoc(c, ck, a + [sealedKey], sealedTime);
    var d := a + [sealedKey] + [sealedTime];
    ChainSnoc(c, ck, d, c.pub(er));
    var tau := Kdf2(c, Chain(c, ck, xs[..6]), psk);
    ChainSnoc(c, ck, d + [c.pub(er)], tau);
    var e := d + [c.pub(er)] + [tau];
    ChainSnoc(c, ck, e, c.seal(Kdf3(c, Chain(c, ck, xs[..6]), psk), 0, Hashes(c, ck, e), []));
  }

  lemma TextsBegin(c: Crypto, ck: Key, identifier: seq<byte>, responder: Key, e: Key)
    ensures Hashes(c, ck, [identifier, responder, e]) == MixHash(c, MixHash(c, c.hash(ck + identifier), responder), e)
  {
    MixHashIs(c, ck, identifier);
    hide MixHash, Hashes;
    EmptyFolds(c, ck);
    ChainSnoc(c, ck, [], identifier);
    assert [] + [identifier] == [identifier];
    ChainSnoc(c, ck, [identifier], responder);
    assert [identifier] + [responder] == [identifier, responder];
    ChainSnoc(c, ck, [identifier, responder], e);
    assert [identifier, responder] + [e] == [identifier, responder, e];
  }

  lemma SevenSecrets(c: Crypto, ck: Key, xs: seq<seq<byte>>)
    requires |xs| == 7
    ensures Chain(c, ck, xs[..1]) == Kdf1(c, ck, xs[0]) && Chain(c, ck, xs[..2]) == Kdf1(c, Chain(c, ck, xs[..1]), xs[1])
    ensures Chain(c, ck, xs[..3]) == Kdf1(c, Chain(c, ck, xs[..2]), xs[2]) && Chain(c, ck, xs[..4]) == Kdf1(c, Chain(c, ck, xs[..3]), xs[3])
    ensures Chain(c, ck, xs[..5]) == Kdf1(c, Chain(c, ck, xs[..4]), xs[4]) && Chain(c, ck, xs[..6]) == Kdf1(c, Chain(c, ck, xs[..5]), xs[5])
    ensures Chain(c, ck, xs) == Kdf1(c, Chain(c, ck, xs[..6]), xs[6])
  {
    hide Kdf1, Chain;
    EmptyFolds(c, ck);
    assert xs[..0] == [] && xs[..7] == xs;
    ChainStep(c, ck, xs, 0);
    ChainStep(c, ck, xs, 1);
    ChainStep(c, ck, xs, 2);
    ChainStep(c, ck, xs, 3);
    ChainStep(c, ck, xs, 4);
    ChainStep(c, ck, xs, 5);
    ChainStep(c, ck, xs, 6);
  }

  lemma ChainStep(c: Crypto, ck: Key, xs: seq<seq<byte>>, n: nat)
    requires n < |xs|
    ensures Chain(c, ck, xs[..n + 1]) == Kdf1(c, Chain(c, ck, xs[..n]), xs[n])
  {
    assert xs[..n + 1] == xs[..n] + [xs[n]];
    ChainSnoc(c, ck, xs[..n], xs[n]);
  }

  lemma MixHashIs(c: Crypto, h: Key, x: seq<byte>)
    ensures MixHash(c, h, x) == c.hash(h + x)
  {
  }

  lemma EmptyFolds(c: Crypto, ck: Key)
    ensures Chain(c, ck, []) == ck && Hashes(c, ck, []) == ck
  {
  }

  // --- reading back what was laid out ---------------------------------------------------------------

  lemma InitiationParts(index: nat, e: Key, sealedKey: seq<byte>, sealedTime: seq<byte>, rest: seq<byte>)
    requires index < 0x1_0000_0000 && |sealedKey| == 48 && |sealedTime| == 28 && |rest| == 32
    ensures var m := InitiationBody(index, e, sealedKey, sealedTime) + rest;
            && |m| == 148 && m[..4] == [1, 0, 0, 0] && m[0] == 1 && m[8..40] == e && m[40..88] == sealedKey && m[88..116] == sealedTime
            && LE(m[4..8]) == index
  {
    var m := InitiationBody(index, e, sealedKey, sealedTime) + rest;
    assert m[4..8] == Little(index, 4);
    IndexRead(index);
    hide Little, LE;
    assert m[8..40] == e && m[40..88] == sealedKey && m[88..116] == sealedTime;
  }

  lemma IndexRead(index: nat)
    requires index < 0x1_0000_0000
    ensures LE(Little(index, 4)) == index
  {
    assert Pow256(4) == 0x1_0000_0000 by {
      assert Pow256(2) == 65536;
      assert Pow256(3) == 16777216;
    }
    LittleRead(index, 4);
  }

  lemma ResponseParts(index: nat, remote: nat, e: Key, empty: seq<byte>, rest: seq<byte>)
    requires index < 0x1_0000_0000 && remote < 0x1_0000_0000 && |empty| == 16 && |rest| == 32
    ensures var m := ResponseBody(index, remote, e, empty) + rest;
            && |m| == 92 && m[..4] == [2, 0, 0, 0] && m[0] == 2 && m[12..44] == e && m[44..60] == empty
            && LE(m[4..8]) == index && LE(m[8..12]) == remote
  {
    var m := ResponseBody(index, remote, e, empty) + rest;
    assert m[4..8] == Little(index, 4) && m[8..12] == Little(remote, 4);
    IndexRead(index);
    IndexRead(remote);
    hide Little, LE;
    assert m[12..44] == e && m[44..60] == empty;
  }

  /** The responder understands what the initiator sends: same transcript, and who it is. */
  lemma InitiationUnderstood(c: Crypto, start: Transcript, si: Key, ei: Key, sr: Key, index: nat, timestamp: seq<byte>, rest: seq<byte>)
    requires Lawful(c) && |timestamp| == 12 && index < 0x1_0000_0000 && |rest| == 32
    ensures var (sealedKey, sealedTime, t) :=
              Initiation(c, start, c.pub(si), c.pub(ei), c.dh(ei, c.pub(sr)), c.dh(si, c.pub(sr)), timestamp);
            && |sealedKey| == 48 && |sealedTime| == 28
            && ReadInitiation(c, start, sr, InitiationBody(index, c.pub(ei), sealedKey, sealedTime) + rest)
               == Some(Greeting(t, c.pub(si), c.pub(ei), index))
  {
    var (sealedKey, sealedTime, t) :=
      Initiation(c, start, c.pub(si), c.pub(ei), c.dh(ei, c.pub(sr)), c.dh(si, c.pub(sr)), timestamp);
    hide Kdf1, Kdf2, MixHash, InitiationBody, LE;
    InitiationParts(index, c.pub(ei), sealedKey, sealedTime, rest);
    assert c.dh(sr, c.pub(ei)) == c.dh(ei, c.pub(sr)) && c.dh(sr, c.pub(si)) == c.dh(si, c.pub(sr));
  }
}
