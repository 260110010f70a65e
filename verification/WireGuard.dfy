/** A WireGuard peer: the handshake on both sides, and the transport with its counters and its window. */
module WireGuard {
  import opened Arith
  import opened Bytes
  import opened Options
  import opened Noise
  import opened ReplayWindow

  const REJECT_AFTER_MS: nat := 180 * 1000
  const OVERHEAD: nat := 32  // header and tag of a data message

  /** Time passed on an unsigned 64-bit clock. */
  function Elapsed(now: nat, since: nat): nat
  {
    (now as int - since as int) % TWO64
  }

  /** Time passed, while the clock has not gone back. */
  lemma ElapsedIs(now: nat, since: nat)
    requires since <= now < TWO64
    ensures Elapsed(now, since) == now - since
  {
  }

  function DataMessage(c: Crypto, index: nat, counter: nat, key: Key, packet: seq<byte>): seq<byte>
  {
    Header(4) + Little(index, 4) + Little(counter, 8) + c.seal(key, counter, [], packet)
  }

  /** The packet inside a data message, if it is whole and authentic. */
  function OpenData(c: Crypto, key: Key, msg: seq<byte>): Option<seq<byte>>
  {
    if |msg| < OVERHEAD || msg[0] != 4 then None
    else c.open(key, LE(msg[8..16]), [], msg[16..])
  }

  lemma DataOpens(c: Crypto, index: nat, counter: nat, key: Key, packet: seq<byte>)
    requires Lawful(c) && counter < TWO64
    ensures var m := DataMessage(c, index, counter, key, packet);
            |m| == OVERHEAD + |packet| && LE(m[8..16]) == counter && OpenData(c, key, m) == Some(packet)
            && m[..4] == [4, 0, 0, 0] && (index < 0x1_0000_0000 ==> LE(m[4..8]) == index) && m[16..] == c.seal(key, counter, [], packet)
  {
    var m := DataMessage(c, index, counter, key, packet);
    assert m[8..16] == Little(counter, 8) && m[16..] == c.seal(key, counter, [], packet) && m[4..8] == Little(index, 4);
    if index < 0x1_0000_0000 {
      IndexRead(index);
    }
    Pow256At8();
    LittleRead(counter, 8);
  }

  lemma Pow256At8()
    ensures Pow256(8) == TWO64
  {
    assert Pow256(2) == 0x1_0000;
    assert Pow256(4) == 0x1_0000_0000;
    assert Pow256(6) == 0x1_0000_0000_0000;
  }

  /** Counters count up from zero, modulo 2^64. */
  ghost predicate CountsUp(sent: seq<nat>)
  {
    forall i :: 0 <= i < |sent| ==> sent[i] == i % TWO64
  }

  /** Under one key no counter is used twice before 2^64 messages have been sent. */
  lemma NoncesDistinct(sent: seq<nat>, i: nat, j: nat)
    requires CountsUp(sent) && i < j < |sent|
    ensures sent[i] == sent[j] <==> (j - i) % TWO64 == 0
    ensures |sent| <= TWO64 ==> sent[i] != sent[j]
  {
    ModSub(j, i, TWO64);
    var a, b := i % TWO64, j % TWO64;
    if a <= b {
      ModSmall(b - a, TWO64);
    } else {
      DivModUnique(b - a, TWO64, -1, b - a + TWO64);
    }
    if |sent| <= TWO64 {
      ModSmall(i, TWO64);
      ModSmall(j, TWO64);
    }
  }

  // --- what a response does to the initiator's transcript --------------------------------------

  /** The transcript and the payload key that a response leads to. */
  function Reaches(c: Crypto, t: Transcript, ephemeral: Key, fixed: Key, psk: Key, msg: seq<byte>): (Transcript, Key)
    requires |msg| == 92
  {
    var e: Key := msg[12..44];
    Second(c, t, e, c.dh(ephemeral, e), c.dh(fixed, e), psk)
  }

  predicate Authentic(c: Crypto, t: Transcript, ephemeral: Key, fixed: Key, psk: Key, msg: seq<byte>)
    requires |msg| == 92
  {
    var e: Key := msg[12..44];
    var (u, k) := Reaches(c, t, ephemeral, fixed, psk, msg);
    c.dh(ephemeral, e) != Zeros(32) && c.dh(fixed, e) != Zeros(32) && c.open(k, 0, u.h, msg[44..60]).Some?
  }

  /** The transcript that a refused response leaves behind. */
  function Spoiled(c: Crypto, t: Transcript, ephemeral: Key, fixed: Key, psk: Key, msg: seq<byte>): Transcript
    requires |msg| == 92
  {
    var e: Key := msg[12..44];
    var t1 := WithEphemeral(c, t, e);
    if c.dh(ephemeral, e) == Zeros(32) then t1
    else if c.dh(fixed, e) == Zeros(32) then WithSecret(c, t1, c.dh(ephemeral, e))
    else Reaches(c, t, ephemeral, fixed, psk, msg).0
  }

  class Peer {
    const crypto: Crypto
    const construction: seq<byte>
    const identifier: seq<byte>
    const mac1Label: seq<byte>
    const staticPrivate: Key
    const preshared: Key
    var peerPublic: Key

    var transcript: Transcript
    var ephemeralPrivate: Key
    var initiatorEphemeral: Key
    var localIndex: nat
    var remoteIndex: nat

    var sendKey: Key
    var recvKey: Key
    var sendCounter: nat
    var window: Window

    var established: bool
    var inProgress: bool
    var establishedAt: nat
    var lastSend: nat
    var lastRecv: nat
    var lastAttempt: nat

    ghost var sent: seq<nat>  // counters used under the current send key
    ghost var seen: set<nat>  // counters accepted under the current receive key

    ghost predicate Valid()
      reads this
    {
      && localIndex < 0x1_0000_0000 && CountsUp(sent) && sendCounter == |sent| % TWO64
      && Stands(window, seen) && forall c :: c in seen ==> c < TWO64
    }

    function StaticPublic(): Key { crypto.pub(staticPrivate) }

    constructor (c: Crypto, construction: seq<byte>, identifier: seq<byte>, mac1Label: seq<byte>, private: Key, peer: Key, psk: Key)
      ensures Valid() && !established && !inProgress && crypto == c && staticPrivate == private && peerPublic == peer && preshared == psk
      ensures this.construction == construction && this.identifier == identifier && this.mac1Label == mac1Label
      ensures sent == [] && seen == {}
    {
      var zero: Key := Zeros(32);
      crypto, staticPrivate, peerPublic, preshared := c, private, peer, psk;
      this.construction, this.identifier, this.mac1Label := construction, identifier, mac1Label;
      transcript, ephemeralPrivate, initiatorEphemeral := Transcript(zero, zero), zero, zero;
      localIndex, remoteIndex := 0, 0;
      sendKey, recvKey, sendCounter, window := zero, zero, 0, EMPTY;
      established, inProgress, establishedAt, lastSend, lastRecv, lastAttempt := false, false, 0, 0, 0, 0;
      sent, seen := [], {};
    }

    /** The message-authentication field of a handshake message to this peer. */
    function Mac1(body: seq<byte>): seq<byte>
      reads this`peerPublic
    {
      crypto.mac(crypto.hash(mac1Label + peerPublic), body)
    }

    lemma Mac1Is(body: seq<byte>)
      ensures Mac1(body) == crypto.mac(crypto.hash(mac1Label + peerPublic), body)
    {
    }

    // --- handshake ------------------------------------------------------------------------------

    /** make_initiation; the ephemeral key, the index and the timestamp come from outside. */
    method MakeInitiation(ephemeral: Key, index: nat, timestamp: seq<byte>, now: nat) returns (ok: bool, msg: seq<byte>)
      requires Valid() && index < 0x1_0000_0000 && |timestamp| == 12
      modifies this`transcript, this`ephemeralPrivate, this`localIndex, this`inProgress, this`lastAttempt
      ensures Valid()
      ensures var zero := Zeros(32);
              ok <==> crypto.dh(ephemeral, peerPublic) != zero && crypto.dh(staticPrivate, peerPublic) != zero
      ensures ok ==> inProgress && localIndex == index && ephemeralPrivate == ephemeral
      ensures ok ==>
                var (sealedKey, sealedTime, t) := Initiation(crypto, Begin(crypto, construction, identifier, peerPublic), StaticPublic(),
                                                             crypto.pub(ephemeral), crypto.dh(ephemeral, peerPublic),
                                                             crypto.dh(staticPrivate, peerPublic), timestamp);
                var body := InitiationBody(index, crypto.pub(ephemeral), sealedKey, sealedTime);
                transcript == t && msg == body + crypto.mac(crypto.hash(mac1Label + peerPublic), body) + Zeros(16)
      ensures !ok ==> inProgress == old(inProgress)
    {
      hide Kdf1, Kdf2, Kdf3, MixHash, LE, CountsUp, Stands, WithEphemeral, WithSecret, WithPreshared, WithSealed, Begin, InitiationBody, ResponseBody, Zeros, Mac1;
      msg := [];
      transcript := Begin(crypto, construction, identifier, peerPublic);
      ephemeralPrivate := ephemeral;
      var e := crypto.pub(ephemeralPrivate);
      localIndex := index;
      transcript := WithEphemeral(crypto, transcript, e);
      var shared := crypto.dh(ephemeralPrivate, peerPublic);
      if shared == Zeros(32) {
        return false, msg;
      }
      var sealedKey := MixAndSeal(shared, StaticPublic());
      shared := crypto.dh(staticPrivate, peerPublic);
      if shared == Zeros(32) {
        return false, msg;
      }
      var sealedTime := MixAndSeal(shared, timestamp);
      var body := InitiationBody(localIndex, e, sealedKey, sealedTime);
      Mac1Is(body);
      msg := body + Mac1(body) + Zeros(16);
      inProgress, lastAttempt := true, now;
      return true, msg;
    }

    /** A shared secret mixed into the transcript, and a text sealed with the key that comes of it. */
    method MixAndSeal(shared: Key, text: seq<byte>) returns (sealed: seq<byte>)
      modifies this`transcript
      ensures var t := WithSecret(crypto, old(transcript), shared);
              sealed == crypto.seal(Kdf2(crypto, old(transcript).ck, shared), 0, t.h, text) && transcript == WithSealed(crypto, t, sealed)
    {
      hide Kdf1, Kdf2, MixHash;
      var key := Kdf2(crypto, transcript.ck, shared);
      transcript := WithSecret(crypto, transcript, shared);
      sealed := crypto.seal(key, 0, transcript.h, text);
      transcript := WithSealed(crypto, transcript, sealed);
    }

    /** derive_transport_keys */
    method DeriveTransportKeys(initiator: bool)
      requires Valid()
      modifies this`sendKey, this`recvKey, this`sendCounter, this`window, this`transcript, this`ephemeralPrivate, this`sent, this`seen
      ensures Valid() && sent == [] && seen == {} && transcript.h == old(transcript.h)
      ensures var first, second := Kdf1(crypto, old(transcript.ck), []), Kdf2(crypto, old(transcript.ck), []);
              if initiator then sendKey == first && recvKey == second else recvKey == first && sendKey == second
    {
      hide Kdf1, Kdf2, Bit, Pow2;
      var first, second := Kdf1(crypto, transcript.ck, []), Kdf2(crypto, transcript.ck, []);
      if initiator {
        sendKey, recvKey := first, second;
      } else {
        recvKey, sendKey := first, second;
      }
      sendCounter, window := 0, EMPTY;
      sent, seen := [], {};
      var zero: Key := Zeros(32);
      transcript, ephemeralPrivate := Transcript(zero, transcript.h), zero;
    }

    /** Is this the answer to the initiation under way? */
    predicate Expects(msg: seq<byte>)
      reads this
    {
      |msg| == 92 && msg[0] == 2 && inProgress && LE(msg[8..12]) == localIndex
    }

    /** The transcript and payload key a response leads to, as the initiator computes them. */
    function Reached(msg: seq<byte>): (Transcript, Key)
      requires |msg| == 92
      reads this
    {
      Reaches(crypto, transcript, ephemeralPrivate, staticPrivate, preshared, msg)
    }

    predicate Agrees(msg: seq<byte>)
      requires |msg| == 92
      reads this
    {
      Authentic(crypto, transcript, ephemeralPrivate, staticPrivate, preshared, msg)
    }

    /**
     * consume_response. A response that is refused leaves the transport as it was; but if it was
     * addressed to the initiation under way, the transcript and the remote index have been
     * overwritten before it could be authenticated.
     */
    method ConsumeResponse(msg: seq<byte>, now: nat) returns (ok: bool)
      requires Valid()
      modifies this
      ensures Valid() && (ok <==> old(Expects(msg) && Agrees(msg)))
      ensures localIndex == old(localIndex) && peerPublic == old(peerPublic) && initiatorEphemeral == old(initiatorEphemeral)
      ensures ok ==>
                var (t, k) := old(Reached(msg));
                && established && !inProgress && remoteIndex == LE(msg[4..8]) && sent == [] && seen == {} && establishedAt == now
                && transcript.h == WithSealed(crypto, t, msg[44..60]).h
                && sendKey == Kdf1(crypto, t.ck, []) && recvKey == Kdf2(crypto, t.ck, [])
      ensures !ok ==>
                && established == old(established) && sendKey == old(sendKey) && recvKey == old(recvKey) && sent == old(sent)
                && sendCounter == old(sendCounter) && window == old(window) && seen == old(seen) && inProgress == old(inProgress)
                && ephemeralPrivate == old(ephemeralPrivate)
                && transcript == (if old(Expects(msg)) then Spoiled(crypto, old(transcript), ephemeralPrivate, staticPrivate, preshared, msg)
                                  else old(transcript))
                && remoteIndex == (if old(Expects(msg)) then LE(msg[4..8]) else old(remoteIndex))
    {
      hide Kdf1, Kdf2, Kdf3, MixHash, LE, CountsUp, Stands, Zeros, Second, Expects, Agrees, Reached, Spoiled;
      ok := AuthenticateResponse(msg);
      if ok {
        Establish(true, now);
      }
    }

    /** The checks of consume_response: they touch the transcript and the remote index only. */
    method AuthenticateResponse(msg: seq<byte>) returns (ok: bool)
      requires Valid()
      modifies this`transcript, this`remoteIndex
      ensures Valid() && (ok <==> old(Expects(msg) && Agrees(msg)))
      ensures ok ==> transcript == WithSealed(crypto, old(Reached(msg)).0, msg[44..60]) && remoteIndex == LE(msg[4..8])
      ensures !ok ==>
                && transcript == (if old(Expects(msg)) then Spoiled(crypto, old(transcript), ephemeralPrivate, staticPrivate, preshared, msg)
                                  else old(transcript))
                && remoteIndex == (if old(Expects(msg)) then LE(msg[4..8]) else old(remoteIndex))
    {
      hide Kdf1, Kdf2, Kdf3, MixHash, LE, CountsUp, Stands, Zeros, Second, WithEphemeral, WithSecret;
      if |msg| != 92 || msg[0] != 2 || !inProgress || LE(msg[8..12]) != localIndex {
        return false;
      }
      remoteIndex := LE(msg[4..8]);
      var mixed, key := MixResponse(msg[12..44]);
      if !mixed {
        return false;
      }
      if crypto.open(key, 0, transcript.h, msg[44..60]).None? {
        return false;
      }
      transcript := WithSealed(crypto, transcript, msg[44..60]);
      return true;
    }

    /** The end of a handshake: fresh keys, counters and window. */
    method Establish(initiator: bool, now: nat)
      requires Valid()
      modifies this
      ensures Valid() && established && !inProgress && sent == [] && seen == {} && establishedAt == now
      ensures transcript.h == old(transcript.h) && localIndex == old(localIndex) && remoteIndex == old(remoteIndex)
      ensures peerPublic == old(peerPublic) && initiatorEphemeral == old(initiatorEphemeral)
      ensures var first, second := Kdf1(crypto, old(transcript.ck), []), Kdf2(crypto, old(transcript.ck), []);
              if initiator then sendKey == first && recvKey == second else recvKey == first && sendKey == second
    {
      hide Kdf1, Kdf2, CountsUp, Stands, Zeros;
      DeriveTransportKeys(initiator);
      established, inProgress := true, false;
      establishedAt, lastSend, lastRecv := now, now, now;
    }

    /** The key agreement of consume_response, up to the key of the empty payload. */
    method MixResponse(e: Key) returns (ok: bool, key: Key)
      requires Valid()
      modifies this`transcript
      ensures Valid() && (ok <==> crypto.dh(ephemeralPrivate, e) != Zeros(32) && crypto.dh(staticPrivate, e) != Zeros(32))
      ensures ok ==> (transcript, key) == Second(crypto, old(transcript), e, crypto.dh(ephemeralPrivate, e), crypto.dh(staticPrivate, e), preshared)
      ensures !ok ==> var t := WithEphemeral(crypto, old(transcript), e);
                      transcript == if crypto.dh(ephemeralPrivate, e) == Zeros(32) then t else WithSecret(crypto, t, crypto.dh(ephemeralPrivate, e))
    {
      hide Kdf1, Kdf2, Kdf3, MixHash, CountsUp, Stands, WithEphemeral, WithSecret, WithPreshared, Zeros;
      transcript := WithEphemeral(crypto, transcript, e);
      var shared := crypto.dh(ephemeralPrivate, e);
      if shared == Zeros(32) {
        return false, shared;
      }
      transcript := WithSecret(crypto, transcript, shared);
      shared := crypto.dh(staticPrivate, e);
      if shared == Zeros(32) {
        return false, shared;
      }
      transcript := WithSecret(crypto, transcript, shared);
      key := Kdf3(crypto, transcript.ck, preshared);
      transcript := WithPreshared(crypto, transcript, preshared);
      ok := true;
    }

    /** consume_initiation_for_test, the responder's side. */
    method ConsumeInitiation(msg: seq<byte>) returns (ok: bool)
      requires Valid()
      modifies this`transcript, this`initiatorEphemeral, this`peerPublic, this`remoteIndex, this`inProgress
      ensures Valid()
      ensures var g := ReadInitiation(crypto, Begin(crypto, construction, identifier, StaticPublic()), staticPrivate, msg);
              && (ok <==> g.Some?)
              && (ok ==> inProgress && transcript == g.value.transcript && peerPublic == g.value.initiator
                         && initiatorEphemeral == g.value.ephemeral && remoteIndex == g.value.index)
              && (!ok ==> inProgress == old(inProgress) && peerPublic == old(peerPublic))
    {
      hide Kdf1, Kdf2, Kdf3, MixHash, LE, CountsUp, Stands, WithEphemeral, WithSecret, WithPreshared, WithSealed, Begin, InitiationBody, ResponseBody, Zeros, Mac1;
      if |msg| != 148 || msg[0] != 1 {
        return false;
      }
      transcript := Begin(crypto, construction, identifier, StaticPublic());
      var e: Key := msg[8..40];
      initiatorEphemeral := e;
      transcript := WithEphemeral(crypto, transcript, e);
      var shared := crypto.dh(staticPrivate, e);
      var key := Kdf2(crypto, transcript.ck, shared);
      transcript := WithSecret(crypto, transcript, shared);
      var initiator := crypto.open(key, 0, transcript.h, msg[40..88]);
      if initiator.None? || |initiator.value| != 32 {
        return false;
      }
      transcript := WithSealed(crypto, transcript, msg[40..88]);
      shared := crypto.dh(staticPrivate, initiator.value);
      key := Kdf2(crypto, transcript.ck, shared);
      transcript := WithSecret(crypto, transcript, shared);
      if crypto.open(key, 0, transcript.h, msg[88..116]).None? {
        return false;
      }
      transcript := WithSealed(crypto, transcript, msg[88..116]);
      peerPublic, remoteIndex, inProgress := initiator.value, LE(msg[4..8]), true;
      return true;
    }

    /** make_response_for_test, the responder's side. */
    method MakeResponse(ephemeral: Key, index: nat) returns (ok: bool, msg: seq<byte>)
      requires Valid() && index < 0x1_0000_0000
      modifies this
      ensures Valid() && (ok <==> old(inProgress))
      ensures remoteIndex == old(remoteIndex) && peerPublic == old(peerPublic)
      ensures ok ==>
                var (t, k) := Second(crypto, old(transcript), crypto.pub(ephemeral), crypto.dh(ephemeral, old(initiatorEphemeral)),
                                     crypto.dh(ephemeral, old(peerPublic)), preshared);
                var empty := crypto.seal(k, 0, t.h, []);
                var body := ResponseBody(index, remoteIndex, crypto.pub(ephemeral), empty);
                && msg == body + crypto.mac(crypto.hash(mac1Label + old(peerPublic)), body) + Zeros(16)
                && established && !inProgress && localIndex == index && sent == [] && seen == {}
                && transcript.h == WithSealed(crypto, t, empty).h
                && recvKey == Kdf1(crypto, t.ck, []) && sendKey == Kdf2(crypto, t.ck, [])
    {
      hide Kdf1, Kdf2, Kdf3, MixHash, LE, CountsUp, Stands, Second, ResponseBody, Zeros, Mac1, WithSealed, Elapsed;
      msg := [];
      if !inProgress {
        return false, msg;
      }
      msg := SealResponse(ephemeral, index);
      DeriveTransportKeys(false);
      established, inProgress := true, false;
      return true, msg;
    }

    /** The key agreement of the responder, and its message. */
    method SealResponse(ephemeral: Key, index: nat) returns (msg: seq<byte>)
      requires Valid() && index < 0x1_0000_0000
      modifies this`transcript, this`ephemeralPrivate, this`localIndex
      ensures Valid() && localIndex == index
      ensures var (t, k) := Second(crypto, old(transcript), crypto.pub(ephemeral), crypto.dh(ephemeral, initiatorEphemeral),
                                   crypto.dh(ephemeral, peerPublic), preshared);
              var empty := crypto.seal(k, 0, t.h, []);
              var body := ResponseBody(index, remoteIndex, crypto.pub(ephemeral), empty);
              && msg == body + crypto.mac(crypto.hash(mac1Label + peerPublic), body) + Zeros(16)
              && transcript.h == WithSealed(crypto, t, empty).h && transcript.ck == t.ck
    {
      hide Kdf1, Kdf2, Kdf3, MixHash, CountsUp, Stands, WithEphemeral, WithSecret, WithPreshared, ResponseBody, Zeros, Mac1;
      ephemeralPrivate := ephemeral;
      localIndex := index;
      var e := crypto.pub(ephemeralPrivate);
      transcript := WithEphemeral(crypto, transcript, e);
      transcript := WithSecret(crypto, transcript, crypto.dh(ephemeralPrivate, initiatorEphemeral));
      transcript := WithSecret(crypto, transcript, crypto.dh(ephemeralPrivate, peerPublic));
      var key := Kdf3(crypto, transcript.ck, preshared);
      transcript := WithPreshared(crypto, transcript, preshared);
      var empty := crypto.seal(key, 0, transcript.h, []);
      transcript := WithSealed(crypto, transcript, empty);
      var body := ResponseBody(localIndex, remoteIndex, e, empty);
      Mac1Is(body);
      msg := body + Mac1(body) + Zeros(16);
    }

    // --- transport --------------------------------------------------------------------------------

    method Encapsulate(packet: seq<byte>, capacity: nat, now: nat) returns (r: Option<seq<byte>>)
      requires Valid()
      modifies this`established, this`sendCounter, this`lastSend, this`sent
      ensures Valid()
      ensures r.Some? <==> old(established) && Elapsed(now, establishedAt) < REJECT_AFTER_MS && OVERHEAD + |packet| <= capacity
      ensures r.Some? ==> r.value == DataMessage(crypto, remoteIndex, old(sendCounter), sendKey, packet)
      ensures r.Some? ==> sent == old(sent) + [old(sendCounter)] && sendCounter == (old(sendCounter) + 1) % TWO64
      ensures r.None? ==> sent == old(sent) && sendCounter == old(sendCounter)
      ensures established <==> old(established) && Elapsed(now, establishedAt) < REJECT_AFTER_MS
    {
      if !established {
        return None;
      }
      if Elapsed(now, establishedAt) >= REJECT_AFTER_MS {
        established := false;
        return None;
      }
      if capacity < OVERHEAD + |packet| {
        return None;
      }
      r := Some(DataMessage(crypto, remoteIndex, sendCounter, sendKey, packet));
      NextCounter(|sent|);
      sent := sent + [sendCounter];
      sendCounter := (sendCounter + 1) % TWO64;
      lastSend := now;
    }

    /** Would this message be delivered? */
    ghost predicate Delivers(msg: seq<byte>, capacity: nat)
      reads this
    {
      && established && OpenData(crypto, recvKey, msg).Some? && Passes(window, LE(msg[8..16])) && |msg| - OVERHEAD <= capacity
    }

    /** decapsulate: the window moves only for an authentic packet, and never lets a counter in twice. */
    method Decapsulate(msg: seq<byte>, capacity: nat, now: nat) returns (r: Option<seq<byte>>)
      requires Valid()
      modifies this`window, this`lastRecv, this`seen
      ensures Valid() && (r.Some? <==> old(Delivers(msg, capacity)))
      ensures r.Some? ==> r == OpenData(crypto, recvKey, msg) && LE(msg[8..16]) !in old(seen) && seen == old(seen) + {LE(msg[8..16])}
      ensures r.None? ==> window == old(window) && seen == old(seen) && lastRecv == old(lastRecv)
    {
      hide Stands, Bit, Accept, LE;
      if !established || |msg| < OVERHEAD || msg[0] != 4 {
        return None;
      }
      var counter := LE(msg[8..16]);
      if !Passes(window, counter) || capacity < |msg| - OVERHEAD {
        return None;
      }
      r := crypto.open(recvKey, counter, [], msg[16..]);
      if r.None? {
        return None;
      }
      CounterFits(msg[8..16]);
      if counter in seen {
        NeverTwice(window, seen, counter);
      }
      AcceptAdds(window, seen, counter);
      window := Accept(window, counter);
      seen := seen + {counter};
      lastRecv := now;
    }
  }

  lemma NextCounter(n: nat)
    ensures (n % TWO64 + 1) % TWO64 == (n + 1) % TWO64
  {
    ModShift(n % TWO64 + 1, n / TWO64, TWO64);
  }

  lemma CounterFits(s: seq<byte>)
    requires |s| == 8
    ensures LE(s) < TWO64
  {
    LEBound(s);
    Pow256At8();
  }

  /**
   * After a refused response another one is accepted exactly when it authenticates against the
   * transcript that was left: the one of the initiation only if the first was addressed elsewhere.
   */
  method RefusedThenAnother(i: Peer, first: seq<byte>, second: seq<byte>, now: nat) returns (ok1: bool, ok2: bool)
    requires i.Valid()
    modifies i
    ensures i.Valid() && (ok1 <==> old(i.Expects(first) && i.Agrees(first)))
    ensures !ok1 ==>
              (ok2 <==> old(i.Expects(second)) &&
                        Authentic(i.crypto, if old(i.Expects(first)) then Spoiled(i.crypto, old(i.transcript), old(i.ephemeralPrivate), i.staticPrivate, i.preshared, first)
                                            else old(i.transcript),
                                  old(i.ephemeralPrivate), i.staticPrivate, i.preshared, second))
  {
    hide Authentic, Spoiled, LE, CountsUp, Stands, Kdf1, Kdf2, WithSealed;
    ok1 := i.ConsumeResponse(first, now);
    ok2 := i.ConsumeResponse(second, now);
  }

  // --- a forged response can cost the handshake ---------------------------------------------------

  function Filled(n: nat, b: byte): (s: seq<byte>)
    ensures |s| == n && forall i :: 0 <= i < n ==> s[i] == b
  {
    seq(n, _ => b)
  }

  function FirstByte(s: seq<byte>): byte
  {
    if |s| == 0 then 0 else s[0]
  }

  function NextByte(b: byte): byte
  {
    if b == 255 then 0 else b + 1
  }

  /** Primitives that obey every law asked of them: the hash counts what was mixed in, the tag shows the count. */
  function Counting(): Crypto
  {
    Crypto(
      k => k,
      (a, b) => Filled(32, 1),
      x => Filled(32, NextByte(FirstByte(x))),
      (k, x) => Filled(32, 1),
      (k, m) => Filled(16, 0),
      (k, n, ad, p) => p + Filled(16, FirstByte(ad)),
      (k, n, ad, s) => if |s| >= 16 && s[|s| - 16..] == Filled(16, FirstByte(ad)) then Some(s[..|s| - 16]) else None)
  }

  lemma CountingIsLawful()
    ensures Lawful(Counting())
  {
    var c := Counting();
    forall k: Key, n: nat, ad: seq<byte>, p: seq<byte>
      ensures c.open(k, n, ad, c.seal(k, n, ad, p)) == Some(p)
    {
      var s := p + Filled(16, FirstByte(ad));
      assert s[|s| - 16..] == Filled(16, FirstByte(ad)) && s[..|s| - 16] == p;
    }
  }

  function ToyResponse(tag: byte): (msg: seq<byte>)
    ensures |msg| == 92 && msg[12..44] == Filled(32, 1) && msg[44..60] == Filled(16, tag)
  {
    var m := [2, 0, 0, 0] + Filled(8, 0) + Filled(32, 1) + Filled(16, tag) + Filled(32, 0);
    assert m[12..44] == Filled(32, 1) && m[44..60] == Filled(16, tag);
    m
  }

  lemma CountedTwice(b: byte, tag: byte)
    ensures var c, one, t := Counting(), Filled(32, 1), Transcript(Filled(32, 1), Filled(32, b));
            && Authentic(c, t, one, one, one, ToyResponse(tag)) == (tag == NextByte(NextByte(b)))
            && Spoiled(c, t, one, one, one, ToyResponse(tag)) == Transcript(one, Filled(32, NextByte(NextByte(b))))
  {
    var c, one, t := Counting(), Filled(32, 1), Transcript(Filled(32, 1), Filled(32, b));
    var e: Key := ToyResponse(tag)[12..44];
    assert FirstByte(Filled(32, b) + e) == b;
    var h1 := Filled(32, NextByte(b));
    assert WithEphemeral(c, t, e) == Transcript(one, h1);
    assert FirstByte(h1 + one) == NextByte(b);
    assert Second(c, t, e, one, one, one) == (Transcript(one, Filled(32, NextByte(NextByte(b)))), one);
    assert one[0] != Zeros(32)[0];
    assert Filled(16, tag)[0] == tag && Filled(16, NextByte(NextByte(b)))[0] == NextByte(NextByte(b));
  }

  /** A forged response with the right index is refused, and after it so is the true one. */
  lemma ForgeryCanCost() returns (c: Crypto, t: Transcript, key: Key, genuine: seq<byte>, forged: seq<byte>)
    ensures Lawful(c) && |genuine| == |forged| == 92 && genuine[..12] == forged[..12]
    ensures Authentic(c, t, key, key, key, genuine) && !Authentic(c, t, key, key, key, forged)
    ensures !Authentic(c, Spoiled(c, t, key, key, key, forged), key, key, key, genuine)
  {
    c, t, key := Counting(), Transcript(Filled(32, 1), Filled(32, 0)), Filled(32, 1);
    genuine, forged := ToyResponse(2), ToyResponse(9);
    CountingIsLawful();
    CountedTwice(0, 2);
    CountedTwice(0, 9);
    CountedTwice(2, 2);
    assert genuine[..12] == forged[..12];
  }
}
