/** Two WireGuard peers together: agreement of the handshake, and delivery over the transport. */
module Tunnel {
  import opened Arith
  import opened Bytes
  import opened Options
  import opened Noise
  import opened ReplayWindow
  import opened WireGuard

  /** The same protocol constants and preshared key on both sides, and the initiator knows the responder. */
  ghost predicate Matched(i: Peer, r: Peer)
    reads i, r
  {
    && i.crypto == r.crypto && i.construction == r.construction && i.identifier == r.identifier
    && i.preshared == r.preshared && i.peerPublic == r.StaticPublic()
  }

  /** The four shared secrets the initiator checks. */
  ghost predicate NonZero(c: Crypto, si: Key, ei: Key, sr: Key, er: Key)
  {
    && c.dh(ei, c.pub(sr)) != Zeros(32) && c.dh(si, c.pub(sr)) != Zeros(32)
    && c.dh(ei, c.pub(er)) != Zeros(32) && c.dh(si, c.pub(er)) != Zeros(32)
  }

  /** Both ends agree: on the transcript, on the keys crosswise, and on the indices crosswise. */
  ghost predicate Linked(i: Peer, r: Peer)
    reads i, r
  {
    && i.established && r.established && i.transcript.h == r.transcript.h
    && i.sendKey == r.recvKey && i.recvKey == r.sendKey
    && i.remoteIndex == r.localIndex && r.remoteIndex == i.localIndex
    && r.peerPublic == i.StaticPublic()
    && i.sent == [] && r.sent == [] && i.seen == {} && r.seen == {}
  }

  /** What the initiator makes of the response, given that both reached the same transcript. */
  lemma ResponseUnderstood(c: Crypto, t: Transcript, si: Key, ei: Key, er: Key, psk: Key, index: nat, remote: nat, rest: seq<byte>)
    requires Lawful(c) && index < 0x1_0000_0000 && remote < 0x1_0000_0000 && |rest| == 32
    ensures var (u, k) := Second(c, t, c.pub(er), c.dh(er, c.pub(ei)), c.dh(er, c.pub(si)), psk);
            var empty := c.seal(k, 0, u.h, []);
            var m := ResponseBody(index, remote, c.pub(er), empty) + rest;
            && |empty| == 16 && |m| == 92 && m[0] == 2 && m[12..44] == c.pub(er) && m[44..60] == empty
            && LE(m[4..8]) == index && LE(m[8..12]) == remote && c.open(k, 0, u.h, m[44..60]) == Some([])
            && Second(c, t, c.pub(er), c.dh(ei, c.pub(er)), c.dh(si, c.pub(er)), psk) == (u, k)
  {
    hide Second, ResponseBody, LE;
    var (u, k) := Second(c, t, c.pub(er), c.dh(er, c.pub(ei)), c.dh(er, c.pub(si)), psk);
    var empty := c.seal(k, 0, u.h, []);
    ResponseParts(index, remote, c.pub(er), empty, rest);
    assert c.dh(er, c.pub(ei)) == c.dh(ei, c.pub(er)) && c.dh(er, c.pub(si)) == c.dh(si, c.pub(er));
  }

  lemma MacFills(c: Crypto, k: Key, body: seq<byte>)
    requires Lawful(c)
    ensures |c.mac(k, body) + Zeros(16)| == 32
  {
  }

  /** The initiator's transcript after the first flight. */
  function Greeted(i: Peer, ei: Key, timestamp: seq<byte>): Transcript
    reads i`peerPublic
  {
    Initiation(i.crypto, Begin(i.crypto, i.construction, i.identifier, i.peerPublic), i.StaticPublic(), i.crypto.pub(ei),
               i.crypto.dh(ei, i.peerPublic), i.crypto.dh(i.staticPrivate, i.peerPublic), timestamp).2
  }

  /** The first flight: the responder ends up with the initiator's transcript. */
  method Greet(i: Peer, r: Peer, ei: Key, index: nat, timestamp: seq<byte>, now: nat) returns (ok: bool)
    requires i != r && i.Valid() && r.Valid() && Matched(i, r) && Lawful(i.crypto)
    requires index < 0x1_0000_0000 && |timestamp| == 12
    modifies i, r
    ensures i.Valid() && r.Valid() && Matched(i, r)
    ensures ok <==> var c := i.crypto; c.dh(ei, i.peerPublic) != Zeros(32) && c.dh(i.staticPrivate, i.peerPublic) != Zeros(32)
    ensures ok ==>
              && i.inProgress && r.inProgress && i.localIndex == index && r.remoteIndex == index
              && r.transcript == i.transcript && r.peerPublic == i.StaticPublic()
              && i.ephemeralPrivate == ei && r.initiatorEphemeral == i.crypto.pub(ei)
              && i.transcript == Greeted(i, ei, timestamp)
  {
    hide Lawful, Initiation, InitiationBody, Begin, ReadInitiation, CountsUp, Stands, LE, Zeros, WireGuard.Peer.Mac1;
    var msg;
    ok, msg := i.MakeInitiation(ei, index, timestamp, now);
    if ok {
      ghost var c := i.crypto;
      ghost var start := Begin(c, i.construction, i.identifier, i.peerPublic);
      ghost var (sealedKey, sealedTime, t) :=
        Initiation(c, start, i.StaticPublic(), c.pub(ei), c.dh(ei, i.peerPublic), c.dh(i.staticPrivate, i.peerPublic), timestamp);
      ghost var body := InitiationBody(index, c.pub(ei), sealedKey, sealedTime);
      ghost var rest := c.mac(c.hash(i.mac1Label + i.peerPublic), body) + Zeros(16);
      MacLength(i, body);
      assert msg == body + rest;
      InitiationUnderstood(c, start, i.staticPrivate, ei, r.staticPrivate, index, timestamp, rest);
      var understood := r.ConsumeInitiation(msg);
    }
  }

  lemma MacLength(p: Peer, body: seq<byte>)
    requires Lawful(p.crypto)
    ensures |p.crypto.mac(p.crypto.hash(p.mac1Label + p.peerPublic), body) + Zeros(16)| == 32
  {
    MacFills(p.crypto, p.crypto.hash(p.mac1Label + p.peerPublic), body);
  }

  /** What the initiator holds after the whole handshake, from all that went into it. */
  ghost predicate KeysOf(i: Peer, r: Peer, ei: Key, er: Key, timestamp: seq<byte>)
    reads i, r
  {
    var c, ck := i.crypto, i.crypto.hash(i.construction);
    var last := Chain(c, ck, Secrets(c, i.staticPrivate, ei, r.staticPrivate, er, i.preshared));
    && i.sendKey == Kdf1(c, last, []) && i.recvKey == Kdf2(c, last, [])
    && i.transcript.h == Hashes(c, ck, Texts(c, ck, i.identifier, i.staticPrivate, ei, r.staticPrivate, er, i.preshared, timestamp))
  }

  /**
   * The whole exchange succeeds exactly when no shared secret is zero, and then both ends agree, on
   * keys that all four shared secrets, both ephemeral keys and the preshared key have gone into.
   */
  method Exchange(i: Peer, r: Peer, ei: Key, er: Key, iIndex: nat, rIndex: nat, timestamp: seq<byte>, now: nat) returns (ok: bool)
    requires i != r && i.Valid() && r.Valid() && Matched(i, r) && Lawful(i.crypto)
    requires iIndex < 0x1_0000_0000 && rIndex < 0x1_0000_0000 && |timestamp| == 12
    modifies i, r
    ensures i.Valid() && r.Valid()
    ensures ok <==> NonZero(i.crypto, i.staticPrivate, ei, r.staticPrivate, er)
    ensures ok ==> Linked(i, r) && i.establishedAt == now && KeysOf(i, r, ei, er, timestamp)
  {
    hide Lawful, CountsUp, Stands, LE, Zeros, WireGuard.Peer.Mac1, Second, ResponseBody, Kdf1, Kdf2, MixHash, Chain, Hashes, Secrets, Texts, Initiation, Begin, WithSealed;
    HandshakeFolds(i.crypto, i.construction, i.identifier, i.staticPrivate, ei, r.staticPrivate, er, i.preshared, timestamp);
    ok := Greet(i, r, ei, iIndex, timestamp, now);
    if ok {
      ok := Answer(i, r, ei, er, rIndex, now);
    }
  }

  /** The second flight. */
  method Answer(i: Peer, r: Peer, ei: Key, er: Key, index: nat, now: nat) returns (ok: bool)
    requires i != r && i.Valid() && r.Valid() && Matched(i, r) && Lawful(i.crypto) && index < 0x1_0000_0000
    requires i.inProgress && r.inProgress && r.remoteIndex == i.localIndex && r.transcript == i.transcript
    requires r.peerPublic == i.StaticPublic() && i.ephemeralPrivate == ei && r.initiatorEphemeral == i.crypto.pub(ei)
    modifies i, r
    ensures i.Valid() && r.Valid()
    ensures ok <==> var c := i.crypto; c.dh(ei, c.pub(er)) != Zeros(32) && c.dh(i.staticPrivate, c.pub(er)) != Zeros(32)
    ensures ok ==> Linked(i, r) && i.establishedAt == now
    ensures ok ==>
              var (u, k) := Second(i.crypto, old(i.transcript), i.crypto.pub(er), i.crypto.dh(ei, i.crypto.pub(er)),
                                   i.crypto.dh(i.staticPrivate, i.crypto.pub(er)), i.preshared);
              && i.sendKey == Kdf1(i.crypto, u.ck, []) && i.recvKey == Kdf2(i.crypto, u.ck, [])
              && i.transcript.h == WithSealed(i.crypto, u, i.crypto.seal(k, 0, u.h, [])).h
  {
    hide Lawful, CountsUp, Stands, LE, Zeros, WireGuard.Peer.Mac1, Second, ResponseBody, Kdf1, Kdf2, MixHash;
    ghost var c, t, remote, rest0 := i.crypto, r.transcript, r.remoteIndex, r.peerPublic;
    ghost var (u, k) := Second(c, t, c.pub(er), c.dh(er, c.pub(ei)), c.dh(er, c.pub(i.staticPrivate)), i.preshared);
    ghost var body := ResponseBody(index, remote, c.pub(er), c.seal(k, 0, u.h, []));
    var sentOk, msg := r.MakeResponse(er, index);
    ghost var rest := c.mac(c.hash(r.mac1Label + rest0), body) + Zeros(16);
    MacLength(r, body);
    assert msg == body + rest;
    ResponseUnderstood(c, t, i.staticPrivate, ei, er, i.preshared, index, remote, rest);
    ok := i.ConsumeResponse(msg, now);
  }

  // --- delivery -----------------------------------------------------------------------------------

  /** A delivery that is neither a repeat nor 64 or more behind an earlier one. */
  ghost predicate Fresh(order: seq<nat>, i: nat)
    requires i < |order|
  {
    forall j :: 0 <= j < i ==> order[j] != order[i] && order[j] < order[i] + WIDTH
  }

  /** The accepted counters after some deliveries: delivered ones, and all but those left too far behind. */
  ghost predicate Tracks(order: seq<nat>, n: nat, seen: set<nat>)
    requires n <= |order|
  {
    && (forall c :: c in seen ==> c in order[..n])
    && forall j :: 0 <= j < n ==> order[j] in seen || LeftBehind(order[j], seen)
  }

  ghost predicate LeftBehind(c: nat, seen: set<nat>)
  {
    exists d :: d in seen && c + WIDTH <= d
  }

  lemma FreshIff(order: seq<nat>, i: nat, seen: set<nat>)
    requires i < |order| && Tracks(order, i, seen)
    ensures Fresh(order, i) <==> order[i] !in seen && forall c :: c in seen ==> c < order[i] + WIDTH
  {
    var c := order[i];
    if Fresh(order, i) {
      forall d | d in seen
        ensures d != c && d < c + WIDTH
      {
        var j :| 0 <= j < i && order[..i][j] == d;
        assert order[j] == d;
      }
    }
    if c !in seen && forall d :: d in seen ==> d < c + WIDTH {
      forall j | 0 <= j < i
        ensures order[j] != c && order[j] < c + WIDTH
      {
        assert order[j] in seen || LeftBehind(order[j], seen);
      }
    }
  }

  lemma TracksNext(order: seq<nat>, i: nat, seen: set<nat>)
    requires i < |order| && Tracks(order, i, seen)
    ensures Fresh(order, i) ==> Tracks(order, i + 1, seen + {order[i]})
    ensures !Fresh(order, i) ==> Tracks(order, i + 1, seen)
  {
    FreshIff(order, i, seen);
    assert order[..i + 1] == order[..i] + [order[i]];
    forall j | 0 <= j < i && LeftBehind(order[j], seen)
      ensures LeftBehind(order[j], seen + {order[i]})
    {
      var d :| d in seen && order[j] + WIDTH <= d;
      assert d in seen + {order[i]};
    }
  }

  /** Sends the packets in order under a fresh key. */
  method SendAll(s: Peer, packets: seq<seq<byte>>, capacity: nat, now: nat) returns (msgs: seq<seq<byte>>)
    requires s.Valid() && s.established && s.sent == [] && Elapsed(now, s.establishedAt) < REJECT_AFTER_MS
    requires |packets| + WIDTH <= TWO64 && forall p :: p in packets ==> OVERHEAD + |p| <= capacity
    modifies s
    ensures s.Valid() && |msgs| == |packets| && CountsUp(s.sent) && |s.sent| == |packets|
    ensures forall k :: 0 <= k < |msgs| ==> msgs[k] == DataMessage(s.crypto, old(s.remoteIndex), k, old(s.sendKey), packets[k])
  {
    hide Stands, DataMessage, Elapsed;
    msgs := [];
    for k := 0 to |packets|
      invariant s.Valid() && s.established && |s.sent| == k == |msgs| && s.sendCounter == k
      invariant s.remoteIndex == old(s.remoteIndex) && s.sendKey == old(s.sendKey) && s.establishedAt == old(s.establishedAt)
      invariant forall j :: 0 <= j < k ==> msgs[j] == DataMessage(s.crypto, s.remoteIndex, j, s.sendKey, packets[j])
    {
      assert packets[k] in packets;
      var r := s.Encapsulate(packets[k], capacity, now);
      msgs := msgs + [r.value];
    }
  }

  /**
   * Whatever the order, the losses and the repeats: each delivery yields exactly the packet that was
   * sent if it is fresh, and nothing otherwise.
   */
  method Deliver(r: Peer, ghost index: nat, ghost key: Key, ghost packets: seq<seq<byte>>, msgs: seq<seq<byte>>, order: seq<nat>, capacity: nat, now: nat)
    returns (out: seq<Option<seq<byte>>>)
    requires r.Valid() && r.established && r.seen == {} && r.recvKey == key && Lawful(r.crypto)
    requires |msgs| == |packets| && |packets| + WIDTH <= TWO64 && forall p :: p in packets ==> |p| <= capacity
    requires forall k :: 0 <= k < |msgs| ==> msgs[k] == DataMessage(r.crypto, index, k, key, packets[k])
    requires forall k :: 0 <= k < |order| ==> order[k] < |packets|
    modifies r
    ensures r.Valid() && |out| == |order|
    ensures forall i :: 0 <= i < |order| ==> out[i] == if Fresh(order, i) then Some(packets[order[i]]) else None
  {
    hide Stands, DataMessage, Lawful, CountsUp, Fresh, Tracks, Passes, OpenData, LE;
    out := [];
    assert Tracks(order, 0, {}) by {
      TracksNothing(order);
    }
    for i := 0 to |order|
      invariant r.Valid() && r.established && r.recvKey == key && |out| == i && Tracks(order, i, r.seen)
      invariant forall j :: 0 <= j < i ==> out[j] == if Fresh(order, j) then Some(packets[order[j]]) else None
    {
      var k := order[i];
      assert packets[k] in packets;
      DataOpens(r.crypto, index, k, key, packets[k]);
      PassesIff(r.window, r.seen, k);
      FreshIff(order, i, r.seen);
      TracksNext(order, i, r.seen);
      var got := r.Decapsulate(msgs[k], capacity, now);
      out := out + [got];
    }
  }

  lemma TracksNothing(order: seq<nat>)
    ensures Tracks(order, 0, {})
  {
  }

  /** From the first message to the last packet. */
  method Converse(i: Peer, r: Peer, ei: Key, er: Key, iIndex: nat, rIndex: nat, timestamp: seq<byte>, now: nat,
                  packets: seq<seq<byte>>, order: seq<nat>, capacity: nat)
    returns (ok: bool, out: seq<Option<seq<byte>>>)
    requires i != r && i.Valid() && r.Valid() && Matched(i, r) && Lawful(i.crypto)
    requires iIndex < 0x1_0000_0000 && rIndex < 0x1_0000_0000 && |timestamp| == 12
    requires |packets| + WIDTH <= TWO64 && forall p :: p in packets ==> OVERHEAD + |p| <= capacity
    requires forall k :: 0 <= k < |order| ==> order[k] < |packets|
    modifies i, r
    ensures ok <==> NonZero(i.crypto, i.staticPrivate, ei, r.staticPrivate, er)
    ensures ok ==> |out| == |order|
    ensures ok ==> forall k :: 0 <= k < |order| ==> out[k] == if Fresh(order, k) then Some(packets[order[k]]) else None
  {
    hide Fresh, NonZero, Lawful, DataMessage;
    out := [];
    ok := Exchange(i, r, ei, er, iIndex, rIndex, timestamp, now);
    if ok {
      ghost var index := i.remoteIndex;
      var msgs := SendAll(i, packets, capacity, now);
      out := Deliver(r, index, r.recvKey, packets, msgs, order, capacity, now);
    }
  }
}
