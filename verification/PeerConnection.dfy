/** A connection to a peer: what it has received, handled, queued and sent, whatever the sizes of the reads and writes. */
module PeerConnection {
  import opened Bytes
  import opened PeerFraming

  const HANDSHAKE: nat := 68
  const CHUNK: nat := 16 * 1024
  const READS_PER_POLL: nat := 8
  const IN_WASTE: nat := 32 * 1024
  const OUT_WASTE: nat := 64 * 1024
  const IN_LIMIT: nat := 4 * 1024 * 1024

  /** "BitTorrent protocol" */
  const PROTOCOL: seq<byte> := [66, 105, 116, 84, 111, 114, 114, 101, 110, 116, 32, 112, 114, 111, 116, 111, 99, 111, 108]

  datatype Phase = Connecting | Handshaking | Ready | Closed

  /** What one call to recv or send yields. */
  datatype Recv = Data(chunk: seq<byte>) | RecvWouldBlock | RecvEnded
  datatype Send = Accepted(n: nat) | SendWouldBlock | SendFailed

  /** A greeting this side accepts. */
  predicate Greets(hs: seq<byte>, infoHash: seq<byte>)
  {
    |hs| >= HANDSHAKE && |infoHash| == 20 && hs[0] == 19 && hs[1..20] == PROTOCOL && hs[28..48] == infoHash
  }

  /** The greeting this side sends: the protocol, one bit for extended messages, the torrent and the sender. */
  function Greeting(infoHash: seq<byte>, peerId: seq<byte>): seq<byte>
  {
    [19] + PROTOCOL + [0, 0, 0, 0, 0, 16, 0, 0] + infoHash + peerId
  }

  /** It is accepted exactly for the torrent it names. */
  lemma GreetingAcceptedIff(infoHash: seq<byte>, peerId: seq<byte>, mine: seq<byte>)
    requires |infoHash| == |peerId| == 20
    ensures |Greeting(infoHash, peerId)| == HANDSHAKE && (Greets(Greeting(infoHash, peerId), mine) <==> mine == infoHash)
    ensures Greeting(infoHash, peerId)[20..28] == [0, 0, 0, 0, 0, 0x10, 0, 0] && Greeting(infoHash, peerId)[48..] == peerId
  {
    var g := Greeting(infoHash, peerId);
    assert g[1..20] == PROTOCOL && g[28..48] == infoHash && g[48..] == peerId && g[20..28] == [0, 0, 0, 0, 0, 16, 0, 0];
  }

  /** So far handled, with unread still in the buffer, out of stream. */
  ghost predicate Midway(stream: seq<byte>, handled: seq<seq<byte>>, unread: seq<byte>)
  {
    Split(stream) == Parsed(handled + Split(unread).messages, Split(unread).rest)
  }

  lemma MidwayMore(stream: seq<byte>, handled: seq<seq<byte>>, unread: seq<byte>, chunk: seq<byte>)
    requires Midway(stream, handled, unread)
    ensures Midway(stream + chunk, handled, unread + chunk)
  {
    hide Split;
    SplitGoesOn(stream, chunk);
    SplitGoesOn(unread, chunk);
    Regroup(handled, Split(unread).messages, Split(Split(unread).rest + chunk).messages);
  }

  lemma MidwayNext(stream: seq<byte>, handled: seq<seq<byte>>, unread: seq<byte>, n: nat)
    requires Midway(stream, handled, unread) && Complete(unread) && n == Read32(unread)
    ensures |unread| >= 4 + n && Midway(stream, handled + [unread[4..4 + n]], unread[4 + n..])
  {
    CompleteSize(unread);
    SplitNext(unread, n);
    hide Split, Complete, Read32;
    Regroup(handled, [unread[4..4 + n]], Split(unread[4 + n..]).messages);
  }

  lemma MidwayEnd(stream: seq<byte>, handled: seq<seq<byte>>, unread: seq<byte>)
    requires !Complete(unread)
    ensures Midway(stream, handled, unread) <==> Split(stream) == Parsed(handled, unread)
  {
    SplitStops(unread);
    hide Split, Complete;
    assert handled + [] == handled;
  }

  lemma MidwayStart(stream: seq<byte>)
    ensures Midway(stream, [], stream)
  {
    hide Split;
    assert [] + Split(stream).messages == Split(stream).messages;
  }

  // --- what the socket yields ------------------------------------------------------------------

  /** recv fills at most the buffer it is given. */
  ghost predicate Chunks(recvs: seq<Recv>)
  {
    forall i :: 0 <= i < |recvs| && recvs[i].Data? ==> 0 < |recvs[i].chunk| <= CHUNK
  }

  /** How many of the pending bytes the calls to send take before one of them takes none. */
  function Accepts(sends: seq<Send>, pending: nat): (n: nat)
    ensures n <= pending
  {
    if pending == 0 || |sends| == 0 || !sends[0].Accepted? || sends[0].n == 0 then 0
    else
      var n := if sends[0].n <= pending then sends[0].n else pending;
      n + Accepts(sends[1..], pending - n)
  }

  /** Does a call to send fail before the pending bytes are gone? */
  predicate Refused(sends: seq<Send>, pending: nat)
  {
    pending > 0 && |sends| > 0 && !sends[0].SendWouldBlock? &&
    (sends[0].SendFailed? || sends[0].n == 0 || (sends[0].n < pending && Refused(sends[1..], pending - sends[0].n)))
  }

  /** The bytes of the first n reads, up to one that yields none. */
  function Taken(recvs: seq<Recv>, n: nat): seq<byte>
  {
    if n == 0 || |recvs| == 0 || !recvs[0].Data? then [] else recvs[0].chunk + Taken(recvs[1..], n - 1)
  }

  /** Is one of the first n reads, all before it yielding bytes, the end of the stream? */
  predicate Ended(recvs: seq<Recv>, n: nat)
  {
    n > 0 && |recvs| > 0 && (recvs[0].RecvEnded? || (recvs[0].Data? && Ended(recvs[1..], n - 1)))
  }

  lemma SendNext(sends: seq<Send>, i: nat, pending: nat)
    requires i < |sends| && pending > 0
    ensures var s := sends[i];
            if s.Accepted? && s.n > 0 then
              var n := if s.n <= pending then s.n else pending;
              Accepts(sends[i..], pending) == n + Accepts(sends[i + 1..], pending - n) && (Refused(sends[i..], pending) <==> Refused(sends[i + 1..], pending - n))
            else Accepts(sends[i..], pending) == 0 && (Refused(sends[i..], pending) <==> !s.SendWouldBlock?)
  {
    assert sends[i..][0] == sends[i] && sends[i..][1..] == sends[i + 1..];
  }

  lemma SendsOver(sends: seq<Send>, pending: nat)
    requires |sends| == 0 || pending == 0
    ensures Accepts(sends, pending) == 0 && !Refused(sends, pending)
  {
  }

  lemma ReadNext(recvs: seq<Recv>, i: nat, n: nat)
    requires i < |recvs| && n > 0
    ensures Taken(recvs[i..], n) == if recvs[i].Data? then recvs[i].chunk + Taken(recvs[i + 1..], n - 1) else []
    ensures Ended(recvs[i..], n) <==> recvs[i].RecvEnded? || (recvs[i].Data? && Ended(recvs[i + 1..], n - 1))
  {
    assert recvs[i..][0] == recvs[i] && recvs[i..][1..] == recvs[i + 1..];
  }

  lemma ReadsOver(recvs: seq<Recv>, n: nat)
    requires |recvs| == 0 || n == 0
    ensures Taken(recvs, n) == [] && !Ended(recvs, n)
  {
  }

  lemma JoinChunk(a: seq<byte>, chunk: seq<byte>, b: seq<byte>)
    ensures a + (chunk + b) == (a + chunk) + b && a + [] == a
  {
  }

  // --- what a stream of bytes leads to ---------------------------------------------------------

  /** The handler let the connection live through all of these messages. */
  ghost predicate NoneCloses(closes: seq<seq<byte>> -> bool, handled: seq<seq<byte>>, n: nat)
    requires n <= |handled| + 1
  {
    forall j :: 0 <= j < n ==> !closes(handled[..j])
  }

  /** The phase and the messages handled after a stream of bytes, whatever the reads that brought it. */
  ghost predicate Outcome(infoHash: seq<byte>, closes: seq<seq<byte>> -> bool, stream: seq<byte>, phase: Phase, handled: seq<seq<byte>>)
  {
    if |stream| < HANDSHAKE then phase == Handshaking && handled == []
    else if !Greets(stream, infoHash) then phase == Closed && handled == []
    else
      var p := Split(stream[HANDSHAKE..]);
      && handled <= p.messages && NoneCloses(closes, handled, |handled|)
      && if closes(handled) then phase == Closed
         else handled == p.messages && phase == if Oversized(p.rest) then Closed else Ready
  }

  /** A stream leads to one outcome. */
  lemma OutcomeUnique(infoHash: seq<byte>, closes: seq<seq<byte>> -> bool, stream: seq<byte>, ph1: Phase, h1: seq<seq<byte>>, ph2: Phase, h2: seq<seq<byte>>)
    requires Outcome(infoHash, closes, stream, ph1, h1) && Outcome(infoHash, closes, stream, ph2, h2)
    ensures ph1 == ph2 && h1 == h2
  {
    hide Split, Oversized, Greets;
    if |stream| >= HANDSHAKE && Greets(stream, infoHash) {
      PrefixesMeet(closes, h1, h2, Split(stream[HANDSHAKE..]).messages);
      PrefixesMeet(closes, h2, h1, Split(stream[HANDSHAKE..]).messages);
    }
  }

  lemma PrefixesMeet(closes: seq<seq<byte>> -> bool, a: seq<seq<byte>>, b: seq<seq<byte>>, ms: seq<seq<byte>>)
    requires a <= ms && b <= ms && NoneCloses(closes, b, |b|) && (closes(a) || a == ms)
    ensures |b| <= |a| && (|a| == |b| ==> a == b)
  {
    ShorterIsPrefix(a, b, ms);
  }

  lemma ShorterIsPrefix(a: seq<seq<byte>>, b: seq<seq<byte>>, ms: seq<seq<byte>>)
    requires a <= ms && b <= ms
    ensures |a| <= |b| ==> a == b[..|a|]
  {
  }

  /** Once a stream has closed the connection, more bytes change nothing. */
  lemma OutcomeStays(infoHash: seq<byte>, closes: seq<seq<byte>> -> bool, stream: seq<byte>, more: seq<byte>, handled: seq<seq<byte>>)
    requires Outcome(infoHash, closes, stream, Closed, handled)
    ensures Outcome(infoHash, closes, stream + more, Closed, handled)
  {
    hide Split, Complete;
    GreetsExtends(stream, more, infoHash);
    if Greets(stream, infoHash) {
      var a := stream[HANDSHAKE..];
      assert (stream + more)[HANDSHAKE..] == a + more;
      SplitGoesOn(a, more);
      SplitRest(a);
      if !closes(handled) {
        OversizedStays(Split(a).rest, more);
        SplitStops(Split(a).rest + more);
        assert handled + [] == handled;
      }
    }
  }

  lemma GreetsExtends(stream: seq<byte>, more: seq<byte>, infoHash: seq<byte>)
    requires |stream| >= HANDSHAKE
    ensures Greets(stream + more, infoHash) <==> Greets(stream, infoHash)
  {
    assert (stream + more)[1..20] == stream[1..20] && (stream + more)[28..48] == stream[28..48];
  }

  lemma OversizedStays(s: seq<byte>, t: seq<byte>)
    requires Oversized(s)
    ensures Oversized(s + t) && !Complete(s + t)
  {
  }

  class Connection {
    const infoHash: seq<byte>
    const greeting: seq<byte>  // the handshake this side sends
    const closes: seq<seq<byte>> -> bool  // does the handler close the connection after this history?
    var phase: Phase
    var inBuf: seq<byte>
    var inPos: nat
    var out: seq<byte>
    var outPos: nat
    ghost var received: seq<byte>
    var handled: seq<seq<byte>>  // what the handler has been given, in order
    ghost var queued: seq<byte>
    ghost var sent: seq<byte>

    /** Bytes sent and bytes pending are the bytes queued, in order. */
    ghost predicate OutOk()
      reads this
    {
      outPos <= |out| && sent + out[outPos..] == queued
    }

    /** What the buffer holds, right after reads. */
    ghost predicate Loaded()
      reads this
    {
      && inPos <= |inBuf| && inPos <= IN_WASTE
      && (phase == Handshaking || phase == Connecting ==> inPos == 0 && received == inBuf && handled == [])
      && (phase == Ready ==>
            && |received| >= HANDSHAKE && Greets(received, infoHash) && Midway(received[HANDSHAKE..], handled, inBuf[inPos..])
            && NoneCloses(closes, handled, |handled| + 1))
    }

    /** Between two polls everything that can be handled has been, so little is left over. */
    ghost predicate Valid()
      reads this
    {
      && OutOk() && Loaded()
      && (phase == Connecting ==> |inBuf| == 0)
      && (phase == Handshaking ==> |inBuf| < HANDSHAKE)
      && (phase == Ready ==> !Complete(inBuf[inPos..]) && !Oversized(inBuf[inPos..]))
    }

    constructor (infoHash: seq<byte>, peerId: seq<byte>, closes: seq<seq<byte>> -> bool)
      ensures Valid() && phase == Connecting && received == [] && queued == [] && handled == []
      ensures this.infoHash == infoHash && this.closes == closes && greeting == Greeting(infoHash, peerId)
    {
      this.infoHash, this.closes, greeting := infoHash, closes, Greeting(infoHash, peerId);
      phase, inBuf, inPos, out, outPos := Connecting, [], 0, [], 0;
      received, handled, queued, sent := [], [], [], [];
    }

    // --- sending -----------------------------------------------------------------------------

    method Queue(data: seq<byte>)
      requires OutOk()
      modifies this`out, this`queued
      ensures OutOk() && queued == old(queued) + data
    {
      assert (out + data)[outPos..] == out[outPos..] + data;
      out := out + data;
      queued := queued + data;
    }

    method QueueMessage(id: byte, payload: seq<byte>)
      requires OutOk() && |payload| + 1 < 0x1_0000_0000
      modifies this`out, this`queued
      ensures OutOk() && queued == old(queued) + Frame([id] + payload)
    {
      assert Frame([id] + payload) == Big32(|payload| + 1) + [id] + payload;
      hide Big32;
      ghost var q := queued;
      Queue(Big32(|payload| + 1) + [id]);
      if |payload| > 0 {
        Queue(payload);
      }
      assert queued == q + Frame([id] + payload);
    }

    /** flush: sends exactly what the calls to send take, in order; a failing one closes the connection. */
    method Flush(sends: seq<Send>)
      requires OutOk()
      modifies this`out, this`outPos, this`phase, this`sent
      ensures OutOk() && sent == old(queued)[..|old(sent)| + Accepts(sends, |old(queued)| - |old(sent)|)]
      ensures phase == if Refused(sends, |old(queued)| - |old(sent)|) then Closed else old(phase)
    {
      hide Accepts, Refused;
      ghost var pending := |out| - outPos;
      assert |queued| - |sent| == pending && sends[0..] == sends;
      var i := 0;
      while outPos < |out| && i < |sends|
        invariant OutOk() && out == old(out) && i <= |sends| && old(sent) <= sent && phase == old(phase)
        invariant Accepts(sends, pending) == |sent| - |old(sent)| + Accepts(sends[i..], |out| - outPos)
        invariant Refused(sends, pending) <==> Refused(sends[i..], |out| - outPos)
        decreases |sends| - i
      {
        SendNext(sends, i, |out| - outPos);
        match sends[i] {
          case Accepted(k) =>
            if k == 0 {
              phase := Closed;
              return;
            }
            var n := if k <= |out| - outPos then k else |out| - outPos;
            SendPart(n);
            sent := sent + out[outPos..outPos + n];
            outPos := outPos + n;
          case SendWouldBlock =>
            break;
          case SendFailed =>
            phase := Closed;
            return;
        }
        i := i + 1;
      }
      if i == |sends| || outPos == |out| {
        SendsOver(sends[i..], |out| - outPos);
      }
      if outPos >= |out| {
        out, outPos := [], 0;
      } else if outPos > OUT_WASTE {
        out, outPos := out[outPos..], 0;
      }
    }

    lemma SendPart(n: nat)
      requires OutOk() && outPos + n <= |out|
      ensures sent + out[outPos..outPos + n] + out[outPos + n..] == queued
    {
      assert out[outPos..] == out[outPos..outPos + n] + out[outPos + n..];
      JoinChunk(sent, out[outPos..outPos + n], out[outPos + n..]);
    }

    // --- receiving -----------------------------------------------------------------------------

    method CompactIn()
      requires inPos <= |inBuf|
      modifies this`inBuf, this`inPos
      ensures inPos <= |inBuf| && inBuf[inPos..] == old(inBuf[inPos..]) && inPos <= IN_WASTE
    {
      if inPos == 0 {
        return;
      }
      if inPos >= |inBuf| {
        inBuf, inPos := [], 0;
        return;
      }
      if inPos > IN_WASTE {
        inBuf, inPos := inBuf[inPos..], 0;
      }
    }

    method ConsumeHandshake() returns (ok: bool)
      requires Loaded() && phase == Handshaking
      modifies this`phase, this`inPos
      ensures Loaded() && (ok <==> Greets(received, infoHash))
      ensures ok ==> phase == if closes([]) then Closed else Ready
      ensures phase != Ready ==> Outcome(infoHash, closes, received, phase, handled)
    {
      hide Split, Midway;
      if |inBuf| - inPos < HANDSHAKE {
        return false;
      }
      var hs := inBuf[inPos..];
      if !Greets(hs, infoHash) {
        phase := Closed;
        return false;
      }
      MidwayStart(received[HANDSHAKE..]);
      inPos := inPos + HANDSHAKE;
      phase := if closes([]) then Closed else Ready;
      return true;
    }

    method ConsumeMessages() returns (open: bool)
      requires Loaded() && phase == Ready
      modifies this`phase, this`inBuf, this`inPos, this`handled
      ensures Loaded() && (open <==> phase == Ready) && Outcome(infoHash, closes, received, phase, handled)
      ensures open ==> !Complete(inBuf[inPos..]) && !Oversized(inBuf[inPos..])
    {
      hide Split, Read32, Midway, Outcome, Greets, NoneCloses, Complete, Oversized;
      while true
        invariant Loaded() && phase == Ready
        decreases |inBuf| - inPos
      {
        var more := ConsumeOne();
        if !more {
          return phase == Ready;
        }
      }
    }

    /** One turn of the loop. */
    method ConsumeOne() returns (more: bool)
      requires Loaded() && phase == Ready
      modifies this`phase, this`inBuf, this`inPos, this`handled
      ensures Loaded() && (phase == Ready || phase == Closed) && (more ==> phase == Ready)
      ensures more ==> |inBuf| - inPos < old(|inBuf| - inPos)
      ensures !more ==> Outcome(infoHash, closes, received, phase, handled)
      ensures !more && phase == Ready ==> !Complete(inBuf[inPos..]) && !Oversized(inBuf[inPos..])
    {
      hide Split, Read32, Midway, Outcome, NoneCloses, Greets;
      var unread := inBuf[inPos..];
      if |unread| < 4 {
        Stopped(unread);
        return false;
      }
      var n := Read32(unread);
      if n > MAX_MESSAGE {
        Stopped(unread);
        phase := Closed;
        return false;
      }
      if |unread| < 4 + n {
        Stopped(unread);
        return false;
      }
      var m := unread[4..4 + n];
      MidwayNext(received[HANDSHAKE..], handled, unread, n);
      OneMore(closes, handled, m);
      handled := handled + [m];
      if closes(handled) {
        ClosedBy(unread[4 + n..]);
        phase := Closed;
        return false;
      }
      assert inBuf[inPos + (4 + n)..] == unread[4 + n..];
      inPos := inPos + (4 + n);
      CompactIn();
      return true;
    }

    /** Nothing more can be handled: too little has come, or the next message is too long. */
    lemma Stopped(unread: seq<byte>)
      requires Loaded() && phase == Ready && unread == inBuf[inPos..] && !Complete(unread)
      ensures Outcome(infoHash, closes, received, if Oversized(unread) then Closed else Ready, handled)
    {
      MidwayEnd(received[HANDSHAKE..], handled, unread);
      hide Split, Complete, Oversized, Midway, Greets;
      assert handled[..|handled|] == handled;
    }

    /** The handler closed the connection on the message it has just been given. */
    lemma ClosedBy(unread: seq<byte>)
      requires |received| >= HANDSHAKE && Greets(received, infoHash) && Midway(received[HANDSHAKE..], handled, unread)
      requires NoneCloses(closes, handled, |handled|) && closes(handled)
      ensures Outcome(infoHash, closes, received, Closed, handled)
    {
      hide Split, Greets;
    }

    /** The reads of one poll; the buffer never comes near its limit, so that branch is never taken. */
    method ReadChunks(recvs: seq<Recv>, n: nat) returns (open: bool)
      requires Valid() && (phase == Handshaking || phase == Ready) && n == READS_PER_POLL
      requires Chunks(recvs)
      modifies this`phase, this`inBuf, this`received
      ensures Loaded() && received == old(received) + Taken(recvs, n) && |inBuf| < IN_LIMIT
      ensures (open <==> !Ended(recvs, n)) && phase == if open then old(phase) else Closed
    {
      hide Split, Complete, Oversized, Midway, Greets, NoneCloses, Taken, Ended;
      BufferBounded();
      ghost var all := received + Taken(recvs, n);
      assert recvs[0..] == recvs;
      var i := 0;
      while i < n && i < |recvs|
        invariant i <= n && i <= |recvs| && Loaded() && phase == old(phase)
        invariant received + Taken(recvs[i..], n - i) == all
        invariant Ended(recvs[i..], n - i) <==> Ended(recvs, n)
        invariant |inBuf| <= old(|inBuf|) + i * CHUNK
      {
        ReadNext(recvs, i, n - i);
        match recvs[i] {
          case Data(chunk) =>
            JoinChunk(received, chunk, Taken(recvs[i + 1..], n - (i + 1)));
            TakeChunk(chunk);
          case RecvWouldBlock =>
            JoinChunk(received, [], []);
            return true;
          case RecvEnded =>
            JoinChunk(received, [], []);
            phase := Closed;
            return false;
        }
        i := i + 1;
      }
      ReadsOver(recvs[i..], n - i);
      JoinChunk(received, [], []);
      open := true;
    }

    /** Between polls the buffer holds less than one message, and what is left of the last compaction. */
    lemma BufferBounded()
      requires Valid() && (phase == Handshaking || phase == Ready)
      ensures |inBuf| < IN_WASTE + 4 + MAX_MESSAGE && |inBuf| + READS_PER_POLL * CHUNK < IN_LIMIT
    {
      hide Split, Complete, Oversized, Midway;
      if phase == Ready {
        RestBounded(inBuf[inPos..]);
      }
    }

    method TakeChunk(chunk: seq<byte>)
      requires Loaded() && (phase == Handshaking || phase == Ready)
      modifies this`inBuf, this`received
      ensures Loaded() && received == old(received) + chunk && inBuf == old(inBuf) + chunk
    {
      hide Midway, NoneCloses;
      if phase == Ready {
        GreetsExtends(received, chunk, infoHash);
        MidwayMore(received[HANDSHAKE..], handled, inBuf[inPos..], chunk);
        assert (received + chunk)[HANDSHAKE..] == received[HANDSHAKE..] + chunk;
        assert (inBuf + chunk)[inPos..] == inBuf[inPos..] + chunk;
      }
      inBuf, received := inBuf + chunk, received + chunk;
    }

    /**
     * on_poll: connected tells the outcome of an outgoing connection, recvs and sends what the socket
     * yields. Outside of a failure, what the connection has come to is the outcome of its bytes.
     */
    method OnPoll(hasError: bool, canWrite: bool, canRead: bool, connected: bool, recvs: seq<Recv>, sends: seq<Send>)
      requires Valid() && Chunks(recvs)
      modifies this
      ensures Valid()
      ensures old(phase) == Closed || hasError || (old(phase) == Connecting && !(canWrite && connected)) ==>
                && received == old(received) && handled == old(handled) && sent == old(sent) && queued == old(queued)
                && phase == if old(phase) == Connecting && !hasError && !canWrite then Connecting else Closed
      ensures old(phase) == Connecting && !hasError && canWrite && connected ==>
                && received == old(received) && handled == old(handled) && queued == old(queued) + greeting
                && Flushed(old(sent), queued, sends) && phase == if Refused(sends, |queued| - |old(sent)|) then Closed else Handshaking
      ensures old(Open()) && !hasError ==>
                && queued == old(queued) && (if canWrite then Flushed(old(sent), queued, sends) else sent == old(sent))
      ensures old(Open()) && !hasError ==>
                if canWrite && Refused(sends, |queued| - |old(sent)|) then phase == Closed && received == old(received) && handled == old(handled)
                else if !canRead then phase == old(phase) && received == old(received) && handled == old(handled)
                else
                  && received == old(received) + Taken(recvs, READS_PER_POLL)
                  && if Ended(recvs, READS_PER_POLL) then phase == Closed && handled == old(handled)
                     else Outcome(infoHash, closes, received, phase, handled)
    {
      hide Split, Complete, Oversized, Midway, Greets, NoneCloses, Taken, Ended, Accepts, Refused, Outcome, Chunks;
      if phase == Closed {
        return;
      }
      if hasError {
        phase := Closed;
        return;
      }
      if phase == Connecting {
        if !canWrite {
          return;
        }
        if !connected {
          phase := Closed;
          return;
        }
        phase := Handshaking;
        Queue(greeting);
        Flush(sends);
        return;
      }
      if canWrite {
        Flush(sends);
      }
      if phase == Closed {
        return;
      }
      if canRead {
        var open := ReadChunks(recvs, READS_PER_POLL);
        if open {
          Consume();
        }
      }
    }

    predicate Open()
      reads this
    {
      phase == Handshaking || phase == Ready
    }

    /** What was sent has grown by exactly what the calls to send took. */
    ghost predicate Flushed(before: seq<byte>, queued: seq<byte>, sends: seq<Send>)
      reads this
    {
      |before| <= |queued| && sent == queued[..|before| + Accepts(sends, |queued| - |before|)]
    }

    method Consume()
      requires Loaded() && OutOk() && (phase == Handshaking || phase == Ready)
      modifies this`phase, this`inBuf, this`inPos, this`handled
      ensures Valid() && Outcome(infoHash, closes, received, phase, handled)
    {
      hide Split, Complete, Oversized, Midway, Greets;
      if phase == Handshaking {
        var ok := ConsumeHandshake();
        if !ok {
          return;
        }
      }
      if phase == Ready {
        var open := ConsumeMessages();
      }
    }

    /** An open connection has come to the outcome of what it has received. */
    lemma OpenOutcome()
      requires Valid() && Open()
      ensures Outcome(infoHash, closes, received, phase, handled)
    {
      if phase == Ready {
        Stopped(inBuf[inPos..]);
      }
    }
  }

  // --- whole runs --------------------------------------------------------------------------------

  /** The bytes of a run of polls. */
  function Stream(polls: seq<seq<Recv>>): seq<byte>
  {
    if |polls| == 0 then [] else Stream(polls[..|polls| - 1]) + Taken(polls[|polls| - 1], READS_PER_POLL)
  }

  /**
   * However the reads of a run cut the stream, and whenever the connection closed on it, phase and
   * messages handled are the outcome of the concatenation; OutcomeUnique makes that one outcome.
   */
  method Run(c: Connection, polls: seq<seq<Recv>>)
    requires c.Valid() && c.Open()
    requires forall rs :: rs in polls ==> Chunks(rs) && !Ended(rs, READS_PER_POLL)
    modifies c
    ensures c.Valid() && Outcome(c.infoHash, c.closes, old(c.received) + Stream(polls), c.phase, c.handled)
  {
    hide Connection.Valid, Split, Taken, Ended, Outcome, Connection.Open, Chunks;
    c.OpenOutcome();
    ghost var start := c.received;
    assert polls[..0] == [] && start + [] == start;
    for i := 0 to |polls|
      invariant c.Valid() && HasRead(c, start + Stream(polls[..i]))
    {
      assert polls[..i + 1][..i] == polls[..i] && polls[..i + 1][i] == polls[i];
      assert start + (Stream(polls[..i]) + Taken(polls[i], READS_PER_POLL)) == (start + Stream(polls[..i])) + Taken(polls[i], READS_PER_POLL);
      ReadOnce(c, polls[i], start + Stream(polls[..i]));
    }
    assert polls[..|polls|] == polls;
  }

  /** The connection stands where the stream leads, having read all of it unless that closed it on the way. */
  ghost predicate HasRead(c: Connection, stream: seq<byte>)
    reads c
  {
    Outcome(c.infoHash, c.closes, stream, c.phase, c.handled) && (c.phase == Closed || (c.Open() && c.received == stream))
  }

  method ReadOnce(c: Connection, rs: seq<Recv>, ghost stream: seq<byte>)
    requires c.Valid() && HasRead(c, stream) && Chunks(rs) && !Ended(rs, READS_PER_POLL)
    modifies c
    ensures c.Valid() && HasRead(c, stream + Taken(rs, READS_PER_POLL))
  {
    hide Connection.Valid, Split, Taken, Ended, Greets, NoneCloses, Oversized, Chunks;
    if c.phase == Closed {
      OutcomeStays(c.infoHash, c.closes, stream, Taken(rs, READS_PER_POLL), c.handled);
    }
    hide Outcome;
    c.OnPoll(false, false, true, true, rs, []);
    OutcomePhase(c.infoHash, c.closes, stream + Taken(rs, READS_PER_POLL), c.phase, c.handled);
  }

  lemma OutcomePhase(infoHash: seq<byte>, closes: seq<seq<byte>> -> bool, stream: seq<byte>, phase: Phase, handled: seq<seq<byte>>)
    requires Outcome(infoHash, closes, stream, phase, handled)
    ensures phase != Connecting
  {
    hide Split, Greets, NoneCloses, Oversized;
  }

  /** Two open connections that have received the same bytes, however cut, have handled the same messages. */
  lemma ChunkingIrrelevant(a: Connection, b: Connection)
    requires a.Valid() && b.Valid() && a.Open() && b.Open() && a.received == b.received && a.infoHash == b.infoHash && a.closes == b.closes
    ensures a.handled == b.handled && a.phase == b.phase
  {
    hide Split, Complete, Oversized, Midway, Outcome;
    a.OpenOutcome();
    b.OpenOutcome();
    OutcomeUnique(a.infoHash, a.closes, a.received, a.phase, a.handled, b.phase, b.handled);
  }

  /**
   * If the other side framed its messages, what is handled of any part of them that has come is a
   * prefix of them, and all of them once all has come, unless the handler has closed the connection.
   */
  lemma FramesHandled(infoHash: seq<byte>, closes: seq<seq<byte>> -> bool, stream: seq<byte>, phase: Phase, handled: seq<seq<byte>>, ms: seq<seq<byte>>)
    requires Outcome(infoHash, closes, stream, phase, handled) && Greets(stream, infoHash)
    requires (forall m :: m in ms ==> |m| <= MAX_MESSAGE) && stream[HANDSHAKE..] <= Frames(ms)
    ensures handled <= ms && (phase == Closed <==> closes(handled))
    ensures stream[HANDSHAKE..] == Frames(ms) && phase == Ready ==> handled == ms
  {
    hide Split, Complete, Oversized, Frames, NoneCloses;
    var a, all := stream[HANDSHAKE..], Frames(ms);
    SplitFrames(ms);
    assert a + all[|a|..] == all;
    SplitGoesOn(a, all[|a|..]);
    if Oversized(Split(a).rest) {
      OversizedStays(Split(a).rest, all[|a|..]);
      SplitStops(Split(a).rest + all[|a|..]);
      NotOversized();
    }
  }

  lemma NotOversized()
    ensures !Oversized([])
  {
  }

  lemma OneMore(closes: seq<seq<byte>> -> bool, handled: seq<seq<byte>>, m: seq<byte>)
    requires NoneCloses(closes, handled, |handled| + 1)
    ensures NoneCloses(closes, handled + [m], |handled| + 1)
    ensures !closes(handled + [m]) ==> NoneCloses(closes, handled + [m], |handled| + 2)
  {
    assert forall j :: 0 <= j <= |handled| ==> (handled + [m])[..j] == handled[..j];
    assert (handled + [m])[..|handled| + 1] == handled + [m];
  }
}
