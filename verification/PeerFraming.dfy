/** The framing of the peer wire protocol (BEP 3): length-prefixed messages in a byte stream. */
module PeerFraming {
  import opened Bytes

  const MAX_MESSAGE: nat := 64 * 1024

  /** A 32-bit big-endian number. */
  function Big32(n: nat): (s: seq<byte>)
    requires n < 0x1_0000_0000
    ensures |s| == 4
  {
    [(n / 0x100_0000) as byte, (n / 0x1_0000 % 256) as byte, (n / 256 % 256) as byte, (n % 256) as byte]
  }

  function Read32(s: seq<byte>): nat
    requires |s| >= 4
  {
    s[0] as nat * 0x100_0000 + s[1] as nat * 0x1_0000 + s[2] as nat * 256 + s[3] as nat
  }

  lemma Read32Back(n: nat, rest: seq<byte>)
    requires n < 0x1_0000_0000
    ensures Read32(Big32(n) + rest) == n
  {
    var s := Big32(n) + rest;
    assert s[0] == Big32(n)[0] && s[1] == Big32(n)[1] && s[2] == Big32(n)[2] && s[3] == Big32(n)[3];
  }

  /** Both go by the big end. */
  lemma Read32IsBE(s: seq<byte>)
    requires |s| >= 4
    ensures Read32(s) == BE(s[..4])
  {
    var t := s[..4];
    assert t[..3][..2] == t[..2] && t[..3][2] == s[2] && t[..2][..1] == t[..1] && t[..2][1] == s[1] && t[..1][0] == s[0];
    assert BE(t) == 256 * BE(t[..3]) + s[3] as int;
    assert BE(t[..3]) == 256 * BE(t[..2]) + s[2] as int;
    assert BE(t[..2]) == 256 * BE(t[..1]) + s[1] as int;
    assert BE(t[..1]) == 256 * BE(t[..0]) + s[0] as int;
  }

  /** A whole message, with its length in front. */
  function Frame(m: seq<byte>): (s: seq<byte>)
    requires |m| < 0x1_0000_0000
    ensures |s| == 4 + |m|
  {
    Big32(|m|) + m
  }

  datatype Parsed = Parsed(messages: seq<seq<byte>>, rest: seq<byte>)

  /** Is there a whole message of an acceptable length in front? */
  predicate Complete(s: seq<byte>)
  {
    |s| >= 4 && Read32(s) <= MAX_MESSAGE && |s| >= 4 + Read32(s)
  }

  /** A length no message may have. */
  predicate Oversized(s: seq<byte>)
  {
    |s| >= 4 && Read32(s) > MAX_MESSAGE
  }

  /** The messages of a stream and what is left over. */
  function Split(s: seq<byte>): Parsed
  {
    if !Complete(s) then Parsed([], s)
    else
      var n := Read32(s);
      var tail := Split(s[4 + n..]);
      Parsed([s[4..4 + n]] + tail.messages, tail.rest)
  }

  lemma {:induction false} SplitRest(s: seq<byte>)
    ensures !Complete(Split(s).rest) && |Split(s).rest| <= |s|
  {
    hide Complete, Read32;
    if Complete(s) {
      CompleteSize(s);
      SplitRest(s[4 + Read32(s)..]);
    }
  }

  lemma CompleteSize(s: seq<byte>)
    requires Complete(s)
    ensures |s| >= 4 && |s| >= 4 + Read32(s)
  {
  }

  lemma CompleteExtends(s: seq<byte>, t: seq<byte>)
    requires Complete(s)
    ensures Complete(s + t) && Read32(s + t) == Read32(s)
  {
  }

  lemma SplitNext(s: seq<byte>, n: nat)
    requires Complete(s) && n == Read32(s)
    ensures |s| >= 4 + n && Split(s) == Parsed([s[4..4 + n]] + Split(s[4 + n..]).messages, Split(s[4 + n..]).rest)
  {
    CompleteSize(s);
    hide Complete, Read32;
  }

  lemma SplitStops(s: seq<byte>)
    requires !Complete(s)
    ensures Split(s) == Parsed([], s)
  {
  }

  lemma Cut(s: seq<byte>, t: seq<byte>, n: nat)
    requires |s| >= 4 + n
    ensures (s + t)[4..4 + n] == s[4..4 + n] && (s + t)[4 + n..] == s[4 + n..] + t
  {
  }

  /** Parsing can stop anywhere and go on with what was left over and what came later. */
  lemma {:induction false} SplitGoesOn(s: seq<byte>, t: seq<byte>)
    ensures Split(s + t) == Parsed(Split(s).messages + Split(Split(s).rest + t).messages, Split(Split(s).rest + t).rest)
    decreases |s|
  {
    hide Split, Complete, Read32;
    if Complete(s) {
      CompleteSize(s);
      var n := Read32(s);
      CompleteExtends(s, t);
      SplitNext(s, n);
      SplitNext(s + t, n);
      Cut(s, t, n);
      SplitGoesOn(s[4 + n..], t);
      Regroup([s[4..4 + n]], Split(s[4 + n..]).messages, Split(Split(s).rest + t).messages);
    } else {
      SplitStops(s);
      assert [] + Split(s + t).messages == Split(s + t).messages;
    }
  }

  lemma Regroup(a: seq<seq<byte>>, b: seq<seq<byte>>, c: seq<seq<byte>>)
    ensures a + (b + c) == (a + b) + c
  {
  }

  function Frames(ms: seq<seq<byte>>): seq<byte>
    requires forall m :: m in ms ==> |m| <= MAX_MESSAGE
  {
    if |ms| == 0 then [] else Frame(ms[0]) + Frames(ms[1..])
  }

  /** The receiver recovers exactly the messages that were framed, in order. */
  lemma {:induction false} SplitFrames(ms: seq<seq<byte>>)
    requires forall m :: m in ms ==> |m| <= MAX_MESSAGE
    ensures Split(Frames(ms)) == Parsed(ms, [])
  {
    hide Split, Big32, Read32, Complete;
    if |ms| > 0 {
      var m, tail := ms[0], Frames(ms[1..]);
      FrameFirst(m, tail);
      SplitNext(Frame(m) + tail, |m|);
      SplitFrames(ms[1..]);
      assert [m] + ms[1..] == ms;
    } else {
      NoFrames();
    }
  }

  lemma NoFrames()
    ensures Split([]) == Parsed([], [])
  {
  }

  lemma FrameFirst(m: seq<byte>, tail: seq<byte>)
    requires |m| <= MAX_MESSAGE
    ensures var s := Frame(m) + tail;
            Complete(s) && Read32(s) == |m| && s[4..4 + |m|] == m && s[4 + |m|..] == tail
  {
    assert Frame(m) + tail == Big32(|m|) + (m + tail);
    Read32Back(|m|, m + tail);
    hide Big32, Read32;
  }

  /** A stream in progress, with nothing oversized in front, leaves less than one message over. */
  lemma RestBounded(s: seq<byte>)
    requires !Complete(s) && !Oversized(s)
    ensures |s| < 4 + MAX_MESSAGE
  {
  }
}
