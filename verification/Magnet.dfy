/** Magnet links (BEP 9): the link written for a torrent, and the reader that takes it back. */
module Magnet {
  import opened Bytes
  import opened Options
  import opened UrlText

  datatype Link = Link(infoHash: seq<byte>, displayName: string, trackers: seq<string>, webSeeds: seq<string>, exactLength: nat)

  const HASH: nat := 20
  const SCHEME: string := "magnet:?"
  const BTIH: string := "urn:btih:"
  const BTMH: string := "urn:btmh:"
  const TOPIC: string := "xt=urn:btih:"

  /** The link before anything has been read. */
  function Blank(): Link
  {
    Link(seq(HASH, _ => 0), "", [], [], 0)
  }

  /** What the reader needs from outside its own text handling: base32 identifiers and strtoll. */
  datatype Readers = Readers(base32: string -> Option<seq<byte>>, number: string -> int)

  // --- reading -----------------------------------------------------------------------------------

  datatype Step = Refused | Next(link: Link, hasHash: bool)

  /** The info_hash of an identifier: 40 hexadecimal digits or 32 base32 ones. */
  ghost predicate Identifies(rd: Readers, id: string, hash: seq<byte>)
  {
    (|id| == 40 && |hash| == HASH && IsHexOf(id, hash)) || (|id| == 32 && rd.base32(id) == Some(hash))
  }

  ghost predicate Identified(rd: Readers, id: string)
  {
    (|id| == 40 && AllHex(id)) || (|id| == 32 && rd.base32(id).Some?)
  }

  predicate IsTopic(key: string)
  {
    key == "xt" || StartsWith(key, "xt.")
  }

  /** One parameter, as the reader takes it. */
  ghost predicate Takes(rd: Readers, key: string, value: string, link: Link, hasHash: bool, next: Step)
  {
    if value == "" then next == Next(link, hasHash)
    else if IsTopic(key) && StartsWith(value, BTIH) then
      if Identified(rd, value[9..])
      then next.Next? && next.hasHash && Identifies(rd, value[9..], next.link.infoHash) && next.link == link.(infoHash := next.link.infoHash)
      else next == Refused
    else next == Otherwise(rd, key, value, link, hasHash)
  }

  /** Everything but an info_hash. */
  function Otherwise(rd: Readers, key: string, value: string, link: Link, hasHash: bool): Step
  {
    if IsTopic(key) then (if StartsWith(value, BTMH) then Refused else Next(link, hasHash))
    else if key == "dn" then Next(link.(displayName := value), hasHash)
    else if key == "tr" then Next(link.(trackers := link.trackers + [value]), hasHash)
    else if key == "ws" then Next(link.(webSeeds := link.webSeeds + [value]), hasHash)
    else if key == "xl" && rd.number(value) > 0 then Next(link.(exactLength := rd.number(value)), hasHash)
    else Next(link, hasHash)
  }

  /** One piece of the query: cut at its first equals sign, or skipped. */
  ghost predicate TakesPiece(rd: Readers, raw: string, link: Link, hasHash: bool, next: Step)
  {
    var eq := Find(raw, '=', 0);
    if eq == |raw| then next == Next(link, hasHash) else Takes(rd, raw[..eq], Decode(raw[eq + 1..]), link, hasHash, next)
  }

  method TakeParameter(rd: Readers, raw: string, link: Link, hasHash: bool) returns (next: Step)
    ensures TakesPiece(rd, raw, link, hasHash, next)
  {
    hide Find, Decode, StartsWith, IsHexOf, AllHex;
    var eq := Find(raw, '=', 0);
    if eq == |raw| {
      return Next(link, hasHash);
    }
    var key := raw[..eq];
    var value := UrlDecode(raw[eq + 1..]);
    if value == "" {
      return Next(link, hasHash);
    }
    if IsTopic(key) && StartsWith(value, BTIH) {
      next := TakeHash(rd, value, link);
    } else {
      next := Otherwise(rd, key, value, link, hasHash);
    }
  }

  method TakeHash(rd: Readers, value: string, link: Link) returns (next: Step)
    requires StartsWith(value, BTIH)
    ensures if Identified(rd, value[9..])
            then next.Next? && next.hasHash && Identifies(rd, value[9..], next.link.infoHash) && next.link == link.(infoHash := next.link.infoHash)
            else next == Refused
  {
    hide IsHexOf, AllHex;
    var id := value[9..];
    var h: Option<seq<byte>> := None;
    if |id| == 40 {
      h := FromHex(id, HASH);
    } else if |id| == 32 {
      h := rd.base32(id);
    }
    next := if h.None? then Refused else Next(link.(infoHash := h.value), true);
  }

  /** The reader's loop over the pieces, as a chain of states. */
  ghost predicate Chain(rd: Readers, pieces: seq<string>, states: seq<Step>)
  {
    && 0 < |states| <= |pieces| + 1 && states[0] == Next(Blank(), false)
    && (forall i :: 0 <= i < |states| - 1 ==> states[i].Next? && TakesPiece(rd, pieces[i], states[i].link, states[i].hasHash, states[i + 1]))
    && (states[|states| - 1].Next? ==> |states| == |pieces| + 1)
  }

  /** The query, cut at its separators, and what its pieces taken in turn leave. */
  ghost predicate ParsedAs(rd: Readers, query: string, ok: bool, link: Link, pieces: seq<string>, states: seq<Step>)
  {
    && |pieces| > 0 && Join(pieces, '&') == query && (forall p :: p in pieces ==> Without(p, '&'))
    && Chain(rd, pieces, states) && (ok <==> states[|states| - 1].Next? && states[|states| - 1].hasHash)
    && (ok ==> link == states[|states| - 1].link)
  }

  ghost predicate Parses(rd: Readers, uri: string, ok: bool, link: Link)
  {
    var t := TrimRight(TrimLeft(uri));
    if !StartsWith(t, SCHEME) then !ok else exists pieces, states :: ParsedAs(rd, t[8..], ok, link, pieces, states)
  }

  /** parse_magnet */
  method ParseMagnet(rd: Readers, uri: string) returns (ok: bool, link: Link)
    ensures Parses(rd, uri, ok, link)
  {
    hide TakesPiece, TrimLeft, TrimRight, Join, Without;
    link := Blank();
    var trimmed := Trim(uri);
    if !StartsWith(trimmed, SCHEME) {
      return false, link;
    }
    var query := trimmed[8..];
    var raw := Split(query, '&');
    var hasHash := false;
    ghost var states := [Next(Blank(), false)];
    for i := 0 to |raw|
      invariant |states| == i + 1 && states[0] == Next(Blank(), false) && states[i] == Next(link, hasHash)
      invariant forall j :: 0 <= j < i ==> states[j].Next? && TakesPiece(rd, raw[j], states[j].link, states[j].hasHash, states[j + 1])
    {
      var next := TakeParameter(rd, raw[i], link, hasHash);
      states := states + [next];
      if next.Refused? {
        assert ParsedAs(rd, query, false, link, raw, states);
        return false, link;
      }
      link, hasHash := next.link, next.hasHash;
    }
    ok := hasHash;
    assert ParsedAs(rd, query, ok, link, raw, states);
  }

  // --- writing ------------------------------------------------------------------------------------

  /** The parameters magnet_for writes. */
  function Parameters(hash: seq<byte>, name: string, trackers: seq<string>): (ps: seq<string>)
    requires IsBytes(name) && forall t :: t in trackers ==> IsBytes(t)
    ensures |ps| > 0
  {
    [TOPIC + Hex(hash)] + (if name == "" then [] else ["dn=" + Encode(name)]) + TrackerParameters(trackers)
  }

  function TrackerParameters(trackers: seq<string>): (ps: seq<string>)
    requires forall t :: t in trackers ==> IsBytes(t)
    ensures |ps| == |trackers| && forall i :: 0 <= i < |trackers| ==> ps[i] == "tr=" + Encode(trackers[i])
  {
    seq(|trackers|, i requires 0 <= i < |trackers| => "tr=" + Encode(trackers[i]))
  }

  ghost predicate Written(uri: string, ps: seq<string>)
  {
    |ps| > 0 && uri == SCHEME + Join(ps, '&')
  }

  lemma WrittenMore(uri: string, ps: seq<string>, key: string, value: string)
    requires Written(uri, ps) && |key| > 0 && key[0] == '&'
    ensures Written(uri + key + value, ps + [key[1..] + value])
  {
    hide Join;
    JoinSnoc(ps, key[1..] + value, '&');
    assert key == ['&'] + key[1..];
    assert SCHEME + (Join(ps, '&') + ['&'] + (key[1..] + value)) == uri + key + value;
  }

  method MagnetFor(hash: seq<byte>, name: string, trackers: seq<string>) returns (uri: string)
    requires IsBytes(name) && forall t :: t in trackers ==> IsBytes(t)
    ensures Written(uri, Parameters(hash, name, trackers))
  {
    hide Join, Encode, Hex, Written, IsBytes;
    var hex := ToHex(hash);
    uri := "magnet:?xt=urn:btih:" + hex;
    ghost var ps := [TOPIC + Hex(hash)];
    FirstWritten(hash);
    if |name| > 0 {
      var dn := UrlEncode(name);
      WrittenMore(uri, ps, "&dn=", dn);
      assert "&dn="[1..] == "dn=";
      uri := uri + "&dn=" + dn;
      ps := ps + ["dn=" + Encode(name)];
    }
    uri := WriteTrackers(uri, ps, trackers);
    assert [TOPIC + Hex(hash)] + [] == [TOPIC + Hex(hash)];
  }

  lemma FirstWritten(hash: seq<byte>)
    ensures Written("magnet:?xt=urn:btih:" + Hex(hash), [TOPIC + Hex(hash)])
  {
    hide Hex, Join;
    JoinSnoc([], TOPIC + Hex(hash), '&');
    assert [] + [TOPIC + Hex(hash)] == [TOPIC + Hex(hash)];
    assert "magnet:?xt=urn:btih:" == SCHEME + TOPIC;
    assert "magnet:?xt=urn:btih:" + Hex(hash) == SCHEME + (TOPIC + Hex(hash));
  }

  method WriteTrackers(head: string, ghost ps: seq<string>, trackers: seq<string>) returns (uri: string)
    requires Written(head, ps) && forall t :: t in trackers ==> IsBytes(t)
    ensures Written(uri, ps + TrackerParameters(trackers))
  {
    hide Encode, Written, IsBytes;
    uri := head;
    ghost var all, ts := ps, TrackerParameters(trackers);
    assert ps + ts[..0] == ps;
    for i := 0 to |trackers|
      invariant Written(uri, all) && all == ps + ts[..i]
    {
      assert trackers[i] in trackers;
      var tr := UrlEncode(trackers[i]);
      WrittenMore(uri, all, "&tr=", tr);
      assert "&tr="[1..] == "tr=";
      assert ps + ts[..i + 1] == ps + ts[..i] + [ts[i]];
      uri := uri + "&tr=" + tr;
      all := all + [ts[i]];
    }
    assert ts[..|trackers|] == ts;
  }

  // --- reading back what was written ------------------------------------------------------------------

  /** The trackers a reader keeps: empty ones are skipped. */
  function NonEmpty(trackers: seq<string>): seq<string>
  {
    if |trackers| == 0 then []
    else NonEmpty(trackers[..|trackers| - 1]) + (if trackers[|trackers| - 1] == "" then [] else [trackers[|trackers| - 1]])
  }

  lemma EqualsAt(raw: string, key: string, value: string)
    requires Without(key, '=') && raw == key + "=" + value
    ensures Find(raw, '=', 0) == |key| && raw[..|key|] == key && raw[|key| + 1..] == value
  {
    hide Find;
    var eq := Find(raw, '=', 0);
    assert raw[|key|] == '=';
    assert forall i :: 0 <= i < |key| ==> raw[i] == key[i];
  }

  /** A parameter written as key=encoded is taken with its decoded value. */
  lemma EncodedPiece(rd: Readers, key: string, value: string, link: Link, hasHash: bool, next: Step)
    requires IsBytes(value) && Without(key, '=') && TakesPiece(rd, key + "=" + Encode(value), link, hasHash, next)
    ensures Takes(rd, key, value, link, hasHash, next)
  {
    hide Find, Encode, Decode, Takes;
    EqualsAt(key + "=" + Encode(value), key, Encode(value));
    DecodeEncode(value);
  }

  lemma TrackerPiece(rd: Readers, t: string, link: Link, hasHash: bool, next: Step)
    requires IsBytes(t) && TakesPiece(rd, "tr=" + Encode(t), link, hasHash, next)
    ensures next == Next(link.(trackers := link.trackers + NonEmpty([t])), hasHash)
  {
    hide Encode, TakesPiece;
    assert "tr" + "=" + Encode(t) == "tr=" + Encode(t);
    EncodedPiece(rd, "tr", t, link, hasHash, next);
    assert [t][..0] == [];
    assert NonEmpty([t]) == if t == "" then [] else [t];
    assert link.trackers + [] == link.trackers;
  }

  lemma NamePiece(rd: Readers, name: string, link: Link, hasHash: bool, next: Step)
    requires IsBytes(name) && name != "" && TakesPiece(rd, "dn=" + Encode(name), link, hasHash, next)
    ensures next == Next(link.(displayName := name), hasHash)
  {
    hide Encode, TakesPiece;
    assert "dn" + "=" + Encode(name) == "dn=" + Encode(name);
    EncodedPiece(rd, "dn", name, link, hasHash, next);
  }

  lemma HashPiece(rd: Readers, hash: seq<byte>, link: Link, hasHash: bool, next: Step)
    requires |hash| == HASH && TakesPiece(rd, TOPIC + Hex(hash), link, hasHash, next)
    ensures next == Next(link.(infoHash := hash), true)
  {
    hide Find, Hex, Decode, IsHexOf, AllHex;
    var value := BTIH + Hex(hash);
    TopicValue(hash);
    assert TOPIC + Hex(hash) == "xt" + "=" + value;
    EqualsAt(TOPIC + Hex(hash), "xt", value);
    DecodeVerbatim(value);
    assert value[9..] == Hex(hash) && value[..9] == BTIH;
    HexIsAll(hash);
    assert Takes(rd, "xt", value, link, hasHash, next);
    HexUnique(Hex(hash), hash, next.link.infoHash);
  }

  lemma TopicValue(hash: seq<byte>)
    ensures var value := BTIH + Hex(hash); forall i :: 0 <= i < |value| ==> value[i] != '%' && value[i] != '+' && value[i] != '&'
  {
    HexIsHex(hash);
    hide Hex, HexVal;
  }

  lemma HexIsAll(hash: seq<byte>)
    ensures AllHex(Hex(hash)) && IsHexOf(Hex(hash), hash)
  {
    HexIsHex(hash);
    hide Hex, HexVal;
  }

  /** No parameter holds the separator. */
  lemma ParametersPlain(hash: seq<byte>, name: string, trackers: seq<string>)
    requires IsBytes(name) && forall t :: t in trackers ==> IsBytes(t)
    ensures forall p :: p in Parameters(hash, name, trackers) ==> Without(p, '&')
  {
    hide Hex, Encode, IsBytes;
    TopicValue(hash);
    var ps := Parameters(hash, name, trackers);
    assert TOPIC + Hex(hash) == "xt=" + (BTIH + Hex(hash));
    assert Without(TOPIC + Hex(hash), '&');
    EncodedPlain("dn=", name);
    forall i | 0 <= i < |trackers|
      ensures Without(TrackerParameters(trackers)[i], '&')
    {
      assert trackers[i] in trackers;
      EncodedPlain("tr=", trackers[i]);
    }
  }

  lemma EncodedPlain(key: string, value: string)
    requires IsBytes(value) && Without(key, '&')
    ensures Without(key + Encode(value), '&')
  {
    EncodePlain(value);
    hide Encode;
  }

  /** From a given state on, the tracker parameters add the trackers that are not empty. */
  lemma {:induction false} TrackersRead(rd: Readers, trackers: seq<string>, pieces: seq<string>, states: seq<Step>, from: nat, n: nat, link: Link)
    requires (forall t :: t in trackers ==> IsBytes(t)) && Chain(rd, pieces, states) && n <= |trackers|
    requires from + n < |states| && |pieces| == from + |trackers| && states[from] == Next(link, true)
    requires forall i :: 0 <= i < |trackers| ==> pieces[from + i] == "tr=" + Encode(trackers[i])
    ensures states[from + n] == Next(link.(trackers := link.trackers + NonEmpty(trackers[..n])), true)
    decreases n
  {
    hide Encode, TakesPiece, IsBytes;
    if n == 0 {
      assert NonEmpty([]) == [];
      assert link.trackers + [] == link.trackers;
    } else {
      TrackersRead(rd, trackers, pieces, states, from, n - 1, link);
      assert trackers[n - 1] in trackers;
      var before := states[from + n - 1];
      assert pieces[from + (n - 1)] == "tr=" + Encode(trackers[n - 1]);
      TrackerPiece(rd, trackers[n - 1], before.link, true, states[from + n]);
      NonEmptySnoc(trackers, n - 1, link.trackers);
    }
  }

  lemma NonEmptySnoc(trackers: seq<string>, n: nat, base: seq<string>)
    requires n < |trackers|
    ensures base + NonEmpty(trackers[..n]) + NonEmpty([trackers[n]]) == base + NonEmpty(trackers[..n + 1])
  {
    assert trackers[..n + 1][..n] == trackers[..n];
    assert [trackers[n]][..0] == [];
    assert NonEmpty([]) == [];
  }

  /** No piece a writer makes is ever refused, so the chain runs to its end. */
  lemma {:induction false} ChainComplete(rd: Readers, hash: seq<byte>, name: string, trackers: seq<string>, states: seq<Step>)
    requires |hash| == HASH && IsBytes(name) && forall t :: t in trackers ==> IsBytes(t)
    requires Chain(rd, Parameters(hash, name, trackers), states) && |states| > 1
    ensures states[1] == Next(Blank().(infoHash := hash), true)
    ensures name != "" && |states| > 2 ==> states[2] == Next(Blank().(infoHash := hash, displayName := name), true)
  {
    hide Encode, Hex, TakesPiece, IsBytes;
    var ps := Parameters(hash, name, trackers);
    assert ps[0] == TOPIC + Hex(hash);
    HashPiece(rd, hash, Blank(), false, states[1]);
    if name != "" && |states| > 2 {
      assert ps[1] == "dn=" + Encode(name);
      NamePiece(rd, name, states[1].link, true, states[2]);
    }
  }

  lemma TrackersLast(hash: seq<byte>, name: string, trackers: seq<string>, from: nat)
    requires IsBytes(name) && (forall t :: t in trackers ==> IsBytes(t)) && from == (if name == "" then 1 else 2)
    ensures var ps := Parameters(hash, name, trackers);
            |ps| == from + |trackers| && forall i :: 0 <= i < |trackers| ==> ps[from + i] == "tr=" + Encode(trackers[i])
  {
    hide Encode, Hex, IsBytes;
    var ps := Parameters(hash, name, trackers);
    assert forall i :: 0 <= i < |trackers| ==> ps[from + i] == TrackerParameters(trackers)[i];
  }

  lemma LastNext(rd: Readers, hash: seq<byte>, name: string, trackers: seq<string>, states: seq<Step>)
    requires |hash| == HASH && IsBytes(name) && forall t :: t in trackers ==> IsBytes(t)
    requires Chain(rd, Parameters(hash, name, trackers), states)
    ensures |states| == |Parameters(hash, name, trackers)| + 1
    ensures states[|states| - 1] == Next(Link(hash, name, NonEmpty(trackers), [], 0), true)
  {
    hide Encode, Hex, TakesPiece, IsBytes, Parameters, NonEmpty;
    var ps, from := Parameters(hash, name, trackers), if name == "" then 1 else 2;
    TrackersLast(hash, name, trackers, from);
    if |states| > 1 {
      ChainComplete(rd, hash, name, trackers, states);
      if |states| > from {
        TrackersRead(rd, trackers, ps, states, from, |states| - 1 - from, states[from].link);
        assert trackers[..|trackers|] == trackers;
        assert [] + NonEmpty(trackers) == NonEmpty(trackers);
      }
    }
  }

  /** parse_magnet reads back what magnet_for writes, for all names, trackers and hashes. */
  method ReadBack(rd: Readers, hash: seq<byte>, name: string, trackers: seq<string>) returns (ok: bool, link: Link)
    requires |hash| == HASH && IsBytes(name) && forall t :: t in trackers ==> IsBytes(t)
    ensures ok && link == Link(hash, name, NonEmpty(trackers), [], 0)
  {
    hide Encode, Hex, IsBytes, Chain, Parameters, Join, TrimLeft, TrimRight, Without;
    var uri := MagnetFor(hash, name, trackers);
    ghost var ps := Parameters(hash, name, trackers);
    ok, link := ParseMagnet(rd, uri);
    UriTrimmed(uri, hash, name, trackers);
    ghost var pieces, states :| ParsedAs(rd, uri[8..], ok, link, pieces, states);
    ParametersPlain(hash, name, trackers);
    SplitUnique(pieces, ps, '&');
    LastNext(rd, hash, name, trackers, states);
  }

  lemma UriTrimmed(uri: string, hash: seq<byte>, name: string, trackers: seq<string>)
    requires |hash| == HASH && IsBytes(name) && (forall t :: t in trackers ==> IsBytes(t)) && Written(uri, Parameters(hash, name, trackers))
    ensures TrimRight(TrimLeft(uri)) == uri && StartsWith(uri, SCHEME)
    ensures uri[8..] == Join(Parameters(hash, name, trackers), '&')
  {
    hide Encode, Hex, IsBytes, Join;
    var ps := Parameters(hash, name, trackers);
    LastPart(ps, '&');
    var last := ps[|ps| - 1];
    LastCharacter(hash, name, trackers);
    assert uri[|uri| - 1] == last[|last| - 1];
    TrimNothing(uri);
  }

  /** The last parameter ends in a character that is not a space. */
  lemma LastCharacter(hash: seq<byte>, name: string, trackers: seq<string>)
    requires |hash| == HASH && IsBytes(name) && forall t :: t in trackers ==> IsBytes(t)
    ensures var ps := Parameters(hash, name, trackers); var last := ps[|ps| - 1]; |last| > 0 && !IsSpace(last[|last| - 1])
  {
    hide Encode, Hex, IsBytes;
    if |trackers| > 0 {
      assert trackers[|trackers| - 1] in trackers;
      EncodedEnd("tr=", trackers[|trackers| - 1]);
    } else if name != "" {
      EncodedEnd("dn=", name);
    } else {
      HexIsHex(hash);
    }
  }

  lemma EncodedEnd(key: string, value: string)
    requires IsBytes(value) && |key| > 0 && !IsSpace(key[|key| - 1])
    ensures var p := key + Encode(value); !IsSpace(p[|p| - 1])
  {
    EncodePlain(value);
    hide Encode;
  }
}
