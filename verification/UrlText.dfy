/** Text helpers: hexadecimal, percent-encoding, splitting and trimming of byte strings. */
module UrlText {
  import opened Bytes
  import opened Options

  /** A string of bytes. */
  ghost predicate IsBytes(s: string)
  {
    forall i :: 0 <= i < |s| ==> s[i] < 256 as char
  }

  // --- hexadecimal ------------------------------------------------------------------------------

  function HexDigit(n: nat): (c: char)
    requires n < 16
  {
    if n < 10 then (48 + n) as char else (87 + n) as char
  }

  function HexVal(c: char): (v: int)
    ensures -1 <= v < 16
  {
    if '0' <= c <= '9' then c as int - '0' as int
    else if 'a' <= c <= 'f' then c as int - 'a' as int + 10
    else if 'A' <= c <= 'F' then c as int - 'A' as int + 10
    else -1
  }

  const LOWER_DIGITS: string := "0123456789abcdef"
  const UPPER_DIGITS: string := "0123456789ABCDEF"

  /** The value of a hexadecimal digit is its place among the sixteen, in lower or upper case. */
  lemma HexValIff(c: char, v: nat)
    requires v < 16
    ensures HexVal(c) == v <==> c == LOWER_DIGITS[v] || c == UPPER_DIGITS[v]
    ensures HexDigit(v) == LOWER_DIGITS[v]
  {
    if v < 10 {
      DecimalDigits(v);
    } else {
      LetterDigits(v);
    }
  }

  lemma DecimalDigits(v: nat)
    requires v < 10
    ensures LOWER_DIGITS[v] == UPPER_DIGITS[v] == (48 + v) as char
  {
  }

  lemma LetterDigits(v: nat)
    requires 10 <= v < 16
    ensures LOWER_DIGITS[v] == (87 + v) as char && UPPER_DIGITS[v] == (55 + v) as char
  {
  }

  lemma HexBack(n: nat)
    requires n < 16
    ensures HexVal(HexDigit(n)) == n && ('0' <= HexDigit(n) <= '9' || 'a' <= HexDigit(n) <= 'f')
  {
  }

  function Hex2(b: byte): (s: string)
    ensures |s| == 2
  {
    [HexDigit(b as nat / 16), HexDigit(b as nat % 16)]
  }

  function Hex(data: seq<byte>): (s: string)
    ensures |s| == 2 * |data|
  {
    if |data| == 0 then "" else Hex(data[..|data| - 1]) + Hex2(data[|data| - 1])
  }

  /** from_hex: exactly n bytes, or nothing. */
  ghost predicate IsHexOf(s: string, data: seq<byte>)
  {
    |s| == 2 * |data| && forall i :: 0 <= i < |data| ==>
      HexVal(s[2 * i]) >= 0 && HexVal(s[2 * i + 1]) >= 0 && data[i] as int == HexVal(s[2 * i]) * 16 + HexVal(s[2 * i + 1])
  }

  method ToHex(data: seq<byte>) returns (out: string)
    ensures out == Hex(data)
  {
    out := "";
    for i := 0 to |data|
      invariant out == Hex(data[..i])
    {
      assert data[..i + 1][..i] == data[..i];
      out := out + Hex2(data[i]);
    }
    assert data[..|data|] == data;
  }

  ghost predicate AllHex(s: string)
  {
    forall i :: 0 <= i < |s| ==> HexVal(s[i]) >= 0
  }

  method FromHex(hex: string, n: nat) returns (r: Option<seq<byte>>)
    ensures r.Some? <==> |hex| == 2 * n && AllHex(hex)
    ensures r.Some? ==> |r.value| == n && IsHexOf(hex, r.value)
  {
    if |hex| != 2 * n {
      return None;
    }
    var out: seq<byte> := [];
    for i := 0 to n
      invariant |out| == i && forall k :: 0 <= k < 2 * i ==> HexVal(hex[k]) >= 0
      invariant forall k :: 0 <= k < i ==> out[k] as int == HexVal(hex[2 * k]) * 16 + HexVal(hex[2 * k + 1])
    {
      var hi, lo := HexVal(hex[2 * i]), HexVal(hex[2 * i + 1]);
      if hi < 0 || lo < 0 {
        return None;
      }
      out := out + [(hi * 16 + lo) as byte];
    }
    return Some(out);
  }

  /** Hexadecimal is read back as the bytes it was made from, and as no others. */
  lemma {:induction false} HexIsHex(data: seq<byte>)
    ensures IsHexOf(Hex(data), data)
    ensures forall i :: 0 <= i < |Hex(data)| ==> HexVal(Hex(data)[i]) >= 0 && Unreserved(Hex(data)[i])
  {
    hide HexVal, HexDigit, Unreserved;
    if |data| > 0 {
      var n := |data| - 1;
      HexIsHex(data[..n]);
      HexPair(data[n]);
      assert Hex(data) == Hex(data[..n]) + Hex2(data[n]);
    }
  }

  lemma HexPair(b: byte)
    ensures var s := Hex2(b);
            && HexVal(s[0]) >= 0 && HexVal(s[1]) >= 0 && b as int == HexVal(s[0]) * 16 + HexVal(s[1])
            && Unreserved(s[0]) && Unreserved(s[1])
  {
    HexBack(b as nat / 16);
    HexBack(b as nat % 16);
  }

  lemma HexUnique(s: string, a: seq<byte>, b: seq<byte>)
    requires IsHexOf(s, a) && IsHexOf(s, b)
    ensures a == b
  {
    hide HexVal;
  }

  // --- percent-encoding ---------------------------------------------------------------------------

  predicate Unreserved(c: char)
  {
    'A' <= c <= 'Z' || 'a' <= c <= 'z' || '0' <= c <= '9' || c == '-' || c == '_' || c == '.' || c == '~'
  }

  function EncodeChar(c: char): string
    requires c < 256 as char
  {
    if Unreserved(c) then [c] else [ '%', HexDigit(c as nat / 16), HexDigit(c as nat % 16)]
  }

  function Encode(s: string): string
    requires IsBytes(s)
  {
    if |s| == 0 then "" else Encode(s[..|s| - 1]) + EncodeChar(s[|s| - 1])
  }

  predicate Escape(s: string)
  {
    |s| >= 3 && s[0] == '%' && HexVal(s[1]) >= 0 && HexVal(s[2]) >= 0
  }

  /** How many characters of s the first decoded one takes. */
  function Width(s: string): nat
    requires |s| > 0
    ensures 0 < Width(s) <= |s|
  {
    if Escape(s) then 3 else 1
  }

  function First(s: string): char
    requires |s| > 0
  {
    if Escape(s) then (HexVal(s[1]) * 16 + HexVal(s[2])) as char else if s[0] == '+' then ' ' else s[0]
  }

  function Decode(s: string): string
    decreases |s|
  {
    if |s| == 0 then "" else [First(s)] + Decode(s[Width(s)..])
  }

  method UrlEncode(s: string) returns (out: string)
    requires IsBytes(s)
    ensures out == Encode(s)
  {
    out := "";
    for i := 0 to |s|
      invariant out == Encode(s[..i])
    {
      assert s[..i + 1][..i] == s[..i];
      out := out + EncodeChar(s[i]);
    }
    assert s[..|s|] == s;
  }

  method UrlDecode(s: string) returns (out: string)
    ensures out == Decode(s)
  {
    hide HexVal, Decode;
    out := "";
    var i := 0;
    assert s[0..] == s;
    while i < |s|
      invariant 0 <= i <= |s| && out + Decode(s[i..]) == Decode(s)
    {
      DecodeStep(s, i);
      var c, w := s[i], 1;
      if s[i] == '%' && i + 2 < |s| && HexVal(s[i + 1]) >= 0 && HexVal(s[i + 2]) >= 0 {
        c, w := (HexVal(s[i + 1]) * 16 + HexVal(s[i + 2])) as char, 3;
      } else if s[i] == '+' {
        c := ' ';
      }
      Regroup(out, c, Decode(s[i + w..]));
      out := out + [c];
      i := i + w;
    }
    NothingToDecode(s);
  }

  lemma Regroup(a: string, c: char, b: string)
    ensures a + ([c] + b) == (a + [c]) + b
  {
  }

  lemma NothingToDecode(s: string)
    ensures Decode(s[|s|..]) == ""
  {
  }

  lemma DecodeStep(s: string, i: nat)
    requires i < |s|
    ensures var e := s[i] == '%' && i + 2 < |s| && HexVal(s[i + 1]) >= 0 && HexVal(s[i + 2]) >= 0;
            var w := if e then 3 else 1;
            var c := if e then (HexVal(s[i + 1]) * 16 + HexVal(s[i + 2])) as char else if s[i] == '+' then ' ' else s[i];
            i + w <= |s| && Decode(s[i..]) == [c] + Decode(s[i + w..])
  {
    var t := s[i..];
    assert t[Width(t)..] == s[i + Width(t)..];
    hide HexVal, Decode;
    DecodeFirst(t);
  }

  lemma DecodeFirst(t: string)
    requires |t| > 0
    ensures Decode(t) == [First(t)] + Decode(t[Width(t)..])
  {
  }

  lemma EncodeCharShape(c: char)
    requires c < 256 as char
    ensures forall i :: 0 <= i < |EncodeChar(c)| ==> Plain(EncodeChar(c)[i])
    ensures |EncodeChar(c)| > 0
  {
    HexBack(c as nat / 16);
    HexBack(c as nat % 16);
  }

  /** Neither a separator nor a space. */
  predicate Plain(c: char)
  {
    Unreserved(c) || c == '%'
  }

  /** What is encoded never holds a separator, and is empty only for the empty string. */
  lemma {:induction false} EncodePlain(s: string)
    requires IsBytes(s)
    ensures forall i :: 0 <= i < |Encode(s)| ==> Plain(Encode(s)[i])
    ensures |Encode(s)| == 0 <==> |s| == 0
  {
    if |s| > 0 {
      var n := |s| - 1;
      EncodePlain(s[..n]);
      EncodeCharShape(s[n]);
      hide EncodeChar, Plain;
    }
  }

  lemma DecodeChar(c: char, t: string)
    requires c < 256 as char
    ensures Decode(EncodeChar(c) + t) == [c] + Decode(t)
  {
    HexBack(c as nat / 16);
    HexBack(c as nat % 16);
    var e := EncodeChar(c) + t;
    assert e[|EncodeChar(c)|..] == t;
    if Unreserved(c) {
      assert e[0] == c;
    } else {
      assert e[0] == '%' && e[1] == HexDigit(c as nat / 16) && e[2] == HexDigit(c as nat % 16);
    }
    DecodeFirst(e);
    hide Decode;
  }

  lemma {:induction false} DecodeThenRest(s: string, t: string)
    requires IsBytes(s)
    ensures Decode(Encode(s) + t) == s + Decode(t)
    decreases |s|
  {
    hide Decode, EncodeChar;
    if |s| == 0 {
      assert Encode(s) + t == t;
    } else {
      var n := |s| - 1;
      var c := EncodeChar(s[n]);
      assert Encode(s) + t == Encode(s[..n]) + (c + t);
      DecodeThenRest(s[..n], c + t);
      DecodeChar(s[n], t);
      Regroup(s[..n], s[n], Decode(t));
      assert s == s[..n] + [s[n]];
    }
  }

  /** url_decode inverts url_encode on every byte string. */
  lemma DecodeEncode(s: string)
    requires IsBytes(s)
    ensures Decode(Encode(s)) == s
  {
    DecodeThenRest(s, "");
    assert Encode(s) + "" == Encode(s);
    assert Decode("") == "";
  }

  /** Text without escapes or plus signs decodes to itself. */
  lemma {:induction false} DecodeVerbatim(s: string)
    requires forall i :: 0 <= i < |s| ==> s[i] != '%' && s[i] != '+'
    ensures Decode(s) == s
    decreases |s|
  {
    if |s| > 0 {
      DecodeVerbatim(s[1..]);
      assert s == [s[0]] + s[1..];
    }
  }

  // --- splitting -------------------------------------------------------------------------------------

  /** The place of the first c at or after start, or the end. */
  function Find(s: string, c: char, start: nat): (i: nat)
    requires start <= |s|
    ensures start <= i <= |s| && (i < |s| ==> s[i] == c)
    ensures forall k :: start <= k < i ==> s[k] != c
    decreases |s| - start
  {
    if start == |s| || s[start] == c then start else Find(s, c, start + 1)
  }

  function Join(parts: seq<string>, sep: char): string
    requires |parts| > 0
  {
    if |parts| == 1 then parts[0] else Join(parts[..|parts| - 1], sep) + [sep] + parts[|parts| - 1]
  }

  ghost predicate Without(s: string, c: char)
  {
    forall i :: 0 <= i < |s| ==> s[i] != c
  }

  /** split: parts free of the separator whose joining gives the string back. */
  method Split(s: string, sep: char) returns (parts: seq<string>)
    ensures |parts| > 0 && Join(parts, sep) == s
    ensures forall p :: p in parts ==> Without(p, sep)
  {
    parts := [];
    var start := 0;
    while true
      invariant start <= |s| && forall p :: p in parts ==> Without(p, sep)
      invariant if |parts| == 0 then start == 0 else start > 0 && s[..start] == Join(parts, sep) + [sep]
      decreases |s| - start
    {
      var pos := Find(s, sep, start);
      var part := s[start..pos];
      assert Without(part, sep);
      JoinSnoc(parts, part, sep);
      if pos == |s| {
        assert s == s[..start] + part;
        parts := parts + [part];
        break;
      }
      assert s[..pos + 1] == s[..start] + part + [sep];
      parts := parts + [part];
      start := pos + 1;
    }
  }

  lemma JoinSnoc(parts: seq<string>, part: string, sep: char)
    ensures Join(parts + [part], sep) == if |parts| == 0 then part else Join(parts, sep) + [sep] + part
  {
    assert (parts + [part])[..|parts|] == parts;
  }

  /** There is only one way to cut a string at its separators. */
  lemma {:induction false} SplitUnique(a: seq<string>, b: seq<string>, sep: char)
    requires |a| > 0 && |b| > 0 && Join(a, sep) == Join(b, sep)
    requires (forall p :: p in a ==> Without(p, sep)) && forall p :: p in b ==> Without(p, sep)
    ensures a == b
    decreases |a|
  {
    var x, y := a[|a| - 1], b[|b| - 1];
    assert x in a && y in b;
    var s := Join(a, sep);
    LastPart(a, sep);
    LastPart(b, sep);
    SameLast(s, x, y, sep, |a| == 1, |b| == 1);
    if |a| > 1 {
      var ha, hb := a[..|a| - 1], b[..|b| - 1];
      assert Join(ha, sep) == s[..|s| - |x| - 1] == Join(hb, sep);
      SplitUnique(ha, hb, sep);
      assert a == ha + [x] && b == hb + [y];
    }
  }

  lemma LastPart(a: seq<string>, sep: char)
    requires |a| > 0
    ensures var s, x := Join(a, sep), a[|a| - 1];
            && |x| <= |s| && s[|s| - |x|..] == x && (|a| == 1 ==> s == x)
            && (|a| > 1 ==> |x| < |s| && s[|s| - |x| - 1] == sep && s[..|s| - |x| - 1] == Join(a[..|a| - 1], sep))
  {
  }

  lemma SameLast(s: string, x: string, y: string, sep: char, wholeX: bool, wholeY: bool)
    requires |x| <= |s| && s[|s| - |x|..] == x && Without(x, sep) && |y| <= |s| && s[|s| - |y|..] == y && Without(y, sep)
    requires if wholeX then s == x else |x| < |s| && s[|s| - |x| - 1] == sep
    requires if wholeY then s == y else |y| < |s| && s[|s| - |y| - 1] == sep
    ensures x == y && wholeX == wholeY
  {
    InTail(s, y, |x|);
    InTail(s, x, |y|);
  }

  lemma InTail(s: string, x: string, k: nat)
    requires |x| <= |s| && s[|s| - |x|..] == x
    ensures k < |x| ==> s[|s| - k - 1] == x[|x| - k - 1]
  {
  }

  // --- trimming ---------------------------------------------------------------------------------------

  /** isspace in the C locale. */
  predicate IsSpace(c: char)
  {
    c == ' ' || 9 as char <= c <= 13 as char
  }

  function TrimLeft(s: string): string
  {
    if |s| > 0 && IsSpace(s[0]) then TrimLeft(s[1..]) else s
  }

  function TrimRight(s: string): string
  {
    if |s| > 0 && IsSpace(s[|s| - 1]) then TrimRight(s[..|s| - 1]) else s
  }

  method Trim(s: string) returns (t: string)
    ensures t == TrimRight(TrimLeft(s))
  {
    var b: nat, e: nat := 0, |s|;
    assert s[0..] == s;
    while b < e && IsSpace(s[b])
      invariant b <= e == |s| && TrimLeft(s[b..]) == TrimLeft(s)
    {
      assert s[b..][1..] == s[b + 1..];
      b := b + 1;
    }
    ghost var left := s[b..];
    assert left == TrimLeft(s) && s[b..e] == left;
    while e > b && IsSpace(s[e - 1])
      invariant b <= e <= |s| && TrimRight(s[b..e]) == TrimRight(left)
      decreases e
    {
      assert s[b..e][..e - b - 1] == s[b..e - 1];
      e := e - 1;
    }
    t := s[b..e];
  }

  lemma TrimNothing(s: string)
    requires |s| > 0 && !IsSpace(s[0]) && !IsSpace(s[|s| - 1])
    ensures TrimRight(TrimLeft(s)) == s
  {
  }

  predicate StartsWith(s: string, prefix: string)
  {
    |s| >= |prefix| && s[..|prefix|] == prefix
  }
}
