/** Each of the shared secrets matters: there are lawful primitives under which changing it alone changes both transport keys. */
module SessionSecrets {
  import opened Bytes
  import opened Noise
  import opened Options
  import opened WireGuard

  function Sum8(a: byte, b: byte): byte
  {
    ((a as int + b as int) % 256) as byte
  }

  /** Commutative: 2 for the pairs whose first bytes add up to w, and 1 for the others. */
  function Shared(w: int, a: Key, b: Key): Key
  {
    Filled(32, if FirstByte(a) as int + FirstByte(b) as int == w then 2 else 1)
  }

  /** Primitives that add up first bytes. */
  function Adding(): Crypto
  {
    Crypto(
      k => k,
      (a, b) => Filled(32, 1),
      x => Filled(32, 0),
      (k, x) => Filled(32, Sum8(FirstByte(k), FirstByte(x))),
      (k, m) => Filled(16, 0),
      (k, n, ad, p) => p + Filled(16, 0),
      (k, n, ad, s) => if |s| >= 16 && s[|s| - 16..] == Filled(16, 0) then Some(s[..|s| - 16]) else None)
  }

  function AddingWith(w: int): Crypto
  {
    Adding().(dh := (a, b) => Shared(w, a, b))
  }

  lemma AddingIsLawful(w: int)
    ensures Lawful(AddingWith(w))
  {
    var c := AddingWith(w);
    forall k: Key, n: nat, ad: seq<byte>, p: seq<byte>
      ensures |c.seal(k, n, ad, p)| == |p| + 16 && c.open(k, n, ad, c.seal(k, n, ad, p)) == Some(p)
    {
      var s := p + Filled(16, 0);
      assert s[|s| - 16..] == Filled(16, 0) && s[..|s| - 16] == p;
    }
  }

  /** The sum of the first bytes of xs, and one for each. */
  function Total(xs: seq<seq<byte>>): nat
  {
    if |xs| == 0 then 0 else Total(xs[..|xs| - 1]) + FirstByte(xs[|xs| - 1]) as int + 1
  }

  lemma {:induction false} ChainAdds(w: int, xs: seq<seq<byte>>)
    ensures FirstByte(Chain(AddingWith(w), Filled(32, 0), xs)) as int == Total(xs) % 256
  {
    hide AddingWith, Kdf1;
    assert Total([]) == 0;
    if |xs| > 0 {
      ChainAdds(w, xs[..|xs| - 1]);
      KdfAdds(w, Chain(AddingWith(w), Filled(32, 0), xs[..|xs| - 1]), xs[|xs| - 1]);
    }
  }

  lemma HmacAdds(w: int, k: seq<byte>, x: seq<byte>)
    ensures FirstByte(AddingWith(w).hmac(k, x)) as int == (FirstByte(k) as int + FirstByte(x) as int) % 256
  {
  }

  lemma KdfAdds(w: int, ck: Key, x: seq<byte>)
    ensures var c := AddingWith(w);
            && FirstByte(Kdf1(c, ck, x)) as int == (FirstByte(ck) as int + FirstByte(x) as int + 1) % 256
            && FirstByte(Kdf2(c, ck, x)) as int == (2 * FirstByte(ck) as int + 2 * FirstByte(x) as int + 1) % 256
  {
    hide AddingWith;
    var c := AddingWith(w);
    var prk, k := Prk(c, ck, x), Kdf1(c, ck, x);
    HmacAdds(w, ck, x);
    HmacAdds(w, prk, [1]);
    HmacAdds(w, prk, k + [2]);
    assert FirstByte(k + [2]) == FirstByte(k);
  }

  /** The two transport keys. */
  function Transport(c: Crypto, construction: seq<byte>, secrets: seq<seq<byte>>): (Key, Key)
  {
    var last := Chain(c, c.hash(construction), secrets);
    (Kdf1(c, last, []), Kdf2(c, last, []))
  }

  /** All the same but for one. */
  ghost predicate DifferAt(xs: seq<seq<byte>>, ys: seq<seq<byte>>, j: nat)
  {
    |xs| == |ys| && j < |xs| && xs[j] != ys[j] && forall m :: 0 <= m < |xs| && m != j ==> xs[m] == ys[m]
  }

  lemma TotalOfSeven(xs: seq<seq<byte>>)
    requires |xs| == 7
    ensures Total(xs) == FirstByte(xs[0]) as int + FirstByte(xs[1]) as int + FirstByte(xs[2]) as int + FirstByte(xs[3]) as int
                         + FirstByte(xs[4]) as int + FirstByte(xs[5]) as int + FirstByte(xs[6]) as int + 7
  {
    hide FirstByte;
    assert Total(xs[..0]) == 0;
    for n := 0 to 7
      invariant Total(xs[..n]) == (if n > 0 then FirstByte(xs[0]) as int else 0) + (if n > 1 then FirstByte(xs[1]) as int else 0)
                                  + (if n > 2 then FirstByte(xs[2]) as int else 0) + (if n > 3 then FirstByte(xs[3]) as int else 0)
                                  + (if n > 4 then FirstByte(xs[4]) as int else 0) + (if n > 5 then FirstByte(xs[5]) as int else 0)
                                  + (if n > 6 then FirstByte(xs[6]) as int else 0) + n
    {
      assert xs[..n + 1][..n] == xs[..n] && xs[..n + 1][n] == xs[n];
    }
    assert xs[..7] == xs;
  }

  /** Two totals one apart give different keys both ways. */
  lemma OneApart(w: int, v: int, xs: seq<seq<byte>>, ys: seq<seq<byte>>)
    requires Total(ys) == Total(xs) + 1
    ensures var a, b := Transport(AddingWith(w), [], xs), Transport(AddingWith(v), [], ys); a.0 != b.0 && a.1 != b.1
  {
    hide AddingWith, Kdf1, Kdf2, Chain, Total;
    StartsAtZero(w);
    StartsAtZero(v);
    ChainAdds(w, xs);
    ChainAdds(v, ys);
    KdfAdds(w, Chain(AddingWith(w), Filled(32, 0), xs), []);
    KdfAdds(v, Chain(AddingWith(v), Filled(32, 0), ys), []);
  }

  lemma StartsAtZero(w: int)
    ensures AddingWith(w).hash([]) == Filled(32, 0)
  {
  }

  function Full(b: byte): Key
  {
    Filled(32, b)
  }

  /** The seven, for private keys 1, 2, 4 and 8. */
  function SevenFor(w: int, psk: byte): (r: seq<seq<byte>>)
    ensures |r| == 7
  {
    [Full(2), Full(if w == 6 then 2 else 1), Full(if w == 5 then 2 else 1), Full(8), Full(if w == 10 then 2 else 1),
     Full(if w == 9 then 2 else 1), Full(psk)]
  }

  lemma SecretsAre(w: int, psk: byte)
    ensures Secrets(AddingWith(w), Full(1), Full(2), Full(4), Full(8), Full(psk)) == SevenFor(w, psk)
  {
  }

  lemma OneOfSeven(j: nat, w: int, psk: byte)
    requires (j == 1 && w == 6 && psk == 0) || (j == 2 && w == 5 && psk == 0) || (j == 4 && w == 10 && psk == 0)
             || (j == 5 && w == 9 && psk == 0) || (j == 6 && w == 0 && psk == 1)
    ensures DifferAt(SevenFor(0, 0), SevenFor(w, psk), j) && Total(SevenFor(w, psk)) == Total(SevenFor(0, 0)) + 1
  {
    hide Total;
    var xs, ys := SevenFor(0, 0), SevenFor(w, psk);
    TotalOfSeven(xs);
    TotalOfSeven(ys);
    assert FirstByte(xs[j]) as int + 1 == FirstByte(ys[j]) as int;
  }

  /** The j-th of the seven is one of the four shared secrets, or the preshared key. */
  lemma EachSecretMatters(j: nat) returns (c: Crypto, d: Crypto, si: Key, ei: Key, sr: Key, er: Key, psk: Key, psk': Key)
    requires j in {1, 2, 4, 5, 6}
    ensures Lawful(c) && Lawful(d) && d == c.(dh := d.dh) && (j == 6 ==> d == c) && (j != 6 ==> psk' == psk)
    ensures var xs, ys := Secrets(c, si, ei, sr, er, psk), Secrets(d, si, ei, sr, er, psk');
            && DifferAt(xs, ys, j)
            && Transport(c, [], xs).0 != Transport(d, [], ys).0 && Transport(c, [], xs).1 != Transport(d, [], ys).1
  {
    var w := if j == 1 then 6 else if j == 2 then 5 else if j == 4 then 10 else if j == 5 then 9 else 0;
    var b: byte := if j == 6 then 1 else 0;
    c, d := AddingWith(0), AddingWith(w);
    assert d == c.(dh := d.dh);
    si, ei, sr, er, psk, psk' := Full(1), Full(2), Full(4), Full(8), Full(0), Full(b);
    hide AddingWith, Secrets, Transport, Total, Lawful, SevenFor, Full;
    AddingIsLawful(0);
    AddingIsLawful(w);
    SecretsAre(0, 0);
    SecretsAre(w, b);
    OneOfSeven(j, w, b);
    OneApart(0, w, SevenFor(0, 0), SevenFor(w, b));
  }
}
