/** The codewords of a QR symbol: cut into blocks, completed with their remainders, interleaved. */
module QrBlocks {
  import opened Galois
  import opened ReedSolomon

  datatype Version = Version(total: nat, ecPerBlock: nat, blocks: nat)

  /** Versions 1 to 6 at correction level M. */
  const VERSIONS: seq<Version> := [
    Version(26, 10, 1), Version(44, 16, 1), Version(70, 26, 1),
    Version(100, 18, 2), Version(134, 24, 2), Version(172, 16, 4)
  ]

  function DataCodewords(v: Version): int
  {
    v.total - v.ecPerBlock * v.blocks
  }

  /** Every version has blocks of one size, and room for data. */
  lemma BlocksFit(i: nat)
    requires i < |VERSIONS|
    ensures var v := VERSIONS[i];
            v.blocks > 0 && 0 < v.ecPerBlock <= 512 && DataCodewords(v) > 0 && DataCodewords(v) % v.blocks == 0
  {
    if i == 0 {} else if i == 1 {} else if i == 2 {} else if i == 3 {} else if i == 4 {} else {}
  }

  // --- interleaving ---------------------------------------------------------------------------

  /** Entry i of part b sits at i * |parts| + b. */
  ghost predicate Interleaved(parts: seq<Poly>, len: nat, out: Poly)
    requires forall b :: 0 <= b < |parts| ==> |parts[b]| == len
  {
    |out| == len * |parts| && forall i, b :: 0 <= i < len && 0 <= b < |parts| ==> At(out, |parts|, i, b) == parts[b][i]
  }

  function At(out: Poly, width: nat, i: int, b: int): Symbol
  {
    if 0 <= i * width + b < |out| then out[i * width + b] else ZERO
  }

  /** Part b of an interleaved stretch. */
  function Lane(out: Poly, width: nat, len: nat, b: nat): (lane: Poly)
    ensures |lane| == len
  {
    seq(len, i requires 0 <= i < len => At(out, width, i, b))
  }

  lemma LaneIsPart(parts: seq<Poly>, len: nat, out: Poly, b: nat)
    requires (forall c :: 0 <= c < |parts| ==> |parts[c]| == len) && Interleaved(parts, len, out) && b < |parts|
    ensures Lane(out, |parts|, len, b) == parts[b]
  {
    hide At;
  }

  method Interleave(parts: seq<Poly>, len: nat) returns (out: Poly)
    requires forall b :: 0 <= b < |parts| ==> |parts[b]| == len
    ensures Interleaved(parts, len, out)
  {
    hide At;
    out := [];
    for i := 0 to len
      invariant |out| == i * |parts|
      invariant forall k, b :: 0 <= k < i && 0 <= b < |parts| ==> At(out, |parts|, k, b) == parts[b][k]
    {
      var column := Column(parts, len, i);
      forall k, b | 0 <= k <= i && 0 <= b < |parts|
        ensures At(out + column, |parts|, k, b) == if k < i then At(out, |parts|, k, b) else column[b]
      {
        AppendColumn(out, column, |parts|, i, k, b);
      }
      NextRow(i, |parts|);
      out := out + column;
    }
  }

  method Column(parts: seq<Poly>, len: nat, i: nat) returns (column: Poly)
    requires i < len && forall b :: 0 <= b < |parts| ==> |parts[b]| == len
    ensures |column| == |parts| && forall b :: 0 <= b < |parts| ==> column[b] == parts[b][i]
  {
    column := [];
    for b := 0 to |parts|
      invariant |column| == b && forall c :: 0 <= c < b ==> column[c] == parts[c][i]
    {
      column := column + [parts[b][i]];
    }
  }

  lemma NextRow(i: nat, w: nat)
    ensures (i + 1) * w == i * w + w
  {
  }

  lemma RowBound(k: nat, i: nat, w: nat, b: nat)
    requires k < i && b < w
    ensures 0 <= k * w + b < i * w
  {
    assert (k + 1) * w <= i * w;
    NextRow(k, w);
  }

  lemma AppendColumn(out: Poly, column: Poly, w: nat, i: nat, k: nat, b: nat)
    requires |out| == i * w && |column| == w && k <= i && b < w
    ensures At(out + column, w, k, b) == if k < i then At(out, w, k, b) else column[b]
  {
    if k < i {
      RowBound(k, i, w, b);
      InFront(out, column, k * w + b);
    } else {
      Behind(out, column, k * w + b);
    }
  }

  lemma InFront(out: Poly, column: Poly, at: nat)
    requires at < |out|
    ensures (out + column)[at] == out[at]
  {
  }

  lemma Behind(out: Poly, column: Poly, at: nat)
    requires |out| <= at < |out| + |column|
    ensures (out + column)[at] == column[at - |out|]
  {
  }

  // --- the whole message ----------------------------------------------------------------------------

  /** Lane b of the symbol is block b of the stream, completed to a codeword of its own. */
  ghost predicate LaneOk(stream: Poly, v: Version, data: Poly, ec: Poly, b: nat, quotient: Poly)
    requires v.blocks > 0
  {
    var per := |stream| / v.blocks;
    BlockDone(stream, per, v.ecPerBlock, b, Lane(data, v.blocks, per, b), Lane(ec, v.blocks, v.ecPerBlock, b), quotient)
  }

  ghost predicate LaneCoded(stream: Poly, v: Version, data: Poly, ec: Poly, b: nat)
    requires v.blocks > 0
  {
    exists quotient :: LaneOk(stream, v, data, ec, b, quotient)
  }

  /** The blocks of qr_encode and their remainders, as they end up in the symbol. */
  method Codewords(t: GaloisTables, stream: Poly, version: nat) returns (data: Poly, ec: Poly)
    requires t.Valid() && version < |VERSIONS| && |stream| == DataCodewords(VERSIONS[version])
    ensures var v := VERSIONS[version]; v.blocks > 0 && |data + ec| == v.total && |data| == |stream|
    ensures var v := VERSIONS[version]; forall b :: 0 <= b < v.blocks ==> LaneCoded(stream, v, data, ec, b)
  {
    BlocksFit(version);
    var v := VERSIONS[version];
    hide GaloisTables.Valid, Divides, Generator, Interleaved, Lane, VERSIONS, BlockDone;
    var per := |stream| / v.blocks;
    WholeBlocks(|stream|, v.blocks);
    var dataBlocks, ecBlocks;
    ghost var quotients;
    dataBlocks, ecBlocks, quotients := MakeBlocks(t, stream, per, v.blocks, v.ecPerBlock);
    data := Interleave(dataBlocks, per);
    ec := Interleave(ecBlocks, v.ecPerBlock);
    InterleavedLength(dataBlocks, per, data);
    InterleavedLength(ecBlocks, v.ecPerBlock, ec);
    forall b | 0 <= b < v.blocks
      ensures LaneCoded(stream, v, data, ec, b)
    {
      LaneIsPart(dataBlocks, per, data, b);
      LaneIsPart(ecBlocks, v.ecPerBlock, ec, b);
      assert LaneOk(stream, v, data, ec, b, quotients[b]);
    }
  }

  method MakeBlocks(t: GaloisTables, stream: Poly, per: nat, blocks: nat, n: nat)
    returns (dataBlocks: seq<Poly>, ecBlocks: seq<Poly>, ghost quotients: seq<Poly>)
    requires t.Valid() && per * blocks == |stream| && 0 < n <= 512
    ensures |dataBlocks| == |ecBlocks| == |quotients| == blocks
    ensures forall b :: 0 <= b < blocks ==> BlockDone(stream, per, n, b, dataBlocks[b], ecBlocks[b], quotients[b])
    ensures forall b :: 0 <= b < blocks ==> |dataBlocks[b]| == per && |ecBlocks[b]| == n
  {
    hide GaloisTables.Valid, Divides, Generator, BlockDone;
    dataBlocks, ecBlocks, quotients := [], [], [];
    for b := 0 to blocks
      invariant |dataBlocks| == |ecBlocks| == |quotients| == b
      invariant forall c :: 0 <= c < b ==> BlockDone(stream, per, n, c, dataBlocks[c], ecBlocks[c], quotients[c])
    {
      BlockInside(|stream|, per, blocks, b);
      var block := stream[b * per..(b + 1) * per];
      var rem, q := Remainder(t, block, n);
      BlockIsDone(stream, per, n, b, rem, q);
      dataBlocks, ecBlocks, quotients := dataBlocks + [block], ecBlocks + [rem], quotients + [q];
    }
    forall c | 0 <= c < blocks
      ensures |dataBlocks[c]| == per && |ecBlocks[c]| == n
    {
      BlockLengths(stream, per, n, c, dataBlocks[c], ecBlocks[c], quotients[c]);
    }
  }

  ghost predicate BlockDone(stream: Poly, per: nat, n: nat, b: nat, block: Poly, rem: Poly, quotient: Poly)
  {
    && b * per <= (b + 1) * per <= |stream| && block == stream[b * per..(b + 1) * per]
    && Divides(Generator(n), block, rem, quotient)
  }

  lemma BlockIsDone(stream: Poly, per: nat, n: nat, b: nat, rem: Poly, quotient: Poly)
    requires b * per <= (b + 1) * per <= |stream| && Divides(Generator(n), stream[b * per..(b + 1) * per], rem, quotient)
    ensures BlockDone(stream, per, n, b, stream[b * per..(b + 1) * per], rem, quotient)
  {
  }

  lemma BlockLengths(stream: Poly, per: nat, n: nat, b: nat, block: Poly, rem: Poly, quotient: Poly)
    requires BlockDone(stream, per, n, b, block, rem, quotient)
    ensures |block| == per && |rem| == n && b * per <= (b + 1) * per <= |stream| && block == stream[b * per..(b + 1) * per]
    ensures Divides(Generator(n), block, rem, quotient)
  {
    hide Product, Generator;
    NextRow(b, per);
  }

  lemma InterleavedLength(parts: seq<Poly>, len: nat, out: Poly)
    requires (forall b :: 0 <= b < |parts| ==> |parts[b]| == len) && Interleaved(parts, len, out)
    ensures |out| == len * |parts|
  {
  }

  lemma WholeBlocks(n: nat, blocks: nat)
    requires blocks > 0 && n % blocks == 0
    ensures (n / blocks) * blocks == n
  {
  }

  lemma BlockInside(n: nat, per: nat, blocks: nat, b: nat)
    requires per * blocks == n && b < blocks
    ensures b * per <= (b + 1) * per <= n
  {
    NextRow(b, per);
    assert (b + 1) * per <= blocks * per;
  }

  /** Every block read back from the symbol vanishes at the roots of its generator. */
  lemma LaneVanishes(stream: Poly, v: Version, data: Poly, ec: Poly, b: nat, k: nat)
    requires v.blocks > 0 && LaneCoded(stream, v, data, ec, b) && k < v.ecPerBlock
    ensures Eval(Lane(data, v.blocks, |stream| / v.blocks, b) + Lane(ec, v.blocks, v.ecPerBlock, b), Root(k)) == ZERO
  {
    hide Eval, Generator, Root, Lane, Divides;
    var quotient :| LaneOk(stream, v, data, ec, b, quotient);
    CodewordVanishes(v.ecPerBlock, Lane(data, v.blocks, |stream| / v.blocks, b), Lane(ec, v.blocks, v.ecPerBlock, b), quotient, k);
  }
}
