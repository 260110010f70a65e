/** Geometry of a torrent: a flat byte stream cut into pieces and, independently, into files. */
module Metainfo {
  import opened Arith

  /** The size of a block, for the picker and for the store. */
  const BLOCK: nat := 16 * 1024
  const MAX_PIECE_LENGTH: int := 256 * 1024 * 1024

  datatype FileEntry = FileEntry(offset: nat, length: nat)

  datatype Geometry = Geometry(pieceLength: nat, pieceCount: nat, files: seq<FileEntry>, totalSize: nat)

  function Sum(lengths: seq<nat>): nat
  {
    if |lengths| == 0 then 0 else Sum(lengths[..|lengths| - 1]) + lengths[|lengths| - 1]
  }

  /** Files laid end to end. */
  ghost predicate Contiguous(files: seq<FileEntry>, total: nat)
  {
    && (|files| == 0 ==> total == 0)
    && (|files| > 0 ==> files[0].offset == 0 && files[|files| - 1].offset + files[|files| - 1].length == total)
    && (forall i :: 0 <= i < |files| - 1 ==> files[i + 1].offset == files[i].offset + files[i].length)
  }

  ghost predicate Valid(g: Geometry)
  {
    && 0 < g.pieceLength <= MAX_PIECE_LENGTH && g.totalSize > 0
    && Contiguous(g.files, g.totalSize)
    && g.pieceCount == (g.totalSize + g.pieceLength - 1) / g.pieceLength
  }

  predicate HasPiece(g: Geometry, index: nat)
  {
    g.pieceLength > 0 && g.pieceCount == (g.totalSize + g.pieceLength - 1) / g.pieceLength && index < g.pieceCount
  }

  function SizeOfPiece(g: Geometry, index: nat): nat
    requires HasPiece(g, index)
    ensures SizeOfPiece(g, index) > 0
    ensures SizeOfPiece(g, index) <= g.pieceLength
    ensures PieceStart(g, index) + SizeOfPiece(g, index) <= g.totalSize
    ensures index + 1 == g.pieceCount ==> PieceStart(g, index) + SizeOfPiece(g, index) == g.totalSize
  {
    LastPiece(g.totalSize, g.pieceLength, index);
    if index + 1 < g.pieceCount then g.pieceLength else g.totalSize - PieceStart(g, index)
  }

  /** Where a piece begins in the flat stream. */
  function PieceStart(g: Geometry, index: nat): nat
  {
    index * g.pieceLength
  }

  lemma PieceCountPositive(g: Geometry)
    requires Valid(g)
    ensures g.pieceCount > 0 && HasPiece(g, 0)
  {
    var q := (g.totalSize + g.pieceLength - 1) / g.pieceLength;
    DivModUnique(g.totalSize + g.pieceLength - 1, g.pieceLength, q, (g.totalSize + g.pieceLength - 1) % g.pieceLength);
  }

  /** Where the first n pieces end. */
  function EndOf(g: Geometry, n: nat): nat
  {
    if n < g.pieceCount then PieceStart(g, n) else g.totalSize
  }

  /** The pieces follow one another without gap or overlap, all of full length but the last, and end where the stream ends. */
  lemma PiecesTile(g: Geometry, index: nat)
    requires HasPiece(g, index)
    ensures EndOf(g, 0) == 0 && EndOf(g, g.pieceCount) == g.totalSize
    ensures PieceStart(g, index) == EndOf(g, index) && EndOf(g, index) + SizeOfPiece(g, index) == EndOf(g, index + 1)
    ensures index + 1 < g.pieceCount ==> SizeOfPiece(g, index) == g.pieceLength
  {
    LastPiece(g.totalSize, g.pieceLength, index);
    NextStart(index, g.pieceLength);
  }

  lemma NextStart(index: nat, len: nat)
    ensures (index + 1) * len == index * len + len
  {
  }

  lemma LastPiece(total: nat, len: nat, index: nat)
    requires len > 0 && index < (total + len - 1) / len
    ensures index * len < total
    ensures index + 1 < (total + len - 1) / len ==> (index + 1) * len <= total
    ensures index + 1 == (total + len - 1) / len ==> total <= (index + 1) * len
  {
    var q, r := (total + len - 1) / len, (total + len - 1) % len;
    assert q * len + r == total + len - 1;
    MulMono(len, index + 1, q);
    assert (index + 1) * len == index * len + len;
    if index + 1 < q {
      MulMono(len, index + 2, q);
      assert (index + 2) * len == (index + 1) * len + len;
    }
  }

  /**
   * The file loop of read_info. Offsets are 64-bit, so they are sums modulo 2^64; the lengths come
   * from the dictionary as non-negative 64-bit integers.
   */
  method ReadFiles(lengths: seq<nat>) returns (files: seq<FileEntry>, total: nat)
    ensures |files| == |lengths| && total == Sum(lengths) % TWO64
    ensures forall i :: 0 <= i < |files| ==> files[i] == FileEntry(Sum(lengths[..i]) % TWO64, lengths[i])
  {
    files, total := [], 0;
    for i := 0 to |lengths|
      invariant |files| == i && total == Sum(lengths[..i]) % TWO64
      invariant forall j :: 0 <= j < i ==> files[j] == FileEntry(Sum(lengths[..j]) % TWO64, lengths[j])
    {
      files := files + [FileEntry(total, lengths[i])];
      ModAddLeft(Sum(lengths[..i]), lengths[i], TWO64);
      assert lengths[..i + 1][..i] == lengths[..i];
      total := (total + lengths[i]) % TWO64;
    }
    assert lengths[..|lengths|] == lengths;
  }

  lemma ModAddLeft(x: int, y: int, m: int)
    requires m > 0
    ensures (x % m + y) % m == (x + y) % m
  {
    ModShift(x % m + y, x / m, m);
  }

  /** The checks of read_info after the file loop; the count it expects is computed in 64 bits. */
  function ReadGeometry(pieceLength: int, pieces: nat, files: seq<FileEntry>, total: nat): Result
  {
    if pieceLength <= 0 || pieceLength > MAX_PIECE_LENGTH then Rejected
    else if pieces == 0 then Rejected
    else if total == 0 then Rejected
    else if (total + pieceLength - 1) % TWO64 / pieceLength != pieces then Rejected
    else Accepted(Geometry(pieceLength, pieces, files, total))
  }

  datatype Result = Accepted(geometry: Geometry) | Rejected

  ghost predicate BuiltFrom(lengths: seq<nat>, files: seq<FileEntry>, total: nat)
  {
    && |files| == |lengths| && total == Sum(lengths) % TWO64
    && forall i :: 0 <= i < |files| ==> files[i] == FileEntry(Sum(lengths[..i]) % TWO64, lengths[i])
  }

  /** The offsets are contiguous exactly when the sum of the lengths does not wrap around. */
  lemma ContiguousIff(lengths: seq<nat>, files: seq<FileEntry>, total: nat)
    requires BuiltFrom(lengths, files, total)
    requires forall i :: 0 <= i < |lengths| ==> lengths[i] < TWO64
    ensures Contiguous(files, total) <==> Sum(lengths) < TWO64
  {
    if Sum(lengths) < TWO64 {
      NoWrapContiguous(lengths, files, total);
    }
    if Contiguous(files, total) {
      ContiguousSums(lengths, files, total, |lengths|);
      assert lengths[..|lengths|] == lengths;
    }
  }

  lemma NoWrapContiguous(lengths: seq<nat>, files: seq<FileEntry>, total: nat)
    requires BuiltFrom(lengths, files, total) && Sum(lengths) < TWO64
    ensures Contiguous(files, total)
  {
    forall i | 0 <= i < |files|
      ensures files[i].offset == Sum(lengths[..i])
      ensures Sum(lengths[..i + 1]) == files[i].offset + files[i].length
    {
      SumPrefix(lengths, i);
      ModSmall(Sum(lengths[..i]), TWO64);
      assert lengths[..i + 1][..i] == lengths[..i];
    }
    ModSmall(Sum(lengths), TWO64);
    assert lengths[..|lengths|] == lengths;
  }

  lemma {:induction false} SumPrefix(lengths: seq<nat>, i: nat)
    requires i <= |lengths|
    ensures Sum(lengths[..i]) <= Sum(lengths)
  {
    if i == |lengths| {
      assert lengths[..i] == lengths;
    } else {
      var n := |lengths| - 1;
      SumPrefix(lengths[..n], i);
      assert lengths[..n][..i] == lengths[..i];
    }
  }

  lemma {:induction false} ContiguousSums(lengths: seq<nat>, files: seq<FileEntry>, total: nat, i: nat)
    requires BuiltFrom(lengths, files, total) && Contiguous(files, total) && i <= |lengths|
    ensures i < |lengths| ==> files[i].offset == Sum(lengths[..i])
    ensures i == |lengths| ==> total == Sum(lengths[..i])
  {
    if i > 0 {
      ContiguousSums(lengths, files, total, i - 1);
      assert lengths[..i][..i - 1] == lengths[..i - 1];
    }
  }

  /** An accepted dictionary gives a usable geometry exactly when its lengths do not wrap around. */
  lemma AcceptedIsValid(pieceLength: int, pieces: nat, lengths: seq<nat>, files: seq<FileEntry>, total: nat)
    requires BuiltFrom(lengths, files, total)
    requires forall i :: 0 <= i < |lengths| ==> lengths[i] < TWO64
    requires ReadGeometry(pieceLength, pieces, files, total).Accepted?
    ensures Valid(ReadGeometry(pieceLength, pieces, files, total).geometry) <==> Sum(lengths) < TWO64
  {
    ContiguousIff(lengths, files, total);
    ExpectedCount(total, pieceLength);
  }

  /** The 64-bit sum can wrap only to a count of no pieces at all, which is refused. */
  lemma ExpectedCount(total: nat, len: nat)
    requires 0 < len <= MAX_PIECE_LENGTH && 0 < total < TWO64
    ensures (total + len - 1) % TWO64 / len > 0 ==> (total + len - 1) % TWO64 == total + len - 1
    ensures total + len - 1 >= TWO64 ==> (total + len - 1) % TWO64 / len == 0
  {
    var sum := total + len - 1;
    if sum >= TWO64 {
      ModShift(sum - TWO64, 1, TWO64);
      ModSmall(sum - TWO64, TWO64);
      ModSmall(sum - TWO64, len);
    } else {
      ModSmall(sum, TWO64);
    }
  }

  lemma {:induction false} OffsetsOrdered(files: seq<FileEntry>, total: nat, i: nat, j: nat)
    requires Contiguous(files, total) && i < j < |files|
    ensures files[i].offset + files[i].length <= files[j].offset
  {
    if i + 1 < j {
      OffsetsOrdered(files, total, i, j - 1);
    }
  }

  lemma {:induction false} EndsWithinTotal(files: seq<FileEntry>, total: nat, i: nat)
    requires Contiguous(files, total) && i < |files|
    ensures files[i].offset + files[i].length <= total
    decreases |files| - i
  {
    if i + 1 < |files| {
      EndsWithinTotal(files, total, i + 1);
    }
  }

  lemma SumSnoc(lengths: seq<nat>, n: nat)
    ensures Sum([]) == 0 && Sum(lengths + [n]) == Sum(lengths) + n
  {
    assert (lengths + [n])[..|lengths|] == lengths;
  }

  lemma SumsOfThree(x: nat, y: nat, z: nat)
    ensures var l := [x, y, z]; Sum(l[..0]) == 0 && Sum(l[..1]) == x && Sum(l[..2]) == x + y && Sum(l[..3]) == Sum(l) == x + y + z
  {
    var l := [x, y, z];
    assert l[..0] == [] && l[..1] == [] + [x] && l[..2] == [x] + [y] && l[..3] == l == [x, y] + [z];
    SumSnoc([], x);
    SumSnoc([x], y);
    SumSnoc([x, y], z);
  }

  /**
   * Three lengths whose sum wraps to 14 are accepted with one piece of 16, although the first file
   * alone reaches far past the end of the stream.
   */
  lemma WrappedOffsets()
    ensures exists lengths: seq<nat>, files, total ::
              && (forall i :: 0 <= i < |lengths| ==> lengths[i] < 0x8000_0000_0000_0000)
              && BuiltFrom(lengths, files, total) && !Contiguous(files, total)
              && ReadGeometry(16, 1, files, total) == Accepted(Geometry(16, 1, files, total))
  {
    hide Sum;
    var a: nat := 0x7fff_ffff_ffff_ffff;
    var lengths: seq<nat> := [a, a, 16];
    SumsOfThree(a, a, 16);
    var files := [FileEntry(0, a), FileEntry(a, a), FileEntry(2 * a, 16)];
    assert BuiltFrom(lengths, files, 14);
    assert !Contiguous(files, 14);
    ModSmall(29, TWO64);
    assert 14 + 16 - 1 == 29 && 29 / 16 == 1;
    assert ReadGeometry(16, 1, files, 14) == Accepted(Geometry(16, 1, files, 14));
  }
}
