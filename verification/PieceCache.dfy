/** The block-granular piece cache above the card. */
module PieceCache {
  import opened Bytes
  import opened Counting
  import opened Metainfo
  import opened Card
  import opened Options
  import Arith

  const HASH_CHUNK: nat := 64 * 1024
  const MAX_BUFFERED_PIECE: nat := 16 * 1024 * 1024
  const BUFFER_BUDGET: nat := 48 * 1024 * 1024

  type Digest(==, 0, !new) = seq<byte>

  /** A piece being assembled; an emptied buffer has no data. */
  datatype PieceBuffer = PieceBuffer(index: nat, data: seq<byte>, have: seq<bool>, blocksPresent: nat)

  function Blocks(size: nat): nat
  {
    (size + BLOCK - 1) / BLOCK
  }

  lemma BlockOf(k: nat, size: nat)
    requires k < size
    ensures k / BLOCK < Blocks(size)
  {
  }

  // --- what a buffer stands for ------------------------------------------------------

  ghost predicate Shape(b: PieceBuffer, size: nat)
  {
    && |b.data| == size && |b.have| == Blocks(size)
    && b.blocksPresent == CountTrue(b.have)
    && forall k :: 0 <= k < size && !Present(b, k) ==> b.data[k] == 0
  }

  /** Does the buffer hold byte k of its piece? */
  predicate Present(b: PieceBuffer, k: nat)
  {
    k / BLOCK < |b.have| && b.have[k / BLOCK]
  }

  /** The bytes of a piece: its buffered blocks over what the card holds. */
  function Overlay(base: seq<byte>, b: PieceBuffer): (r: seq<byte>)
    requires |b.data| == |base|
    ensures |r| == |base|
  {
    seq(|base|, k requires 0 <= k < |base| => if Present(b, k) then b.data[k] else base[k])
  }

  function FreshBuffer(index: nat, size: nat): PieceBuffer
  {
    PieceBuffer(index, seq(size, _ => 0), seq(Blocks(size), _ => false), 0)
  }

  lemma FreshIsTransparent(index: nat, size: nat, base: seq<byte>)
    requires |base| == size
    ensures Shape(FreshBuffer(index, size), size) && Overlay(base, FreshBuffer(index, size)) == base
  {
    CountTrueNone(FreshBuffer(index, size).have);
  }

  function MarkFrom(have: seq<bool>, first: nat, last: nat): seq<bool>
    requires first <= last + 1 <= |have|
  {
    seq(|have|, i requires 0 <= i < |have| => have[i] || first <= i <= last)
  }

  /** The buffered path of write_block. */
  function BufferWrite(b: PieceBuffer, offset: nat, data: seq<byte>): PieceBuffer
    requires offset % BLOCK == 0 && |data| > 0 && offset + |data| <= |b.data| && |b.have| == Blocks(|b.data|)
  {
    BlockOf(offset + |data| - 1, |b.data|);
    var have := MarkFrom(b.have, offset / BLOCK, (offset + |data| - 1) / BLOCK);
    PieceBuffer(b.index, Splice(b.data, offset, data), have, CountTrue(have))
  }

  /** A write that ends where a block or the piece ends. */
  predicate BlockShaped(offset: nat, len: nat, size: nat)
  {
    offset % BLOCK == 0 && (len % BLOCK == 0 || offset + len == size)
  }

  /** The bytes of the last touched block that the write does not supply. */
  ghost predicate TailHarmless(base: seq<byte>, b: PieceBuffer, offset: nat, len: nat)
    requires len > 0 && |b.data| == |base|
  {
    var last := (offset + len - 1) / BLOCK;
    Present(b, offset + len - 1) || forall k :: offset + len <= k < |base| && k / BLOCK == last ==> base[k] == b.data[k]
  }

  /**
   * A buffered write acts as a write of the flat array exactly when the rest of its last block was
   * already buffered, or reads the same on the card as in the buffer (zeros, there).
   */
  lemma BufferWriteRefinesIff(base: seq<byte>, b: PieceBuffer, offset: nat, data: seq<byte>)
    requires Shape(b, |base|) && offset % BLOCK == 0 && |data| > 0 && offset + |data| <= |base|
    ensures Overlay(base, BufferWrite(b, offset, data)) == Splice(Overlay(base, b), offset, data)
            <==> TailHarmless(base, b, offset, |data|)
  {
    var w := BufferWrite(b, offset, data);
    var left, right := Overlay(base, w), Splice(Overlay(base, b), offset, data);
    var first, last := offset / BLOCK, (offset + |data| - 1) / BLOCK;
    forall k | 0 <= k < |base|
      ensures k < offset ==> left[k] == right[k]
      ensures offset <= k < offset + |data| ==> left[k] == right[k]
      ensures k >= offset + |data| && k / BLOCK != last ==> left[k] == right[k]
      ensures k >= offset + |data| && k / BLOCK == last ==>
                (left[k] == right[k] <==> Present(b, offset + |data| - 1) || base[k] == b.data[k])
    {
      PositionOfWrite(k, offset, |data|, |base|);
    }
  }

  lemma PositionOfWrite(k: nat, offset: nat, len: nat, size: nat)
    requires k < size && len > 0 && offset + len <= size && offset % BLOCK == 0
    ensures k / BLOCK < Blocks(size)
    ensures k < offset <==> k / BLOCK < offset / BLOCK
    ensures offset <= k < offset + len ==> offset / BLOCK <= k / BLOCK <= (offset + len - 1) / BLOCK
    ensures k >= offset + len ==> k / BLOCK >= (offset + len - 1) / BLOCK
  {
  }

  lemma BufferWriteShape(b: PieceBuffer, offset: nat, data: seq<byte>, size: nat)
    requires Shape(b, size) && offset % BLOCK == 0 && |data| > 0 && offset + |data| <= size
    ensures Shape(BufferWrite(b, offset, data), size) && BufferWrite(b, offset, data).index == b.index
  {
    var w := BufferWrite(b, offset, data);
    forall k | 0 <= k < size && !Present(w, k)
      ensures w.data[k] == 0
    {
      PositionOfWrite(k, offset, |data|, size);
    }
  }

  /** Block-shaped writes always act on the flat array. */
  lemma ShapedWriteRefines(base: seq<byte>, b: PieceBuffer, offset: nat, data: seq<byte>)
    requires Shape(b, |base|) && |data| > 0 && offset + |data| <= |base| && BlockShaped(offset, |data|, |base|)
    ensures Overlay(base, BufferWrite(b, offset, data)) == Splice(Overlay(base, b), offset, data)
  {
    hide Overlay, BufferWrite, Splice, CountTrue;
    BufferWriteRefinesIff(base, b, offset, data);
    ShapedTail(base, b, offset, |data|);
  }

  lemma ShapedTail(base: seq<byte>, b: PieceBuffer, offset: nat, len: nat)
    requires len > 0 && |b.data| == |base| && offset + len <= |base| && BlockShaped(offset, len, |base|)
    ensures TailHarmless(base, b, offset, len)
  {
    var end := offset + len;
    if end < |base| {
      AlignedEnd(end);
      forall k | end <= k < |base|
        ensures k / BLOCK != (end - 1) / BLOCK
      {
        PositionOfWrite(k, end, |base| - end, |base|);
      }
    }
  }

  lemma AlignedEnd(end: nat)
    requires end > 0
    ensures (end - 1) / BLOCK < end / BLOCK <==> end % BLOCK == 0
  {
  }

  /** For every other aligned write there is a card and a buffer on which it does not. */
  lemma UnshapedWriteCanFail(size: nat, offset: nat, data: seq<byte>) returns (base: seq<byte>, b: PieceBuffer)
    requires offset % BLOCK == 0 && |data| > 0 && offset + |data| <= size && !BlockShaped(offset, |data|, size)
    ensures |base| == size && Shape(b, size)
    ensures Overlay(base, BufferWrite(b, offset, data)) != Splice(Overlay(base, b), offset, data)
  {
    base, b := seq(size, _ => 1), FreshBuffer(0, size);
    hide Overlay, BufferWrite, Splice, CountTrue;
    FreshIsTransparent(0, size, base);
    BufferWriteRefinesIff(base, b, offset, data);
    UnshapedTail(base, b, offset, |data|);
  }

  lemma UnshapedTail(base: seq<byte>, b: PieceBuffer, offset: nat, len: nat)
    requires offset % BLOCK == 0 && len > 0 && offset + len <= |base| && !BlockShaped(offset, len, |base|)
    requires |b.data| == |base| && forall k :: 0 <= k < |base| ==> base[k] != b.data[k] && !Present(b, k)
    ensures !TailHarmless(base, b, offset, len)
  {
    var k := offset + len;
    AlignedEnd(k);
    assert k / BLOCK == (k - 1) / BLOCK;
    assert base[k] != b.data[k];
  }

  /** A write that bypasses a buffer acts on the flat array exactly when the buffer does not hide other bytes. */
  lemma DirectWriteRefinesIff(base: seq<byte>, b: PieceBuffer, offset: nat, data: seq<byte>)
    requires |b.data| == |base| && offset + |data| <= |base|
    ensures Overlay(Splice(base, offset, data), b) == Splice(Overlay(base, b), offset, data)
            <==> forall k :: offset <= k < offset + |data| && Present(b, k) ==> b.data[k] == data[k - offset]
  {
    var left, right := Overlay(Splice(base, offset, data), b), Splice(Overlay(base, b), offset, data);
    forall k | 0 <= k < |base|
      ensures left[k] == right[k] <==> !(offset <= k < offset + |data|) || !Present(b, k) || b.data[k] == data[k - offset]
    {
    }
  }

  // --- the store ----------------------------------------------------------------------

  function FindFrom(bufs: seq<PieceBuffer>, piece: nat, i: nat): (r: int)
    requires i <= |bufs|
    ensures -1 <= r < |bufs|
    ensures r >= 0 ==> r >= i && bufs[r].index == piece
    decreases |bufs| - i
  {
    if i == |bufs| then -1
    else if bufs[i].index == piece && |bufs[i].data| > 0 then i
    else FindFrom(bufs, piece, i + 1)
  }

  /** The buffer of a piece, or -1. */
  function Find(bufs: seq<PieceBuffer>, piece: nat): (r: int)
    ensures -1 <= r < |bufs|
  {
    FindFrom(bufs, piece, 0)
  }

  /** The buffer of a piece, if it has one. */
  function BufferOf(bufs: seq<PieceBuffer>, piece: nat): Option<PieceBuffer>
  {
    var i := Find(bufs, piece);
    if i < 0 then None else Some(bufs[i])
  }

  /** Every other piece has the buffer it had. */
  ghost predicate OthersKept(before: seq<PieceBuffer>, after: seq<PieceBuffer>, piece: nat)
  {
    forall q: nat :: q != piece ==> BufferOf(after, q) == BufferOf(before, q)
  }

  /** Every byte of s is the one of s0 or the one of v. */
  ghost predicate Between(s0: seq<byte>, s: seq<byte>, v: seq<byte>)
  {
    |s| == |s0| == |v| && forall k :: 0 <= k < |s| ==> s[k] == s0[k] || s[k] == v[k]
  }

  lemma NothingBetween(s: seq<byte>, v: seq<byte>)
    requires |s| == |v|
    ensures Between(s, s, v)
  {
  }

  lemma BetweenTwice(a: seq<byte>, b: seq<byte>, c: seq<byte>, v: seq<byte>)
    requires Between(a, b, v) && Between(b, c, v)
    ensures Between(a, c, v)
  {
  }

  function BytesHeld(bufs: seq<PieceBuffer>): nat
  {
    if |bufs| == 0 then 0 else BytesHeld(bufs[..|bufs| - 1]) + |bufs[|bufs| - 1].data|
  }

  ghost predicate BuffersOk(g: Geometry, bufs: seq<PieceBuffer>)
    requires Metainfo.Valid(g)
  {
    && (forall i :: 0 <= i < |bufs| ==> bufs[i].index < g.pieceCount && Shape(bufs[i], SizeOfPiece(g, bufs[i].index)))
    && (forall i, j :: 0 <= i < j < |bufs| ==> bufs[i].index != bufs[j].index)
    && BytesHeld(bufs) <= BUFFER_BUDGET
  }

  function PieceSlice(g: Geometry, flat: seq<byte>, p: nat): (r: seq<byte>)
    requires HasPiece(g, p) && |flat| == g.totalSize
    ensures |r| == SizeOfPiece(g, p)
  {
    var start, size := PieceStart(g, p), SizeOfPiece(g, p);
    flat[start..start + size]
  }

  /** The flat array that the card and the buffers together stand for, piece by piece. */
  ghost function ViewOf(g: Geometry, flat: seq<byte>, bufs: seq<PieceBuffer>, p: nat): (r: seq<byte>)
    requires Metainfo.Valid(g) && BuffersOk(g, bufs) && p < g.pieceCount && |flat| == g.totalSize
    ensures |r| == SizeOfPiece(g, p)
  {
    var i := Find(bufs, p);
    if i < 0 then PieceSlice(g, flat, p)
    else
      FindIs(bufs, p);
      Overlay(PieceSlice(g, flat, p), bufs[i])
  }

  lemma {:induction false} FindFromIs(bufs: seq<PieceBuffer>, piece: nat, i: nat)
    requires i <= |bufs|
    ensures var r := FindFrom(bufs, piece, i);
            if r < 0 then forall j :: i <= j < |bufs| ==> bufs[j].index != piece || |bufs[j].data| == 0
            else bufs[r].index == piece && |bufs[r].data| > 0
    decreases |bufs| - i
  {
    if i < |bufs| && !(bufs[i].index == piece && |bufs[i].data| > 0) {
      FindFromIs(bufs, piece, i + 1);
    }
  }

  lemma FindIs(bufs: seq<PieceBuffer>, piece: nat)
    ensures var r := Find(bufs, piece);
            if r < 0 then forall j :: 0 <= j < |bufs| ==> bufs[j].index != piece || |bufs[j].data| == 0
            else bufs[r].index == piece && |bufs[r].data| > 0
  {
    FindFromIs(bufs, piece, 0);
  }

  class Storage {
    const geometry: Geometry
    const hashes: seq<Digest>
    const sha1: seq<byte> -> Digest
    const files: Files
    var buffers: seq<PieceBuffer>

    ghost predicate Valid()
      reads this, files
    {
      && files.Valid() && files.geometry == geometry && |hashes| == geometry.pieceCount
      && Metainfo.Valid(geometry) && |files.flat| == geometry.totalSize
      && |files.contents| == |geometry.files| && BuffersOk(geometry, buffers)
    }

    /** The bytes of piece p as the store presents them. */
    ghost function View(p: nat): (r: seq<byte>)
      requires Valid() && p < geometry.pieceCount
      reads this, files
    {
      ViewOf(geometry, files.flat, buffers, p)
    }

    constructor (f: Files, hashes: seq<Digest>, sha1: seq<byte> -> Digest)
      requires f.Valid() && |hashes| == f.geometry.pieceCount
      ensures Valid() && files == f && geometry == f.geometry && buffers == []
      ensures this.hashes == hashes && this.sha1 == sha1
    {
      geometry, this.hashes, this.sha1, files, buffers := f.geometry, hashes, sha1, f, [];
    }

    /** Index of the piece's buffer, created if asked for and affordable; -1 if there is none. */
    method BufferFor(piece: nat, create: bool) returns (r: int)
      requires Valid() && piece < geometry.pieceCount
      modifies this`buffers
      ensures Valid() && -1 <= r < |buffers|
      ensures r == Find(buffers, piece)
      ensures !create ==> buffers == old(buffers)
      ensures r >= 0 && create ==> buffers[r] == TargetBuffer(old(buffers), piece)
      ensures OthersKept(old(buffers), buffers, piece) && (r < 0 ==> buffers == old(buffers))
      ensures create ==> (r >= 0 <==> Bufferable(old(buffers), piece))
      ensures forall q :: 0 <= q < geometry.pieceCount ==> View(q) == old(View(q))
    {
      hide ViewOf, Shape, BytesHeld, BuffersOk, Find;
      r := Search(piece);
      if r >= 0 || !create {
        return;
      }
      var size := SizeOfPiece(geometry, piece);
      if size == 0 || size > MAX_BUFFERED_PIECE {
        return -1;
      }
      var used := BytesUsed();
      if used + size > BUFFER_BUDGET {
        return -1;
      }
      AddFresh(geometry, buffers, piece);
      FreshBufferView(geometry, buffers, piece);
      FreshKeepsOthers(geometry, buffers, piece);
      buffers := buffers + [FreshBuffer(piece, size)];
      return |buffers| - 1;
    }

    /** The piece has a buffer, or may have one within the limits. */
    ghost predicate Bufferable(bufs: seq<PieceBuffer>, piece: nat)
      requires Metainfo.Valid(geometry) && piece < geometry.pieceCount
    {
      Find(bufs, piece) >= 0 ||
      (0 < SizeOfPiece(geometry, piece) <= MAX_BUFFERED_PIECE && BytesHeld(bufs) + SizeOfPiece(geometry, piece) <= BUFFER_BUDGET)
    }

    method Search(piece: nat) returns (r: int)
      ensures r == Find(buffers, piece)
    {
      for i := 0 to |buffers|
        invariant FindFrom(buffers, piece, i) == Find(buffers, piece)
      {
        if buffers[i].index == piece && |buffers[i].data| > 0 {
          return i;
        }
      }
      return -1;
    }

    method BytesUsed() returns (used: nat)
      ensures used == BytesHeld(buffers)
    {
      used := 0;
      NothingHeld(buffers[..0]);
      for j := 0 to |buffers|
        invariant used == BytesHeld(buffers[..j])
      {
        BytesHeldSnoc(buffers, j);
        used := used + |buffers[j].data|;
      }
      assert buffers[..|buffers|] == buffers;
    }

    ghost predicate Fits(piece: nat, offset: nat, len: nat)
      requires Metainfo.Valid(geometry)
    {
      piece < geometry.pieceCount && offset + len <= SizeOfPiece(geometry, piece)
    }

    /** Writes part of a piece straight to the card; a failing card may still have taken a prefix. */
    method WriteThrough(piece: nat, offset: nat, data: seq<byte>) returns (ok: bool, ghost n: nat)
      requires Valid() && Fits(piece, offset, |data|)
      modifies files
      ensures Valid() && Grown(old(files.contents), files.contents)
      ensures old(files.ops) <= files.ops && (ok <==> files.Sound(old(files.ops), files.ops))
      ensures forall q :: 0 <= q < geometry.pieceCount && q != piece ==> View(q) == old(View(q)) && OnCard(q) == old(OnCard(q))
      ensures n <= |data| && (ok ==> n == |data|) && PieceStart(geometry, piece) + offset + n <= geometry.totalSize
      ensures files.flat == Splice(old(files.flat), PieceStart(geometry, piece) + offset, data[..n])
      ensures OnCard(piece) == Splice(old(OnCard(piece)), offset, data[..n])
      ensures ok ==> Reserved(geometry.files, files.contents, PieceStart(geometry, piece) + offset, |data|)
      ensures files.Refuses(old(files.ops)) ==> files.flat == old(files.flat)
      ensures files.Refuses(old(files.ops)) && ok ==> files.ops == old(files.ops)
    {
      hide BuffersOk, ViewOf, Find, Contiguous, FileAgrees, Files.Sound, Files.Valid, SizeOfPiece, SameOutside, Splice, Reserved;
      ghost var f0 := files.flat;
      ghost var start, size := PieceStart(geometry, piece), SizeOfPiece(geometry, piece);
      PieceInside(geometry, piece);
      ok, n := files.Write(piece * geometry.pieceLength + offset, data);
      if files.Refuses(old(files.ops)) {
        TakesNothing(f0, start + offset, data);
        if files.ops > old(files.ops) {
          files.RefusedIsUnsound(old(files.ops), files.ops);
        }
      }
      PrefixOutside(f0, start + offset, data, n);
      SliceOutside(geometry, f0, files.flat, piece, offset, |data|);
      SliceOfSplice(f0, start, size, offset, data[..n]);
      OthersUntouched(f0, piece);
    }

    /** The buffer a block of the piece goes to: the one there is, or a new one. */
    ghost function TargetBuffer(bufs: seq<PieceBuffer>, piece: nat): PieceBuffer
      requires Metainfo.Valid(geometry) && piece < geometry.pieceCount
    {
      var i := Find(bufs, piece);
      if i >= 0 then bufs[i] else FreshBuffer(piece, SizeOfPiece(geometry, piece))
    }

    /** Will the piece be wholly in memory once write_block has stored this block? */
    ghost predicate WholeOnceStored(bufs: seq<PieceBuffer>, piece: nat, offset: nat, len: nat)
      requires Metainfo.Valid(geometry) && piece < geometry.pieceCount
    {
      WholeWith(BufferOf(bufs, piece), SizeOfPiece(geometry, piece), offset % BLOCK == 0 && len > 0 && Bufferable(bufs, piece), offset, len)
    }

    lemma BufferSize(piece: nat)
      requires Valid() && piece < geometry.pieceCount
      ensures BufferOf(buffers, piece).Some? ==> |BufferOf(buffers, piece).value.data| == SizeOfPiece(geometry, piece)
    {
      hide BuffersOk, Find, SizeOfPiece, Files.Valid;
      if Find(buffers, piece) >= 0 {
        BufferIs(geometry, buffers, piece);
      }
    }

    lemma TargetIs(bufs: seq<PieceBuffer>, piece: nat)
      requires Metainfo.Valid(geometry) && piece < geometry.pieceCount
      ensures var t, b := TargetBuffer(bufs, piece), BufferOf(bufs, piece);
              t == if b.Some? then b.value else FreshBuffer(piece, SizeOfPiece(geometry, piece))
      ensures BufferOf(bufs, piece).None? ==> TargetBuffer(bufs, piece).index == piece
    {
    }

    /** write_block: into the piece's buffer, or straight to the card. */
    method WriteBlock(piece: nat, offset: nat, data: seq<byte>) returns (ok: bool, ghost buffered: bool, ghost n: nat)
      requires Valid()
      modifies this`buffers, files
      ensures Valid() && old(files.ops) <= files.ops && OthersKept(old(buffers), buffers, piece) && n <= |data|
      ensures ok <==> Fits(piece, offset, |data|) && files.Sound(old(files.ops), files.ops)
      ensures buffered <==> Fits(piece, offset, |data|) && offset % BLOCK == 0 && |data| > 0 && Bufferable(old(buffers), piece)
      ensures !Fits(piece, offset, |data|) ==> buffers == old(buffers) && files.flat == old(files.flat)
      ensures forall q :: 0 <= q < geometry.pieceCount && q != piece ==> View(q) == old(View(q)) && OnCard(q) == old(OnCard(q))
      ensures ok && BlockShaped(offset, |data|, SizeOfPiece(geometry, piece)) ==> View(piece) == Splice(old(View(piece)), offset, data)
      ensures ok && old(BackedBut(piece, offset, |data|)) ==> Backed(piece)
      ensures ok ==> (WhollyBuffered(buffers, piece) <==> WholeOnceStored(old(buffers), piece, offset, |data|))
      ensures buffered ==>
                && ok && files.flat == old(files.flat)
                && Shape(TargetBuffer(old(buffers), piece), SizeOfPiece(geometry, piece))
                && BufferOf(buffers, piece) == Some(BufferWrite(TargetBuffer(old(buffers), piece), offset, data))
                && View(piece) == Overlay(OnCard(piece), BufferWrite(TargetBuffer(old(buffers), piece), offset, data))
      ensures Fits(piece, offset, |data|) && !buffered ==>
                && buffers == old(buffers) && (ok ==> n == |data|)
                && OnCard(piece) == Splice(old(OnCard(piece)), offset, data[..n])
                && (offset % BLOCK == 0 && |data| > 0 ==> Find(buffers, piece) < 0)
    {
      hide BuffersOk, Shape, Overlay, ViewOf, BufferWrite, Splice, Find, TargetBuffer, Bufferable, PieceSlice, Metainfo.Contiguous, FileAgrees, Files.Sound, BufferOf, OthersKept, BackedIn, WholeWith, WhollyBuffered;
      buffered, n := false, 0;
      files.NothingAsked(files.ops);
      AllKept(buffers, piece);
      if piece >= geometry.pieceCount {
        ok := false;
        return;
      }
      var size := SizeOfPiece(geometry, piece);
      if offset > size || |data| > size - offset {
        ok := false;
        return;
      }
      if offset % BLOCK == 0 && |data| > 0 {
        var i := BufferFor(piece, true);
        ghost var between := buffers;
        if i >= 0 {
          WriteToBuffer(i, piece, offset, data);
          TargetIs(old(buffers), piece);
          WholeOnceBuffered(buffers, BufferOf(old(buffers), piece), piece, TargetBuffer(old(buffers), piece), offset, data, size);
          if old(BackedBut(piece, offset, |data|)) {
            BackedByBuffer(geometry.files, files.contents, PieceStart(geometry, piece), size, BufferOf(old(buffers), piece),
                           TargetBuffer(old(buffers), piece), offset, data);
          }
          KeptTwice(old(buffers), between, buffers, piece);
          return true, true, 0;
        }
      }
      BufferSize(piece);
      WholeAsItIs(buffers, piece, size, offset, |data|);
      ok, n := WriteUncached(piece, offset, data);
    }

    /** The fast path: the piece assembles in memory. */
    method WriteToBuffer(i: nat, piece: nat, offset: nat, data: seq<byte>)
      requires Valid() && Fits(piece, offset, |data|) && i == Find(buffers, piece) && i < |buffers|
      requires offset % BLOCK == 0 && |data| > 0
      modifies this`buffers
      ensures Valid()
      ensures Shape(old(buffers)[i], SizeOfPiece(geometry, piece))
      ensures View(piece) == Overlay(PieceSlice(geometry, files.flat, piece), BufferWrite(old(buffers)[i], offset, data))
      ensures forall q :: 0 <= q < geometry.pieceCount && q != piece ==> View(q) == old(View(q))
      ensures BlockShaped(offset, |data|, SizeOfPiece(geometry, piece)) ==> View(piece) == Splice(old(View(piece)), offset, data)
      ensures BufferOf(buffers, piece) == Some(BufferWrite(old(buffers)[i], offset, data)) && OthersKept(old(buffers), buffers, piece)
    {
      hide BuffersOk, ViewOf, Overlay, BytesHeld, PieceSlice, Find, Contiguous, FileAgrees;
      var b := buffers[i];
      BufferIs(geometry, buffers, piece);
      ViewIs(geometry, files.flat, buffers, piece);
      var first, last := offset / BLOCK, (offset + |data| - 1) / BLOCK;
      BlockOf(offset + |data| - 1, |b.data|);
      var have, present := MarkBlocks(b.have, b.blocksPresent, first, last);
      var w := PieceBuffer(b.index, Splice(b.data, offset, data), have, present);
      BufferWriteShape(b, offset, data, SizeOfPiece(geometry, piece));
      UpdateBuffer(geometry, buffers, i, w);
      UpdateKeepsOthers(geometry, buffers, i, w);
      if BlockShaped(offset, |data|, SizeOfPiece(geometry, piece)) {
        ShapedWriteRefines(PieceSlice(geometry, files.flat, piece), b, offset, data);
      }
      buffers := buffers[i := w];
    }

    method WriteUncached(piece: nat, offset: nat, data: seq<byte>) returns (ok: bool, ghost n: nat)
      requires Valid() && Fits(piece, offset, |data|)
      requires offset % BLOCK == 0 && |data| > 0 ==> Find(buffers, piece) < 0
      modifies files
      ensures Valid() && old(files.ops) <= files.ops && (ok <==> files.Sound(old(files.ops), files.ops))
      ensures forall q :: 0 <= q < geometry.pieceCount && q != piece ==> View(q) == old(View(q)) && OnCard(q) == old(OnCard(q))
      ensures n <= |data| && (ok ==> n == |data|) && Spliced(old(OnCard(piece)), OnCard(piece), offset, data[..n])
      ensures ok && old(BackedBut(piece, offset, |data|)) ==> Backed(piece)
      ensures ok ==> ShapedSplice(SizeOfPiece(geometry, piece), old(View(piece)), View(piece), offset, data)
    {
      hide BuffersOk, ViewOf, BytesHeld, Find, Contiguous, FileAgrees, Files.Sound, Files.Valid, PieceSlice, BackedIn, BufferOf, Splice, Grown, Reserved, SizeOfPiece;
      ghost var s0, c0 := OnCard(piece), files.contents;
      ViewIs(geometry, files.flat, buffers, piece);
      ok, n := WriteThrough(piece, offset, data);
      if ok && old(BackedBut(piece, offset, |data|)) {
        BackedByCard(geometry.files, c0, files.contents, PieceStart(geometry, piece), SizeOfPiece(geometry, piece),
                     BufferOf(buffers, piece), offset, |data|);
      }
      ViewIs(geometry, files.flat, buffers, piece);
      assert data[..|data|] == data;
      if ok && |data| == 0 {
        SpliceNothing(s0, offset, data);
        SpliceNothing(View(piece), offset, data);
      }
    }

    /** Writes the present blocks of a buffer, run by run, and nothing else. */
    method FlushRuns(i: nat) returns (ok: bool)
      requires Valid() && i < |buffers|
      modifies files
      ensures Valid() && Grown(old(files.contents), files.contents)
      ensures old(files.ops) <= files.ops && (ok <==> files.Sound(old(files.ops), files.ops))
      ensures forall q :: 0 <= q < geometry.pieceCount && q != buffers[i].index ==> View(q) == old(View(q)) && OnCard(q) == old(OnCard(q))
      ensures buffers[i].index < geometry.pieceCount
      ensures FlushedTo(old(OnCard(buffers[i].index)), OnCard(buffers[i].index), buffers[i], |buffers[i].data|, ok)
      ensures ok ==> RunsStored(geometry.files, files.contents, PieceStart(geometry, buffers[i].index), buffers[i], |buffers[i].data|)
      ensures files.Refuses(old(files.ops)) ==> files.flat == old(files.flat) && (ok ==> files.ops == old(files.ops))
    {
      hide BuffersOk, BytesHeld, Files.Valid, FlushedTo, RunsStored, Grown, Present, Shape, PieceSlice, SizeOfPiece, PieceStart, Contiguous, SameOutside, Find, ViewOf, Files.Sound;
      var b := buffers[i];
      BufferAt(geometry, buffers, i);
      ghost var f0, c0 := files.flat, files.contents;
      FlushBegins(OnCard(b.index), b, geometry.files, c0, PieceStart(geometry, b.index));
      SameAsItself(f0, PieceStart(geometry, b.index), SizeOfPiece(geometry, b.index));
      var runStart: nat, inRun := 0, false;
      files.NothingAsked(files.ops);
      for block := 0 to |b.have| + 1
        invariant inRun ==> InRun(b, runStart, block)
        invariant old(files.ops) <= files.ops && files.Sound(old(files.ops), files.ops)
        invariant files.Refuses(old(files.ops)) ==> files.flat == f0 && files.ops == old(files.ops)
        invariant FlushState(i, f0, c0, if inRun then runStart else block * BLOCK)
      {
        ghost var between := files.ops;
        ok, runStart, inRun := FlushBlock(i, block, runStart, inRun, f0, c0);
        files.SoundJoins(old(files.ops), between, files.ops);
        if !ok {
          OthersUntouched(f0, b.index);
          return;
        }
      }
      ok := true;
      OthersUntouched(f0, b.index);
      FlushEnds(PieceSlice(geometry, f0, b.index), OnCard(b.index), b, geometry.files, files.contents, PieceStart(geometry, b.index));
    }

    /** So far, the present bytes below upto have been written, and nothing else has changed. */
    ghost predicate FlushState(i: nat, f0: seq<byte>, c0: seq<seq<byte>>, upto: nat)
      reads this, files
    {
      && Valid() && i < |buffers| && |f0| == geometry.totalSize
      && var b := buffers[i];
      b.index < geometry.pieceCount
      && SameOutside(files.flat, f0, PieceStart(geometry, b.index), SizeOfPiece(geometry, b.index))
      && Grown(c0, files.contents)
      && FlushedTo(PieceSlice(geometry, f0, b.index), OnCard(b.index), b, upto, true)
      && RunsStored(geometry.files, files.contents, PieceStart(geometry, b.index), b, upto)
    }

    lemma OthersUntouched(f0: seq<byte>, p: nat)
      requires Valid() && p < geometry.pieceCount && |f0| == geometry.totalSize
      requires SameOutside(files.flat, f0, PieceStart(geometry, p), SizeOfPiece(geometry, p))
      ensures forall q :: 0 <= q < geometry.pieceCount && q != p ==> View(q) == ViewOf(geometry, f0, buffers, q)
      ensures forall q :: 0 <= q < geometry.pieceCount && q != p ==> OnCard(q) == PieceSlice(geometry, f0, q)
    {
      hide BuffersOk, BytesHeld, Files.Valid, SameOutside, PieceSlice, SizeOfPiece, PieceStart, Contiguous, Find;
      forall q | 0 <= q < geometry.pieceCount && q != p
        ensures View(q) == ViewOf(geometry, f0, buffers, q) && OnCard(q) == PieceSlice(geometry, f0, q)
      {
        OtherPieceUntouched(geometry, f0, files.flat, p, q);
        ViewIs(geometry, files.flat, buffers, q);
        ViewIs(geometry, f0, buffers, q);
      }
    }

    /** The body of the flush loop. */
    method FlushBlock(i: nat, block: nat, runStart0: nat, inRun0: bool, ghost f0: seq<byte>, ghost c0: seq<seq<byte>>)
      returns (ok: bool, runStart: nat, inRun: bool)
      requires FlushState(i, f0, c0, if inRun0 then runStart0 else block * BLOCK)
      requires block <= |buffers[i].have| == Blocks(|buffers[i].data|)
      requires inRun0 ==> InRun(buffers[i], runStart0, block)
      modifies files
      ensures old(files.ops) <= files.ops && (ok <==> files.Sound(old(files.ops), files.ops))
      ensures ok ==> FlushState(i, f0, c0, if inRun then runStart else (block + 1) * BLOCK)
      ensures ok && inRun ==> InRun(buffers[i], runStart, block + 1)
      ensures !ok ==>
                && Valid() && Grown(c0, files.contents)
                && SameOutside(files.flat, f0, PieceStart(geometry, buffers[i].index), SizeOfPiece(geometry, buffers[i].index))
                && FlushedTo(PieceSlice(geometry, f0, buffers[i].index), OnCard(buffers[i].index), buffers[i], |buffers[i].data|, false)
      ensures files.Refuses(old(files.ops)) ==> files.flat == old(files.flat) && (ok ==> files.ops == old(files.ops))
    {
      hide BuffersOk, BytesHeld, Files.Valid, FlushedTo, RunsStored, Grown, Present, Shape, PieceSlice, SizeOfPiece, PieceStart, Contiguous, SameOutside, Find, ViewOf, Files.Sound;
      var b := buffers[i];
      ok, runStart, inRun := true, runStart0, inRun0;
      files.NothingAsked(files.ops);
      var present := block < |b.have| && b.have[block];
      if present && !inRun {
        runStart, inRun := block * BLOCK, true;
        RunBegins(b, block);
      } else if present {
        RunContinues(b, runStart, block);
      } else if inRun {
        ok := FlushOneRun(i, runStart, block, f0, c0);
        inRun := false;
      } else {
        SkipBlock(PieceSlice(geometry, f0, b.index), OnCard(b.index), b, geometry.files, files.contents,
                  PieceStart(geometry, b.index), block * BLOCK, block);
      }
    }

    /** Writes the run of blocks from runStart up to (not including) the absent block. */
    method FlushOneRun(i: nat, runStart: nat, block: nat, ghost f0: seq<byte>, ghost c0: seq<seq<byte>>) returns (ok: bool)
      requires FlushState(i, f0, c0, runStart)
      requires block <= |buffers[i].have| == Blocks(|buffers[i].data|) && InRun(buffers[i], runStart, block)
      requires block < |buffers[i].have| ==> !buffers[i].have[block]
      modifies files
      ensures old(files.ops) <= files.ops && (ok <==> files.Sound(old(files.ops), files.ops))
      ensures ok ==> FlushState(i, f0, c0, (block + 1) * BLOCK)
      ensures !ok ==>
                && Valid() && Grown(c0, files.contents)
                && SameOutside(files.flat, f0, PieceStart(geometry, buffers[i].index), SizeOfPiece(geometry, buffers[i].index))
                && FlushedTo(PieceSlice(geometry, f0, buffers[i].index), OnCard(buffers[i].index), buffers[i], |buffers[i].data|, false)
      ensures files.Refuses(old(files.ops)) ==> files.flat == old(files.flat) && (ok ==> files.ops == old(files.ops))
    {
      hide BuffersOk, BytesHeld, Files.Valid, FlushedTo, RunsStored, Grown, Present, Shape, PieceSlice, SizeOfPiece, PieceStart, Contiguous, SameOutside, Find, ViewOf, Files.Sound, InRun, Splice;
      var b := buffers[i];
      BufferAt(geometry, buffers, i);
      RunOfBlocks(b, runStart, block);
      var runEnd := if block * BLOCK < |b.data| then block * BLOCK else |b.data|;
      ghost var s0, s, f1, c1, n := PieceSlice(geometry, f0, b.index), OnCard(b.index), files.flat, files.contents, 0;
      ok, n := WriteThrough(b.index, runStart, b.data[runStart..runEnd]);
      RunInside(geometry, f0, f1, b.index, runStart, b.data[runStart..runEnd], n);
      GrownTwice(c0, c1, files.contents);
      if ok {
        RunWritten(s0, s, b, geometry.files, c1, files.contents, PieceStart(geometry, b.index), runStart, runEnd, block);
      } else {
        FlushFailed(s0, s, b, runStart, runEnd, n, |b.data|);
      }
    }

    /** What the card alone holds of a piece. */
    ghost function OnCard(p: nat): (r: seq<byte>)
      requires Valid() && p < geometry.pieceCount
      reads this, files
    {
      PieceSlice(geometry, files.flat, p)
    }

    /** Every byte of the piece is buffered or lies in the written part of its file. */
    ghost predicate Backed(p: nat)
      requires Valid() && p < geometry.pieceCount
      reads this, files
    {
      BackedBut(p, 0, 0)
    }

    /** The same, but for the len bytes from offset on. */
    ghost predicate BackedBut(p: nat, offset: nat, len: nat)
      requires Valid() && p < geometry.pieceCount
      reads this, files
    {
      BackedIn(geometry.files, files.contents, PieceStart(geometry, p), SizeOfPiece(geometry, p), BufferOf(buffers, p), offset, len)
    }

    /** buffers_.erase */
    method EraseAt(i: nat, piece: nat)
      requires Valid() && piece < geometry.pieceCount && i < |buffers| && buffers[i].index == piece
      modifies this`buffers
      ensures Valid() && Find(buffers, piece) < 0 && View(piece) == OnCard(piece) && OthersKept(old(buffers), buffers, piece)
      ensures forall q :: 0 <= q < geometry.pieceCount && q != piece ==> View(q) == old(View(q))
    {
      hide BuffersOk, ViewOf, BytesHeld, Files.Valid, Shape, PieceSlice, SizeOfPiece, Contiguous, Find, OthersKept;
      EraseBuffer(geometry, buffers, i);
      EraseKeepsOthers(geometry, buffers, i);
      FindAfterErase(geometry, buffers, i, piece);
      buffers := Erase(buffers, i);
    }

    /** Writes a validated piece and frees its buffer, also when the writing fails. */
    method CommitPiece(piece: nat) returns (ok: bool)
      requires Valid() && piece < geometry.pieceCount
      modifies this`buffers, files
      ensures Valid() && Grown(old(files.contents), files.contents)
      ensures old(files.ops) <= files.ops && (ok <==> files.Sound(old(files.ops), files.ops))
      ensures Find(buffers, piece) < 0 && OthersKept(old(buffers), buffers, piece)
      ensures forall q :: 0 <= q < geometry.pieceCount && q != piece ==> View(q) == old(View(q)) && OnCard(q) == old(OnCard(q))
      ensures ok ==> OnCard(piece) == old(View(piece))
      ensures Between(old(OnCard(piece)), OnCard(piece), old(View(piece)))
      ensures files.Refuses(old(files.ops)) ==> files.flat == old(files.flat)
    {
      hide BuffersOk, ViewOf, BytesHeld, Files.Valid, Overlay, RunsStored, Grown, Present, Shape, PieceSlice, SizeOfPiece, PieceStart, Contiguous, Find, FlushedTo, OthersKept, Files.Sound, Between;
      var i := Search(piece);
      NothingBetween(OnCard(piece), View(piece));
      ViewIs(geometry, files.flat, buffers, piece);
      GrownTrivially(files.contents);
      AllKept(buffers, piece);
      files.NothingAsked(files.ops);
      if i < 0 {
        return true;
      }
      BufferIs(geometry, buffers, piece);
      ghost var s0 := OnCard(piece);
      ok := FlushRuns(i);
      FlushKeepsOverlay(s0, OnCard(piece), buffers[i], |buffers[i].data|, ok);
      EraseAt(i, piece);
    }

    /** Drops the buffer of a refused piece. */
    method DiscardPiece(piece: nat)
      requires Valid() && piece < geometry.pieceCount
      modifies this`buffers
      ensures Valid() && Find(buffers, piece) < 0 && View(piece) == OnCard(piece) && OthersKept(old(buffers), buffers, piece)
      ensures forall q :: 0 <= q < geometry.pieceCount && q != piece ==> View(q) == old(View(q))
    {
      hide BuffersOk, ViewOf, BytesHeld, Files.Valid, Overlay, Shape, PieceSlice, SizeOfPiece, Contiguous, Find, OthersKept;
      var i := Search(piece);
      AllKept(buffers, piece);
      ViewIs(geometry, files.flat, buffers, piece);
      if i >= 0 {
        BufferIs(geometry, buffers, piece);
        EraseAt(i, piece);
      }
    }

    /** Hands over the bytes of a piece that is wholly buffered. */
    method TakeCompletePiece(piece: nat) returns (ok: bool, data: seq<byte>)
      requires Valid() && piece < geometry.pieceCount
      modifies this`buffers
      ensures Valid()
      ensures ok <==> WhollyBuffered(old(buffers), piece)
      ensures ok ==> data == old(View(piece)) && Find(buffers, piece) < 0
      ensures forall q :: 0 <= q < geometry.pieceCount && q != piece ==> View(q) == old(View(q))
      ensures (!ok ==> buffers == old(buffers)) && OthersKept(old(buffers), buffers, piece)
    {
      hide BuffersOk, ViewOf, BytesHeld, Files.Valid, Overlay, Shape, PieceSlice, SizeOfPiece, Contiguous, Find, OthersKept;
      AllKept(buffers, piece);
      data := [];
      var i := Search(piece);
      if i < 0 {
        return false, data;
      }
      BufferIs(geometry, buffers, piece);
      ViewIs(geometry, files.flat, buffers, piece);
      CompleteIs(OnCard(piece), buffers[i]);
      assert |OnCard(piece)| == |buffers[i].data|;
      if buffers[i].blocksPresent != |buffers[i].have| {
        return false, data;
      }
      data := buffers[i].data;
      EraseAt(i, piece);
      return true, data;
    }

    predicate HashMatches(piece: nat, data: seq<byte>)
      requires Metainfo.Valid(geometry) && |hashes| == geometry.pieceCount
    {
      piece < geometry.pieceCount && |data| == SizeOfPiece(geometry, piece) && sha1(data) == hashes[piece]
    }

    /** Writes a piece handed back by the writer thread. */
    method WritePiece(piece: nat, data: seq<byte>) returns (ok: bool)
      requires Valid() && piece < geometry.pieceCount && |data| == SizeOfPiece(geometry, piece)
      modifies files
      ensures Valid() && old(files.ops) <= files.ops && (ok <==> files.Sound(old(files.ops), files.ops))
      ensures forall q :: 0 <= q < geometry.pieceCount && q != piece ==> View(q) == old(View(q)) && OnCard(q) == old(OnCard(q))
      ensures ok ==> OnCard(piece) == data
      ensures Between(old(OnCard(piece)), OnCard(piece), data) && Grown(old(files.contents), files.contents)
    {
      hide Files.Sound, Files.Valid, BuffersOk, ViewOf, Find, PieceSlice, Contiguous, Grown;
      ghost var n;
      ok, n := WriteThrough(piece, 0, data);
    }

    /**
     * Compares the piece with its hash, from memory when it is all there, from the card otherwise:
     * the same answer on every path, as long as the card carries out what it is asked.
     */
    method VerifyPiece(piece: nat) returns (r: bool)
      requires Valid()
      modifies this`buffers, files
      ensures Valid() && old(files.ops) <= files.ops && OthersKept(old(buffers), buffers, piece)
      ensures forall q :: 0 <= q < geometry.pieceCount ==> View(q) == old(View(q))
      ensures forall q :: 0 <= q < geometry.pieceCount && q != piece ==> OnCard(q) == old(OnCard(q))
      ensures piece >= geometry.pieceCount ==> !r
      ensures r ==> sha1(View(piece)) == hashes[piece]
      ensures r && !WhollyBuffered(old(buffers), piece) ==> OnCard(piece) == View(piece) && Find(buffers, piece) < 0
      ensures piece < geometry.pieceCount && WhollyBuffered(old(buffers), piece) ==>
                && buffers == old(buffers) && files.flat == old(files.flat) && files.ops == old(files.ops)
                && (r <==> sha1(View(piece)) == hashes[piece])
      ensures piece < geometry.pieceCount && files.Sound(old(files.ops), files.ops) && old(Backed(piece)) ==>
                (r <==> sha1(View(piece)) == hashes[piece])
    {
      hide BuffersOk, ViewOf, BytesHeld, Files.Valid, Overlay, RunsStored, Grown, Present, Shape, PieceSlice, SizeOfPiece, PieceStart, Contiguous, Find, Backed, BackedIn, OthersKept, Files.Sound;
      AllKept(buffers, piece);
      if piece >= geometry.pieceCount {
        return false;
      }
      var i := BufferFor(piece, false);
      ViewIs(geometry, files.flat, buffers, piece);
      NotBuffered(buffers, piece);
      if i >= 0 {
        BufferIs(geometry, buffers, piece);
        CompleteIs(OnCard(piece), buffers[i]);
        if buffers[i].blocksPresent == |buffers[i].have| {
          return sha1(buffers[i].data) == hashes[piece];
        }
        r := FlushForReading(i, piece);
        files.SoundJoins(old(files.ops), files.ops, files.ops);
        if !r {
          return;
        }
      } else {
        OnlyOnCard(piece);
      }
      ghost var between := files.ops;
      r := VerifyOnCard(piece);
      files.SoundJoins(old(files.ops), between, files.ops);
    }

    /** The partly buffered case: after the flush the card holds everything the store had. */
    method FlushForReading(i: nat, piece: nat) returns (ok: bool)
      requires Valid() && piece < geometry.pieceCount && i == Find(buffers, piece) && i < |buffers|
      modifies this`buffers, files
      ensures Valid() && OthersKept(old(buffers), buffers, piece)
      ensures old(files.ops) <= files.ops && (ok <==> files.Sound(old(files.ops), files.ops))
      ensures forall q :: 0 <= q < geometry.pieceCount ==> View(q) == old(View(q))
      ensures forall q :: 0 <= q < geometry.pieceCount && q != piece ==> OnCard(q) == old(OnCard(q))
      ensures ok ==> Find(buffers, piece) < 0 && OnCard(piece) == View(piece)
      ensures ok && old(Backed(piece)) ==> Reserved(geometry.files, files.contents, PieceStart(geometry, piece), SizeOfPiece(geometry, piece))
    {
      hide BuffersOk, ViewOf, BytesHeld, Files.Valid, Overlay, RunsStored, Grown, Present, Shape, PieceSlice, SizeOfPiece, PieceStart, Contiguous, Find, FlushedTo, Reserved, BackedIn, OthersKept, Files.Sound;
      ghost var b, s0, c0 := buffers[i], OnCard(piece), files.contents;
      AllKept(buffers, piece);
      BufferIs(geometry, buffers, piece);
      ViewIs(geometry, files.flat, buffers, piece);
      ok := FlushRuns(i);
      FlushKeepsOverlay(s0, OnCard(piece), b, |b.data|, ok);
      ViewIs(geometry, files.flat, buffers, piece);
      if ok {
        if old(Backed(piece)) {
          FlushedIsReserved(geometry.files, c0, files.contents, PieceStart(geometry, piece), b);
        }
        DiscardPiece(piece);
      }
    }

    lemma OnlyOnCard(piece: nat)
      requires Valid() && piece < geometry.pieceCount && Find(buffers, piece) < 0
      ensures View(piece) == OnCard(piece)
      ensures Backed(piece) ==> Reserved(geometry.files, files.contents, PieceStart(geometry, piece), SizeOfPiece(geometry, piece))
    {
      hide BuffersOk, Files.Valid, PieceSlice, SizeOfPiece, PieceStart, Contiguous, Reserved;
      ViewIs(geometry, files.flat, buffers, piece);
      if Backed(piece) {
        forall k | PieceStart(geometry, piece) <= k < PieceStart(geometry, piece) + SizeOfPiece(geometry, piece)
          ensures Reserved(geometry.files, files.contents, k, 1)
        {
          assert BackedAt(geometry.files, files.contents, PieceStart(geometry, piece), BufferOf(buffers, piece), k - PieceStart(geometry, piece));
        }
        ReservedWhole(geometry.files, files.contents, PieceStart(geometry, piece), SizeOfPiece(geometry, piece));
      }
    }

    /** One buffer of close: what the store presents stays; after success the card alone holds it. */
    method CloseOne(i: nat) returns (ok: bool)
      requires Valid() && i < |buffers|
      modifies files
      ensures Valid() && old(files.ops) <= files.ops && (ok <==> files.Sound(old(files.ops), files.ops))
      ensures forall q :: 0 <= q < geometry.pieceCount ==> View(q) == old(View(q))
      ensures forall q :: 0 <= q < geometry.pieceCount && q != buffers[i].index ==> OnCard(q) == old(OnCard(q))
      ensures forall q :: 0 <= q < geometry.pieceCount ==> Between(old(OnCard(q)), OnCard(q), old(View(q)))
      ensures ok && buffers[i].index < geometry.pieceCount ==> OnCard(buffers[i].index) == View(buffers[i].index)
    {
      hide BuffersOk, ViewOf, BytesHeld, Files.Valid, Overlay, RunsStored, Grown, Present, Shape, PieceSlice, SizeOfPiece, PieceStart, Contiguous, Find, FlushedTo, Files.Sound;
      ghost var p, b := buffers[i].index, buffers[i];
      BufferAt(geometry, buffers, i);
      FindUnique(geometry, buffers, i);
      ghost var s0 := OnCard(p);
      ViewIs(geometry, files.flat, buffers, p);
      ok := FlushRuns(i);
      FlushKeepsOverlay(s0, OnCard(p), b, |b.data|, ok);
      ViewIs(geometry, files.flat, buffers, p);
    }

    /**
     * The flushing of close. On a card that works, the card ends up holding what the store
     * presented; on any card, each byte is what was there or what the store presented.
     */
    method Close()
      requires Valid()
      modifies this`buffers, files
      ensures Valid() && buffers == [] && old(files.ops) <= files.ops
      ensures files.Sound(old(files.ops), files.ops) ==> forall q :: 0 <= q < geometry.pieceCount ==> OnCard(q) == old(View(q))
      ensures forall q :: 0 <= q < geometry.pieceCount ==> Between(old(OnCard(q)), OnCard(q), old(View(q)))
    {
      hide BuffersOk, ViewOf, BytesHeld, Files.Valid, PieceSlice, SizeOfPiece, Contiguous, Find, Files.Sound, Between;
      ghost var o0 := files.ops;
      AsItWas();
      for i := 0 to |buffers|
        invariant Valid() && buffers == old(buffers) && o0 <= files.ops
        invariant forall q :: 0 <= q < geometry.pieceCount ==> View(q) == old(View(q))
        invariant forall q :: 0 <= q < geometry.pieceCount ==> Between(old(OnCard(q)), OnCard(q), old(View(q)))
        invariant files.Sound(o0, files.ops) ==> Written(i)
      {
        BufferAt(geometry, buffers, i);
        if |buffers[i].data| > 0 {
          label Step:
          CloseNext(i, o0);
          forall q | 0 <= q < geometry.pieceCount
            ensures Between(old(OnCard(q)), OnCard(q), old(View(q)))
          {
            BetweenTwice(old(OnCard(q)), old@Step(OnCard(q)), OnCard(q), old(View(q)));
          }
        }
      }
      AllOnCard(o0);
      NoBuffers(geometry);
      buffers := [];
    }

    /** The buffers before i are on the card. */
    ghost predicate Written(i: nat)
      requires Valid()
      reads this, files
    {
      forall j :: 0 <= j < i && j < |buffers| && buffers[j].index < geometry.pieceCount ==> OnCard(buffers[j].index) == View(buffers[j].index)
    }

    method CloseNext(i: nat, ghost o0: nat)
      requires Valid() && i < |buffers| && o0 <= files.ops && (files.Sound(o0, files.ops) ==> Written(i))
      modifies files
      ensures Valid() && old(files.ops) <= files.ops && (files.Sound(o0, files.ops) ==> Written(i + 1))
      ensures forall q :: 0 <= q < geometry.pieceCount ==> View(q) == old(View(q)) && Between(old(OnCard(q)), OnCard(q), old(View(q)))
    {
      hide BuffersOk, ViewOf, BytesHeld, Files.Valid, PieceSlice, SizeOfPiece, Contiguous, Find, Files.Sound, Between;
      var ok := CloseOne(i);
      files.SoundJoins(o0, old(files.ops), files.ops);
      forall j | 0 <= j < i + 1 && buffers[j].index < geometry.pieceCount && files.Sound(o0, files.ops)
        ensures OnCard(buffers[j].index) == View(buffers[j].index)
      {
      }
    }

    lemma AsItWas()
      requires Valid()
      ensures forall q :: 0 <= q < geometry.pieceCount ==> Between(OnCard(q), OnCard(q), View(q))
    {
      hide BuffersOk, ViewOf, Files.Valid, PieceSlice, Contiguous, SizeOfPiece;
    }

    lemma AllOnCard(o0: nat)
      requires Valid() && (files.Sound(o0, files.ops) ==> Written(|buffers|))
      ensures files.Sound(o0, files.ops) ==> forall q :: 0 <= q < geometry.pieceCount ==> OnCard(q) == View(q)
    {
      hide BuffersOk, Files.Valid, PieceSlice, SizeOfPiece, Contiguous, Find, ViewOf, Files.Sound;
      forall q | 0 <= q < geometry.pieceCount && files.Sound(o0, files.ops)
        ensures OnCard(q) == View(q)
      {
        ViewIs(geometry, files.flat, buffers, q);
        FindIs(buffers, q);
      }
    }

    /** Reads the piece back in chunks and hashes it. */
    method VerifyOnCard(piece: nat) returns (r: bool)
      requires Valid() && piece < geometry.pieceCount
      modifies files`slots, files`openHandles, files`clock, files`ops
      ensures Valid() && old(files.ops) <= files.ops
      ensures forall q :: 0 <= q < geometry.pieceCount ==> View(q) == old(View(q)) && OnCard(q) == old(OnCard(q))
      ensures r ==> sha1(OnCard(piece)) == hashes[piece]
      ensures files.Sound(old(files.ops), files.ops) && Reserved(geometry.files, files.contents, PieceStart(geometry, piece), SizeOfPiece(geometry, piece)) ==>
                (r <==> sha1(OnCard(piece)) == hashes[piece])
    {
      hide BuffersOk, Files.Valid, PieceSlice, SizeOfPiece, PieceStart, Contiguous, Reserved, Find, Files.Sound;
      var size := SizeOfPiece(geometry, piece);
      var hashed: seq<byte> := [];
      PieceInside(geometry, piece);
      while |hashed| < size
        invariant Valid() && |hashed| <= size && hashed == OnCard(piece)[..|hashed|] && old(files.ops) <= files.ops
      {
        var take := if size - |hashed| < HASH_CHUNK then size - |hashed| else HASH_CHUNK;
        var chunk;
        ghost var between := files.ops;
        r, chunk := files.Read(piece * geometry.pieceLength + |hashed|, take);
        files.SoundJoins(old(files.ops), between, files.ops);
        if !r {
          Unreadable(geometry.files, files.contents, PieceStart(geometry, piece), size, |hashed|, take);
          return;
        }
        SliceChunk(geometry, files.flat, piece, |hashed|, take);
        hashed := hashed + chunk;
      }
      assert OnCard(piece)[..size] == OnCard(piece);
      return sha1(hashed) == hashes[piece];
    }
  }

  lemma NothingHeld(bufs: seq<PieceBuffer>)
    requires |bufs| == 0
    ensures BytesHeld(bufs) == 0
  {
  }

  lemma BytesHeldSnoc(bufs: seq<PieceBuffer>, j: nat)
    requires j < |bufs|
    ensures BytesHeld(bufs[..j + 1]) == BytesHeld(bufs[..j]) + |bufs[j].data|
  {
    assert bufs[..j + 1][..j] == bufs[..j];
  }

  lemma {:induction false} AddFresh(g: Geometry, bufs: seq<PieceBuffer>, piece: nat)
    requires Metainfo.Valid(g) && BuffersOk(g, bufs) && piece < g.pieceCount && Find(bufs, piece) < 0
    requires BytesHeld(bufs) + SizeOfPiece(g, piece) <= BUFFER_BUDGET
    ensures var more := bufs + [FreshBuffer(piece, SizeOfPiece(g, piece))];
            BuffersOk(g, more) && Find(more, piece) == |bufs|
  {
    var size := SizeOfPiece(g, piece);
    var added := FreshBuffer(piece, size);
    var more := bufs + [added];
    FreshIsTransparent(piece, size, seq(size, _ => 0));
    FindIs(bufs, piece);
    assert more[..|more| - 1] == bufs;
    forall i | 0 <= i < |bufs|
      ensures bufs[i].index != piece
    {
      assert Shape(bufs[i], SizeOfPiece(g, bufs[i].index));
    }
    FindIs(more, piece);
  }

  // --- how the views change -----------------------------------------------------------

  lemma PiecesDisjoint(g: Geometry, p: nat, q: nat)
    requires Metainfo.Valid(g) && p < q < g.pieceCount
    ensures PieceStart(g, p) + SizeOfPiece(g, p) <= PieceStart(g, q)
  {
    Arith.MulMono(g.pieceLength, p + 1, q);
    assert (p + 1) * g.pieceLength == PieceStart(g, p) + g.pieceLength;
  }

  lemma OtherPieceUntouched(g: Geometry, f0: seq<byte>, f1: seq<byte>, p: nat, q: nat)
    requires Metainfo.Valid(g) && p < g.pieceCount && q < g.pieceCount && p != q && |f0| == g.totalSize
    requires SameOutside(f1, f0, PieceStart(g, p), SizeOfPiece(g, p))
    ensures PieceSlice(g, f1, q) == PieceSlice(g, f0, q)
  {
    if p < q {
      PiecesDisjoint(g, p, q);
    } else {
      PiecesDisjoint(g, q, p);
    }
  }

  lemma {:induction false} FindUnique(g: Geometry, bufs: seq<PieceBuffer>, i: nat)
    requires Metainfo.Valid(g) && BuffersOk(g, bufs) && i < |bufs|
    ensures Find(bufs, bufs[i].index) == i
  {
    FindIs(bufs, bufs[i].index);
    assert Shape(bufs[i], SizeOfPiece(g, bufs[i].index));
  }

  lemma {:induction false} BytesHeldUpdate(bufs: seq<PieceBuffer>, i: nat, b: PieceBuffer)
    requires i < |bufs|
    ensures BytesHeld(bufs[i := b]) == BytesHeld(bufs) - |bufs[i].data| + |b.data|
  {
    var n := |bufs| - 1;
    if i == n {
      assert bufs[i := b][..n] == bufs[..n];
    } else {
      assert bufs[i := b][..n] == bufs[..n][i := b];
      BytesHeldUpdate(bufs[..n], i, b);
    }
  }

  function Erase(bufs: seq<PieceBuffer>, i: nat): seq<PieceBuffer>
    requires i < |bufs|
  {
    bufs[..i] + bufs[i + 1..]
  }

  lemma {:induction false} BytesHeldErase(bufs: seq<PieceBuffer>, i: nat)
    requires i < |bufs|
    ensures BytesHeld(Erase(bufs, i)) == BytesHeld(bufs) - |bufs[i].data|
  {
    var n := |bufs| - 1;
    if i == n {
      assert Erase(bufs, i) == bufs[..n];
    } else {
      assert Erase(bufs, i)[..n - 1] == Erase(bufs[..n], i);
      BytesHeldErase(bufs[..n], i);
    }
  }

  lemma {:induction false} UpdateBuffer(g: Geometry, bufs: seq<PieceBuffer>, i: nat, b: PieceBuffer)
    requires Metainfo.Valid(g) && BuffersOk(g, bufs) && i < |bufs|
    requires b.index == bufs[i].index && Shape(b, SizeOfPiece(g, b.index))
    ensures BuffersOk(g, bufs[i := b])
    ensures forall flat: seq<byte>, q :: |flat| == g.totalSize && 0 <= q < g.pieceCount && q != b.index ==>
              ViewOf(g, flat, bufs[i := b], q) == ViewOf(g, flat, bufs, q)
    ensures forall flat: seq<byte> :: |flat| == g.totalSize ==>
              ViewOf(g, flat, bufs[i := b], b.index) == Overlay(PieceSlice(g, flat, b.index), b)
  {
    var more := bufs[i := b];
    assert Shape(bufs[i], SizeOfPiece(g, b.index));
    BytesHeldUpdate(bufs, i, b);
    forall q | 0 <= q < g.pieceCount
      ensures Find(more, q) == Find(bufs, q)
      ensures Find(bufs, q) == i <==> q == b.index
    {
      FindAfterUpdate(g, bufs, i, b, q);
    }
  }

  lemma {:induction false} FindAfterUpdate(g: Geometry, bufs: seq<PieceBuffer>, i: nat, b: PieceBuffer, q: nat)
    requires Metainfo.Valid(g) && BuffersOk(g, bufs) && i < |bufs|
    requires b.index == bufs[i].index && |b.data| == |bufs[i].data|
    ensures Find(bufs[i := b], q) == Find(bufs, q)
    ensures Find(bufs, q) == i <==> q == b.index
  {
    FindFromSame(bufs, bufs[i := b], q, 0);
    FindUnique(g, bufs, i);
    FindIs(bufs, q);
  }

  lemma {:induction false} FindFromSame(bufs: seq<PieceBuffer>, more: seq<PieceBuffer>, piece: nat, i: nat)
    requires |bufs| == |more| && i <= |bufs|
    requires forall j :: 0 <= j < |bufs| ==> bufs[j].index == more[j].index && |bufs[j].data| == |more[j].data|
    ensures FindFrom(bufs, piece, i) == FindFrom(more, piece, i)
    decreases |bufs| - i
  {
    if i < |bufs| {
      FindFromSame(bufs, more, piece, i + 1);
    }
  }

  lemma {:induction false} EraseBuffer(g: Geometry, bufs: seq<PieceBuffer>, i: nat)
    requires Metainfo.Valid(g) && BuffersOk(g, bufs) && i < |bufs|
    ensures BuffersOk(g, Erase(bufs, i))
    ensures forall flat: seq<byte>, q :: |flat| == g.totalSize && 0 <= q < g.pieceCount && q != bufs[i].index ==>
              ViewOf(g, flat, Erase(bufs, i), q) == ViewOf(g, flat, bufs, q)
    ensures forall flat: seq<byte> :: |flat| == g.totalSize ==>
              ViewOf(g, flat, Erase(bufs, i), bufs[i].index) == PieceSlice(g, flat, bufs[i].index)
  {
    EraseKeepsOk(g, bufs, i);
    forall q | 0 <= q < g.pieceCount
      ensures q == bufs[i].index ==> Find(Erase(bufs, i), q) < 0
      ensures q != bufs[i].index ==>
                (Find(bufs, q) < 0 <==> Find(Erase(bufs, i), q) < 0)
                && (Find(bufs, q) >= 0 ==> Erase(bufs, i)[Find(Erase(bufs, i), q)] == bufs[Find(bufs, q)])
    {
      FindAfterErase(g, bufs, i, q);
    }
  }

  lemma {:induction false} EraseKeepsOk(g: Geometry, bufs: seq<PieceBuffer>, i: nat)
    requires Metainfo.Valid(g) && BuffersOk(g, bufs) && i < |bufs|
    ensures BuffersOk(g, Erase(bufs, i))
  {
    hide Shape, BytesHeld;
    BytesHeldErase(bufs, i);
    var less := Erase(bufs, i);
    assert forall j :: 0 <= j < |less| ==> less[j] == bufs[if j < i then j else j + 1];
  }

  lemma {:induction false} FindAfterErase(g: Geometry, bufs: seq<PieceBuffer>, i: nat, q: nat)
    requires Metainfo.Valid(g) && BuffersOk(g, bufs) && i < |bufs| && BuffersOk(g, Erase(bufs, i))
    ensures q == bufs[i].index ==> Find(Erase(bufs, i), q) < 0
    ensures q != bufs[i].index ==>
              (Find(bufs, q) < 0 <==> Find(Erase(bufs, i), q) < 0)
              && (Find(bufs, q) >= 0 ==> Erase(bufs, i)[Find(Erase(bufs, i), q)] == bufs[Find(bufs, q)])
  {
    var less := Erase(bufs, i);
    FindIs(bufs, q);
    FindIs(less, q);
    var k := Find(bufs, q);
    if k >= 0 && k != i {
      var j := if k < i then k else k - 1;
      assert less[j] == bufs[k];
      FindUnique(g, less, j);
    }
    var m := Find(less, q);
    if m >= 0 {
      var n := if m < i then m else m + 1;
      assert less[m] == bufs[n];
      FindUnique(g, bufs, n);
    }
  }

  lemma {:induction false} FreshBufferView(g: Geometry, bufs: seq<PieceBuffer>, piece: nat)
    requires Metainfo.Valid(g) && BuffersOk(g, bufs) && piece < g.pieceCount && Find(bufs, piece) < 0
    requires BytesHeld(bufs) + SizeOfPiece(g, piece) <= BUFFER_BUDGET
    ensures var more := bufs + [FreshBuffer(piece, SizeOfPiece(g, piece))];
            && BuffersOk(g, more)
            && forall flat: seq<byte>, q :: |flat| == g.totalSize && 0 <= q < g.pieceCount ==>
                 ViewOf(g, flat, more, q) == ViewOf(g, flat, bufs, q)
  {
    var more := bufs + [FreshBuffer(piece, SizeOfPiece(g, piece))];
    AddFresh(g, bufs, piece);
    EraseBuffer(g, more, |bufs|);
    assert Erase(more, |bufs|) == bufs;
    forall flat: seq<byte> | |flat| == g.totalSize
      ensures ViewOf(g, flat, more, piece) == PieceSlice(g, flat, piece)
    {
      FreshIsTransparent(piece, SizeOfPiece(g, piece), PieceSlice(g, flat, piece));
    }
  }

  lemma AllKept(bufs: seq<PieceBuffer>, piece: nat)
    ensures OthersKept(bufs, bufs, piece)
  {
  }

  lemma KeptTwice(a: seq<PieceBuffer>, b: seq<PieceBuffer>, c: seq<PieceBuffer>, piece: nat)
    requires OthersKept(a, b, piece) && OthersKept(b, c, piece)
    ensures OthersKept(a, c, piece)
  {
    hide BufferOf;
  }

  lemma {:induction false} UpdateKeepsOthers(g: Geometry, bufs: seq<PieceBuffer>, i: nat, b: PieceBuffer)
    requires Metainfo.Valid(g) && BuffersOk(g, bufs) && i < |bufs|
    requires b.index == bufs[i].index && |b.data| == |bufs[i].data|
    ensures BufferOf(bufs[i := b], b.index) == Some(b) && OthersKept(bufs, bufs[i := b], b.index)
  {
    hide BuffersOk, Find;
    FindUnique(g, bufs, i);
    FindAfterUpdate(g, bufs, i, b, b.index);
    forall q: nat | q != b.index
      ensures BufferOf(bufs[i := b], q) == BufferOf(bufs, q)
    {
      FindAfterUpdate(g, bufs, i, b, q);
    }
  }

  lemma {:induction false} EraseKeepsOthers(g: Geometry, bufs: seq<PieceBuffer>, i: nat)
    requires Metainfo.Valid(g) && BuffersOk(g, bufs) && i < |bufs|
    ensures OthersKept(bufs, Erase(bufs, i), bufs[i].index)
  {
    hide BuffersOk, Find;
    EraseKeepsOk(g, bufs, i);
    forall q: nat | q != bufs[i].index
      ensures BufferOf(Erase(bufs, i), q) == BufferOf(bufs, q)
    {
      FindAfterErase(g, bufs, i, q);
    }
  }

  lemma {:induction false} FreshKeepsOthers(g: Geometry, bufs: seq<PieceBuffer>, piece: nat)
    requires Metainfo.Valid(g) && BuffersOk(g, bufs) && piece < g.pieceCount && Find(bufs, piece) < 0
    requires BytesHeld(bufs) + SizeOfPiece(g, piece) <= BUFFER_BUDGET
    ensures OthersKept(bufs, bufs + [FreshBuffer(piece, SizeOfPiece(g, piece))], piece)
  {
    hide BuffersOk, Find, BytesHeld, SizeOfPiece;
    var more := bufs + [FreshBuffer(piece, SizeOfPiece(g, piece))];
    AddFresh(g, bufs, piece);
    assert Erase(more, |bufs|) == bufs;
    forall q: nat | q != piece
      ensures BufferOf(more, q) == BufferOf(bufs, q)
    {
      FindAfterErase(g, more, |bufs|, q);
    }
  }

  /** A change inside part of a piece, seen from the whole stream and from the piece. */
  lemma SliceOutside(g: Geometry, f0: seq<byte>, f1: seq<byte>, p: nat, offset: nat, len: nat)
    requires Metainfo.Valid(g) && p < g.pieceCount && |f0| == g.totalSize && offset + len <= SizeOfPiece(g, p)
    requires SameOutside(f1, f0, PieceStart(g, p) + offset, len)
    ensures SameOutside(f1, f0, PieceStart(g, p), SizeOfPiece(g, p))
    ensures SameOutside(PieceSlice(g, f1, p), PieceSlice(g, f0, p), offset, len)
  {
  }

  lemma SpliceNothing(s: seq<byte>, at: nat, d: seq<byte>)
    requires |d| == 0 && at <= |s|
    ensures Splice(s, at, d) == s
  {
  }

  lemma TakesNothing(s: seq<byte>, at: nat, d: seq<byte>)
    requires at <= |s|
    ensures Splice(s, at, d[..0]) == s
  {
  }

  /** after is before with d at the offset. */
  ghost predicate Spliced(before: seq<byte>, after: seq<byte>, offset: nat, d: seq<byte>)
  {
    offset + |d| <= |before| && after == Splice(before, offset, d)
  }

  ghost predicate ShapedSplice(size: nat, before: seq<byte>, after: seq<byte>, offset: nat, d: seq<byte>)
  {
    BlockShaped(offset, |d|, size) ==> Spliced(before, after, offset, d)
  }

  function Pieces(g: Geometry, flat: seq<byte>): (r: seq<seq<byte>>)
    requires Metainfo.Valid(g) && |flat| == g.totalSize
    ensures |r| == g.pieceCount && forall p :: 0 <= p < |r| ==> r[p] == PieceSlice(g, flat, p)
  {
    seq(g.pieceCount, p requires 0 <= p < g.pieceCount => PieceSlice(g, flat, p))
  }

  /** The pieces one behind the other are the stream. */
  lemma PiecesJoin(g: Geometry, flat: seq<byte>)
    requires Metainfo.Valid(g) && |flat| == g.totalSize
    ensures Joined(Pieces(g, flat)) == flat
  {
    var pieces := Pieces(g, flat);
    FirstPiecesJoin(g, flat, g.pieceCount);
    assert pieces[..g.pieceCount] == pieces && flat[..g.totalSize] == flat;
  }

  lemma {:induction false} FirstPiecesJoin(g: Geometry, flat: seq<byte>, n: nat)
    requires Metainfo.Valid(g) && |flat| == g.totalSize && n <= g.pieceCount
    ensures EndOf(g, n) <= |flat| && Joined(Pieces(g, flat)[..n]) == flat[..EndOf(g, n)]
  {
    hide Contiguous, EndOf;
    var pieces := Pieces(g, flat);
    PieceCountPositive(g);
    PiecesTile(g, 0);
    JoinedPrefix(pieces, n);
    if n > 0 {
      FirstPiecesJoin(g, flat, n - 1);
      PiecesTile(g, n - 1);
      assert flat[..EndOf(g, n - 1)] + flat[EndOf(g, n - 1)..EndOf(g, n)] == flat[..EndOf(g, n)];
    }
  }

  lemma NoBuffers(g: Geometry)
    requires Metainfo.Valid(g)
    ensures BuffersOk(g, [])
  {
  }

  lemma {:induction false} BufferIs(g: Geometry, bufs: seq<PieceBuffer>, p: nat)
    requires Metainfo.Valid(g) && BuffersOk(g, bufs) && p < g.pieceCount && Find(bufs, p) >= 0
    ensures bufs[Find(bufs, p)].index == p && Shape(bufs[Find(bufs, p)], SizeOfPiece(g, p))
  {
    FindIs(bufs, p);
  }

  lemma {:induction false} ViewIs(g: Geometry, flat: seq<byte>, bufs: seq<PieceBuffer>, p: nat)
    requires Metainfo.Valid(g) && BuffersOk(g, bufs) && p < g.pieceCount && |flat| == g.totalSize
    ensures Find(bufs, p) < 0 ==> ViewOf(g, flat, bufs, p) == PieceSlice(g, flat, p)
    ensures Find(bufs, p) >= 0 ==> |bufs[Find(bufs, p)].data| == SizeOfPiece(g, p)
    ensures Find(bufs, p) >= 0 ==> ViewOf(g, flat, bufs, p) == Overlay(PieceSlice(g, flat, p), bufs[Find(bufs, p)])
  {
    FindIs(bufs, p);
  }

  method MarkBlocks(have0: seq<bool>, present0: nat, first: nat, last: nat) returns (have: seq<bool>, present: nat)
    requires first <= last < |have0| && present0 == CountTrue(have0)
    ensures have == MarkFrom(have0, first, last) && present == CountTrue(have)
  {
    have, present := have0, present0;
    for b := first to last + 1
      invariant |have| == |have0| && present == CountTrue(have)
      invariant forall i :: 0 <= i < |have| ==> have[i] == (have0[i] || first <= i < b)
    {
      if !have[b] {
        CountTrueUpdate(have, b);
        have, present := have[b := true], present + 1;
      }
    }
  }

  /** s is s0 with some present bytes written: with `exact`, those below `upto`. */
  ghost predicate FlushedTo(s0: seq<byte>, s: seq<byte>, b: PieceBuffer, upto: nat, exact: bool)
  {
    && |s| == |s0| == |b.data|
    && (forall k :: 0 <= k < |s| ==> s[k] == s0[k] || (Present(b, k) && s[k] == b.data[k]))
    && (exact ==> forall k :: 0 <= k < |s| && Present(b, k) ==> s[k] == if k < upto then b.data[k] else s0[k])
  }

  lemma FlushRun(s0: seq<byte>, s: seq<byte>, b: PieceBuffer, lo: nat, hi: nat)
    requires FlushedTo(s0, s, b, lo, true) && lo <= hi <= |s|
    requires forall k :: lo <= k < hi ==> Present(b, k)
    ensures FlushedTo(s0, Splice(s, lo, b.data[lo..hi]), b, hi, true)
  {
  }

  lemma FlushFailed(s0: seq<byte>, s: seq<byte>, b: PieceBuffer, lo: nat, hi: nat, n: nat, upto: nat)
    requires FlushedTo(s0, s, b, lo, true) && lo <= hi <= |s| && n <= hi - lo
    requires forall k :: lo <= k < hi ==> Present(b, k)
    ensures FlushedTo(s0, Splice(s, lo, b.data[lo..hi][..n]), b, upto, false)
  {
  }

  /** Writing part of a piece changes nothing outside it. */
  lemma RunInside(g: Geometry, f0: seq<byte>, f1: seq<byte>, p: nat, offset: nat, d: seq<byte>, n: nat)
    requires Metainfo.Valid(g) && p < g.pieceCount && |f0| == g.totalSize && offset + |d| <= SizeOfPiece(g, p) && n <= |d|
    requires SameOutside(f1, f0, PieceStart(g, p), SizeOfPiece(g, p))
    ensures PieceStart(g, p) + offset + |d| <= |f1|
    ensures SameOutside(Splice(f1, PieceStart(g, p) + offset, d[..n]), f0, PieceStart(g, p), SizeOfPiece(g, p))
  {
    PieceInside(g, p);
    var t := Splice(f1, PieceStart(g, p) + offset, d[..n]);
    PrefixOutside(f1, PieceStart(g, p) + offset, d, n);
    hide Splice;
    SliceOutside(g, f1, t, p, offset, |d|);
    SameOutsideTwice(f0, f1, t, PieceStart(g, p), SizeOfPiece(g, p));
  }

  /** A run written, and the absent block after it skipped. */
  lemma RunWritten(s0: seq<byte>, s: seq<byte>, b: PieceBuffer, files: seq<FileEntry>, before: seq<seq<byte>>, after: seq<seq<byte>>,
                   start: nat, lo: nat, hi: nat, block: nat)
    requires FlushedTo(s0, s, b, lo, true) && RunsStored(files, before, start, b, lo) && Grown(before, after)
    requires lo <= hi <= |s| && (forall k :: lo <= k < hi ==> Present(b, k)) && Reserved(files, after, start + lo, hi - lo)
    requires hi == block * BLOCK || (hi == |b.data| <= block * BLOCK)
    requires block < |b.have| ==> !b.have[block]
    ensures var t := Splice(s, lo, b.data[lo..hi][..hi - lo]);
            FlushedTo(s0, t, b, (block + 1) * BLOCK, true) && RunsStored(files, after, start, b, (block + 1) * BLOCK)
  {
    assert |s| == |b.data|;
    assert b.data[lo..hi][..hi - lo] == b.data[lo..hi];
    FlushRun(s0, s, b, lo, hi);
    StoreRun(files, before, after, start, b, lo, hi);
    hide FlushedTo, RunsStored, Splice, Reserved, Present;
    SkipBlock(s0, Splice(s, lo, b.data[lo..hi]), b, files, after, start, hi, block);
  }

  /** A run of present blocks that began at runStart and reaches `block`. */
  ghost predicate InRun(b: PieceBuffer, runStart: nat, block: nat)
  {
    && block <= |b.have| && runStart % BLOCK == 0 && runStart < block * BLOCK
    && forall j :: runStart / BLOCK <= j < block ==> b.have[j]
  }

  lemma RunBegins(b: PieceBuffer, block: nat)
    requires block < |b.have| && b.have[block]
    ensures InRun(b, block * BLOCK, block + 1)
  {
  }

  lemma RunContinues(b: PieceBuffer, runStart: nat, block: nat)
    requires InRun(b, runStart, block) && block < |b.have| && b.have[block]
    ensures InRun(b, runStart, block + 1)
  {
  }

  lemma SameOutsideTwice(a: seq<byte>, b: seq<byte>, c: seq<byte>, abs: nat, len: nat)
    requires SameOutside(b, a, abs, len) && SameOutside(c, b, abs, len)
    ensures SameOutside(c, a, abs, len)
  {
  }

  lemma GrownTwice(a: seq<seq<byte>>, b: seq<seq<byte>>, c: seq<seq<byte>>)
    requires Grown(a, b) && Grown(b, c)
    ensures Grown(a, c)
  {
  }

  ghost predicate RunsStored(files: seq<FileEntry>, contents: seq<seq<byte>>, start: nat, b: PieceBuffer, upto: nat)
  {
    |files| == |contents| && forall k :: 0 <= k < upto && k < |b.data| && Present(b, k) ==> Reserved(files, contents, start + k, 1)
  }

  lemma ReservedPart(files: seq<FileEntry>, contents: seq<seq<byte>>, abs: nat, len: nat, k: nat)
    requires |files| == |contents| && Reserved(files, contents, abs, len) && abs <= k < abs + len
    ensures Reserved(files, contents, k, 1)
  {
    forall i | 0 <= i < |files|
      ensures ReservedIn(files[i], |contents[i]|, k, 1)
    {
      assert ReservedIn(files[i], |contents[i]|, abs, len);
    }
  }

  lemma ReservedGrows(files: seq<FileEntry>, before: seq<seq<byte>>, after: seq<seq<byte>>, abs: nat, len: nat)
    requires |files| == |before| && Grown(before, after) && Reserved(files, before, abs, len)
    ensures Reserved(files, after, abs, len)
  {
    forall i | 0 <= i < |files|
      ensures ReservedIn(files[i], |after[i]|, abs, len)
    {
      assert ReservedIn(files[i], |before[i]|, abs, len);
    }
  }

  lemma StoreRun(files: seq<FileEntry>, before: seq<seq<byte>>, after: seq<seq<byte>>, start: nat, b: PieceBuffer, lo: nat, hi: nat)
    requires RunsStored(files, before, start, b, lo) && Grown(before, after) && lo <= hi
    requires Reserved(files, after, start + lo, hi - lo)
    ensures RunsStored(files, after, start, b, hi)
  {
    forall k | 0 <= k < hi && k < |b.data| && Present(b, k)
      ensures Reserved(files, after, start + k, 1)
    {
      if k < lo {
        ReservedGrows(files, before, after, start + k, 1);
      } else {
        ReservedPart(files, after, start + lo, hi - lo, start + k);
      }
    }
  }

  lemma FlushBegins(s0: seq<byte>, b: PieceBuffer, files: seq<FileEntry>, contents: seq<seq<byte>>, start: nat)
    requires |s0| == |b.data| && |files| == |contents|
    ensures FlushedTo(s0, s0, b, 0, true) && RunsStored(files, contents, start, b, 0) && Grown(contents, contents)
  {
  }

  lemma FlushEnds(s0: seq<byte>, s: seq<byte>, b: PieceBuffer, files: seq<FileEntry>, contents: seq<seq<byte>>, start: nat)
    requires FlushedTo(s0, s, b, (|b.have| + 1) * BLOCK, true) && RunsStored(files, contents, start, b, (|b.have| + 1) * BLOCK)
    requires |b.have| == Blocks(|b.data|)
    ensures FlushedTo(s0, s, b, |b.data|, true) && RunsStored(files, contents, start, b, |b.data|)
  {
    assert (|b.have| + 1) * BLOCK >= |b.data|;
  }

  /** Bytes lo.. up to the end of an absent block need no writing. */
  lemma SkipBlock(s0: seq<byte>, s: seq<byte>, b: PieceBuffer, files: seq<FileEntry>, contents: seq<seq<byte>>, start: nat, lo: nat, block: nat)
    requires FlushedTo(s0, s, b, lo, true) && RunsStored(files, contents, start, b, lo)
    requires lo == block * BLOCK || (lo == |b.data| <= block * BLOCK)
    requires block < |b.have| ==> !b.have[block]
    ensures FlushedTo(s0, s, b, (block + 1) * BLOCK, true) && RunsStored(files, contents, start, b, (block + 1) * BLOCK)
  {
    forall k | lo <= k < (block + 1) * BLOCK && k < |b.data|
      ensures !Present(b, k)
    {
      assert k / BLOCK == block;
    }
    FlushSkip(s0, s, b, lo, (block + 1) * BLOCK);
  }

  lemma RunOfBlocks(b: PieceBuffer, runStart: nat, block: nat)
    requires block <= |b.have| == Blocks(|b.data|) && InRun(b, runStart, block)
    ensures forall k :: runStart <= k < block * BLOCK && k < |b.data| ==> Present(b, k)
    ensures runStart <= |b.data| && runStart < block * BLOCK
  {
    forall k | runStart <= k < block * BLOCK && k < |b.data|
      ensures Present(b, k)
    {
      assert runStart / BLOCK <= k / BLOCK < block;
    }
  }

  lemma {:induction false} BufferAt(g: Geometry, bufs: seq<PieceBuffer>, i: nat)
    requires Metainfo.Valid(g) && BuffersOk(g, bufs) && i < |bufs|
    ensures bufs[i].index < g.pieceCount && |bufs[i].data| == SizeOfPiece(g, bufs[i].index)
    ensures |bufs[i].have| == Blocks(|bufs[i].data|) && bufs[i].blocksPresent == CountTrue(bufs[i].have)
  {
    assert Shape(bufs[i], SizeOfPiece(g, bufs[i].index));
  }

  lemma FlushSkip(s0: seq<byte>, s: seq<byte>, b: PieceBuffer, lo: nat, hi: nat)
    requires FlushedTo(s0, s, b, lo, true) && lo <= hi
    requires forall k :: lo <= k < hi && k < |s| ==> !Present(b, k)
    ensures FlushedTo(s0, s, b, hi, true)
  {
  }

  /** A flush, complete or not, leaves what the piece reads as. */
  lemma FlushKeepsOverlay(s0: seq<byte>, s: seq<byte>, b: PieceBuffer, upto: nat, exact: bool)
    requires FlushedTo(s0, s, b, upto, exact)
    ensures Overlay(s, b) == Overlay(s0, b) && Between(s0, s, Overlay(s0, b))
    ensures exact && upto >= |s| ==> s == Overlay(s0, b)
  {
  }

  ghost predicate WhollyBuffered(bufs: seq<PieceBuffer>, piece: nat)
  {
    var i := Find(bufs, piece);
    i >= 0 && forall k :: 0 <= k < |bufs[i].data| ==> Present(bufs[i], k)
  }

  lemma GrownTrivially(c: seq<seq<byte>>)
    ensures Grown(c, c)
  {
  }

  /** The counter test of completeness, and what a complete buffer reads as. */
  lemma CompleteIs(base: seq<byte>, b: PieceBuffer)
    requires Shape(b, |base|)
    ensures b.blocksPresent == |b.have| <==> forall k :: 0 <= k < |base| ==> Present(b, k)
    ensures b.blocksPresent == |b.have| ==> Overlay(base, b) == b.data
  {
    hide CountTrue;
    CountTrueBound(b.have);
    forall k | 0 <= k < |base|
      ensures k / BLOCK < |b.have|
    {
      BlockOf(k, |base|);
    }
    forall j | 0 <= j < |b.have|
      ensures j * BLOCK < |base| && Present(b, j * BLOCK) == b.have[j]
    {
      BlockBegins(j, |base|);
    }
  }

  lemma BlockBegins(j: nat, size: nat)
    requires j < Blocks(size)
    ensures j * BLOCK < size && (j * BLOCK) / BLOCK == j
  {
  }

  ghost predicate BackedIn(files: seq<FileEntry>, contents: seq<seq<byte>>, start: nat, size: nat, b: Option<PieceBuffer>, offset: nat, len: nat)
  {
    |files| == |contents| && forall k :: 0 <= k < size && !(offset <= k < offset + len) ==> BackedAt(files, contents, start, b, k)
  }

  ghost predicate BackedAt(files: seq<FileEntry>, contents: seq<seq<byte>>, start: nat, b: Option<PieceBuffer>, k: nat)
    requires |files| == |contents|
  {
    (b.Some? && Present(b.value, k)) || Reserved(files, contents, start + k, 1)
  }

  /** Files that grow keep a piece backed. */
  lemma BackedGrows(files: seq<FileEntry>, before: seq<seq<byte>>, after: seq<seq<byte>>, start: nat, size: nat, b: Option<PieceBuffer>)
    requires BackedIn(files, before, start, size, b, 0, 0) && Grown(before, after)
    ensures BackedIn(files, after, start, size, b, 0, 0)
  {
    hide Reserved, Present;
    forall k | 0 <= k < size
      ensures BackedAt(files, after, start, b, k)
    {
      assert BackedAt(files, before, start, b, k);
      if !(b.Some? && Present(b.value, k)) {
        ReservedGrows(files, before, after, start + k, 1);
      }
    }
  }

  /** Every byte of the piece is in the buffer, or will be once the block has been buffered. */
  ghost predicate WholeWith(b: Option<PieceBuffer>, size: nat, buffered: bool, offset: nat, len: nat)
  {
    forall k :: 0 <= k < size ==> (b.Some? && Present(b.value, k)) || (buffered && Covered(k, offset, len))
  }

  ghost predicate Covered(k: nat, offset: nat, len: nat)
  {
    len > 0 && offset / BLOCK <= k / BLOCK <= (offset + len - 1) / BLOCK
  }

  lemma WholeOnceBuffered(bufs: seq<PieceBuffer>, b: Option<PieceBuffer>, piece: nat, t: PieceBuffer, offset: nat, data: seq<byte>, size: nat)
    requires t == (if b.Some? then b.value else FreshBuffer(piece, size)) && Shape(t, size)
    requires offset % BLOCK == 0 && |data| > 0 && offset + |data| <= size && BufferOf(bufs, piece) == Some(BufferWrite(t, offset, data))
    ensures WhollyBuffered(bufs, piece) <==> WholeWith(b, size, true, offset, |data|)
  {
    hide Find;
    var w := BufferWrite(t, offset, data);
    forall k | 0 <= k < size
      ensures Present(w, k) <==> (b.Some? && Present(b.value, k)) || Covered(k, offset, |data|)
    {
      BlockOf(k, size);
    }
  }

  lemma WholeAsItIs(bufs: seq<PieceBuffer>, piece: nat, size: nat, offset: nat, len: nat)
    requires size > 0 && (BufferOf(bufs, piece).Some? ==> |BufferOf(bufs, piece).value.data| == size)
    ensures WhollyBuffered(bufs, piece) <==> WholeWith(BufferOf(bufs, piece), size, false, offset, len)
  {
    hide Find;
    assert Covered(0, offset, len) || !Covered(0, offset, len);
  }

  /** A block buffered. */
  lemma BackedByBuffer(files: seq<FileEntry>, contents: seq<seq<byte>>, start: nat, size: nat, b: Option<PieceBuffer>, t: PieceBuffer, offset: nat, data: seq<byte>)
    requires BackedIn(files, contents, start, size, b, offset, |data|) && t == (if b.Some? then b.value else FreshBuffer(t.index, size))
    requires Shape(t, size) && offset % BLOCK == 0 && |data| > 0 && offset + |data| <= size
    ensures BackedIn(files, contents, start, size, Some(BufferWrite(t, offset, data)), 0, 0)
  {
    hide Reserved;
    var w := BufferWrite(t, offset, data);
    forall k | 0 <= k < size
      ensures BackedAt(files, contents, start, Some(w), k)
    {
      PositionOfWrite(k, offset, |data|, size);
      if !Present(w, k) {
        assert BackedAt(files, contents, start, b, k) && !Present(t, k);
      }
    }
  }

  /** A block on the card. */
  lemma BackedByCard(files: seq<FileEntry>, before: seq<seq<byte>>, after: seq<seq<byte>>, start: nat, size: nat, b: Option<PieceBuffer>, offset: nat, len: nat)
    requires BackedIn(files, before, start, size, b, offset, len) && Grown(before, after) && Reserved(files, after, start + offset, len)
    ensures BackedIn(files, after, start, size, b, 0, 0)
  {
    hide Reserved, Present;
    forall k | 0 <= k < size
      ensures BackedAt(files, after, start, b, k)
    {
      if offset <= k < offset + len {
        ReservedPart(files, after, start + offset, len, start + k);
      } else if !(b.Some? && Present(b.value, k)) {
        assert BackedAt(files, before, start, b, k);
        ReservedGrows(files, before, after, start + k, 1);
      }
    }
  }

  lemma ReservedWhole(files: seq<FileEntry>, contents: seq<seq<byte>>, abs: nat, len: nat)
    requires |files| == |contents| && forall k :: abs <= k < abs + len ==> Reserved(files, contents, k, 1)
    ensures Reserved(files, contents, abs, len)
  {
    forall i | 0 <= i < |files|
      ensures ReservedIn(files[i], |contents[i]|, abs, len)
    {
      var f := files[i];
      var end := f.offset + f.length;
      var hi := if abs + len < end then abs + len else end;
      if f.offset < hi && abs < hi {
        assert Reserved(files, contents, hi - 1, 1);
        assert ReservedIn(files[i], |contents[i]|, hi - 1, 1);
      }
    }
  }

  lemma FlushedIsReserved(files: seq<FileEntry>, before: seq<seq<byte>>, after: seq<seq<byte>>, start: nat, b: PieceBuffer)
    requires BackedIn(files, before, start, |b.data|, Some(b), 0, 0) && RunsStored(files, after, start, b, |b.data|) && Grown(before, after)
    ensures Reserved(files, after, start, |b.data|)
  {
    forall k | start <= k < start + |b.data|
      ensures Reserved(files, after, k, 1)
    {
      if !Present(b, k - start) {
        assert BackedAt(files, before, start, Some(b), k - start);
        ReservedGrows(files, before, after, k, 1);
      } else {
        assert Reserved(files, after, start + (k - start), 1);
      }
    }
    ReservedWhole(files, after, start, |b.data|);
  }

  lemma NotBuffered(bufs: seq<PieceBuffer>, piece: nat)
    ensures Find(bufs, piece) < 0 ==> !WhollyBuffered(bufs, piece)
  {
  }

  lemma PieceInside(g: Geometry, p: nat)
    requires Metainfo.Valid(g) && p < g.pieceCount
    ensures PieceStart(g, p) == p * g.pieceLength && PieceStart(g, p) + SizeOfPiece(g, p) <= g.totalSize
  {
  }

  /** A part that cannot be read makes the whole unreadable. */
  lemma Unreadable(files: seq<FileEntry>, contents: seq<seq<byte>>, abs: nat, len: nat, at: nat, n: nat)
    requires |files| == |contents| && at + n <= len
    ensures Reserved(files, contents, abs, len) ==> Reserved(files, contents, abs + at, n)
  {
    if Reserved(files, contents, abs, len) {
      forall i | 0 <= i < |files|
        ensures ReservedIn(files[i], |contents[i]|, abs + at, n)
      {
        assert ReservedIn(files[i], |contents[i]|, abs, len);
      }
    }
  }

  lemma SliceChunk(g: Geometry, flat: seq<byte>, p: nat, at: nat, n: nat)
    requires Metainfo.Valid(g) && p < g.pieceCount && |flat| == g.totalSize && at + n <= SizeOfPiece(g, p)
    ensures PieceStart(g, p) + at + n <= |flat|
    ensures PieceSlice(g, flat, p)[..at + n] == PieceSlice(g, flat, p)[..at] + flat[PieceStart(g, p) + at..PieceStart(g, p) + at + n]
  {
  }
}
