/** The state of the request allocator: block states, per-piece counters and the table of pending requests. */
module PickerState {
  import opened Arith
  import opened Metainfo

  const RAREST_SAMPLE: nat := 256
  const SATURATED: nat := 0xffff

  datatype BlockState = Free | Pending | Done
  datatype PieceProgress = PieceProgress(blocks: seq<BlockState>, done: nat, pending: nat)
  datatype BlockRequest = BlockRequest(piece: nat, offset: nat, length: nat)

  /** The fields of a picker. */
  datatype State = State(
    have: seq<bool>,
    availability: seq<nat>,
    progress: map<nat, PieceProgress>,
    pending: map<nat, nat>,
    bytesDone: nat,
    cursor: nat)

  // --- keys and counts --------------------------------------------------------------

  function Key(piece: nat, offset: nat): nat
  {
    piece * TWO32 + offset
  }

  function KeyPiece(key: nat): nat { key / TWO32 }
  function KeyOffset(key: nat): nat { key % TWO32 }

  lemma KeyParts(piece: nat, offset: nat)
    requires offset < TWO32
    ensures KeyPiece(Key(piece, offset)) == piece && KeyOffset(Key(piece, offset)) == offset
  {
    DivModUnique(Key(piece, offset), TWO32, piece, offset);
  }

  function Count(blocks: seq<BlockState>, s: BlockState): nat
  {
    if |blocks| == 0 then 0 else Count(blocks[..|blocks| - 1], s) + (if blocks[|blocks| - 1] == s then 1 else 0)
  }

  lemma {:induction false} CountUpdate(blocks: seq<BlockState>, i: nat, t: BlockState, s: BlockState)
    requires i < |blocks|
    ensures Count(blocks[i := t], s) == Count(blocks, s) - (if blocks[i] == s then 1 else 0) + (if t == s then 1 else 0)
  {
    var n := |blocks| - 1;
    if i == n {
      assert blocks[i := t][..n] == blocks[..n];
    } else {
      assert blocks[i := t][..n] == blocks[..n][i := t];
      CountUpdate(blocks[..n], i, t, s);
    }
  }

  lemma {:induction false} CountAll(blocks: seq<BlockState>, s: BlockState)
    ensures Count(blocks, s) <= |blocks|
    ensures Count(blocks, s) == |blocks| <==> forall i :: 0 <= i < |blocks| ==> blocks[i] == s
  {
    if |blocks| > 0 {
      var t := blocks[..|blocks| - 1];
      CountAll(t, s);
      assert forall i :: 0 <= i < |t| ==> t[i] == blocks[i];
    }
  }

  lemma {:induction false} CountNone(blocks: seq<BlockState>, s: BlockState)
    requires forall i :: 0 <= i < |blocks| ==> blocks[i] != s
    ensures Count(blocks, s) == 0
  {
    if |blocks| > 0 {
      CountNone(blocks[..|blocks| - 1], s);
    }
  }

  lemma {:induction false} CountPositive(blocks: seq<BlockState>, i: nat, s: BlockState)
    requires i < |blocks| && blocks[i] == s
    ensures Count(blocks, s) > 0
  {
    var t := blocks[..|blocks| - 1];
    if i < |t| {
      CountPositive(t, i, s);
    }
  }

  lemma {:induction false} CountSum(blocks: seq<BlockState>)
    ensures Count(blocks, Free) + Count(blocks, Pending) + Count(blocks, Done) == |blocks|
  {
    if |blocks| > 0 {
      CountSum(blocks[..|blocks| - 1]);
    }
  }

  function BlocksIn(g: Geometry, piece: nat): nat
    requires HasPiece(g, piece)
  {
    (SizeOfPiece(g, piece) + BLOCK - 1) / BLOCK
  }

  /** Bytes of the pieces held among the first n. */
  function SumHave(g: Geometry, have: seq<bool>, n: nat): nat
    requires Metainfo.Valid(g) && n <= |have| == g.pieceCount
  {
    if n == 0 then 0 else SumHave(g, have, n - 1) + (if have[n - 1] then SizeOfPiece(g, n - 1) else 0)
  }

  lemma {:induction false} SumHaveSet(g: Geometry, have: seq<bool>, n: nat, p: nat)
    requires Metainfo.Valid(g) && n <= |have| == g.pieceCount && p < |have| && !have[p]
    ensures SumHave(g, have[p := true], n) == SumHave(g, have, n) + (if p < n then SizeOfPiece(g, p) else 0)
  {
    if n > 0 {
      SumHaveSet(g, have, n - 1, p);
    }
  }

  /** The bytes of the pieces held are all the bytes exactly when every piece is held. */
  lemma {:induction false} AllBytesIff(g: Geometry, have: seq<bool>, n: nat)
    requires Metainfo.Valid(g) && n <= |have| == g.pieceCount
    ensures SumHave(g, have, n) <= EndOf(g, n)
    ensures SumHave(g, have, n) == EndOf(g, n) <==> forall i :: 0 <= i < n ==> have[i]
  {
    PieceCountPositive(g);
    PiecesTile(g, 0);
    hide EndOf, SizeOfPiece, Contiguous;
    if n > 0 {
      AllBytesIff(g, have, n - 1);
      PiecesTile(g, n - 1);
    }
  }

  /** The counter of bytes reaches the size of the torrent exactly when every piece is held. */
  lemma BytesDoneIff(g: Geometry, s: State)
    requires Inv(g, s)
    ensures s.bytesDone <= g.totalSize
    ensures s.bytesDone == g.totalSize <==> forall i :: 0 <= i < |s.have| ==> s.have[i]
  {
    AllBytesIff(g, s.have, g.pieceCount);
  }

  // --- the invariant ------------------------------------------------------------------

  ghost predicate ProgressOk(pr: PieceProgress, size: nat)
  {
    |pr.blocks| == size && pr.done == Count(pr.blocks, Done) && pr.pending == Count(pr.blocks, Pending)
  }

  /** In an open piece a block is Pending exactly when its key is in the table. */
  ghost predicate KeysAgree(pending: map<nat, nat>, p: nat, blocks: seq<BlockState>)
  {
    forall b :: 0 <= b < |blocks| ==> (blocks[b] == Pending <==> Key(p, b * BLOCK) in pending)
  }

  /** A key names an aligned block of a piece that is open or already held. */
  ghost predicate KeyOk(g: Geometry, s: State, k: nat)
    requires Metainfo.Valid(g) && |s.have| == g.pieceCount
  {
    var p, o := KeyPiece(k), KeyOffset(k);
    p < g.pieceCount && o % BLOCK == 0 && o / BLOCK < BlocksIn(g, p) && (p in s.progress || s.have[p])
  }

  ghost predicate Inv(g: Geometry, s: State)
  {
    && Metainfo.Valid(g)
    && |s.have| == |s.availability| == g.pieceCount && s.cursor < g.pieceCount
    && (forall p :: p in s.progress ==> p < g.pieceCount && !s.have[p])
    && (forall p :: p in s.progress ==> ProgressOk(s.progress[p], BlocksIn(g, p)))
    && (forall p :: p in s.progress ==> KeysAgree(s.pending, p, s.progress[p].blocks))
    && (forall k :: k in s.pending ==> KeyOk(g, s, k))
    && s.bytesDone == SumHave(g, s.have, g.pieceCount)
    && (forall i :: 0 <= i < |s.availability| ==> s.availability[i] <= SATURATED)
  }

  // --- the operations as functions ------------------------------------------------------

  function Init(g: Geometry): State
  {
    State(seq(g.pieceCount, _ => false), seq(g.pieceCount, _ => 0), map[], map[], 0, 0)
  }

  function SetHave(g: Geometry, s: State, piece: nat): State
    requires Inv(g, s)
  {
    if piece >= g.pieceCount || s.have[piece] then s
    else s.(have := s.have[piece := true], bytesDone := s.bytesDone + SizeOfPiece(g, piece), progress := s.progress - {piece})
  }

  /** on_block_received: the new state, and whether the piece has just become complete. */
  function Receive(g: Geometry, s: State, piece: nat, offset: nat): (State, bool)
    requires Inv(g, s)
  {
    if piece >= g.pieceCount || s.have[piece] || offset % BLOCK != 0 || piece !in s.progress then (s, false)
    else
      var pr, i := s.progress[piece], offset / BLOCK;
      if i >= |pr.blocks| then (s, false)
      else
        var t := s.(pending := s.pending - {Key(piece, offset)});
        if pr.blocks[i] == Done then (t, false)
        else
          var fewer := if pr.blocks[i] == Pending && pr.pending > 0 then pr.pending - 1 else pr.pending;
          var next := PieceProgress(pr.blocks[i := Done], pr.done + 1, fewer);
          (t.(progress := t.progress[piece := next]), next.done == |next.blocks|)
  }

  /** on_request_dropped. */
  function Drop(g: Geometry, s: State, piece: nat, offset: nat): State
    requires Inv(g, s)
  {
    var t := s.(pending := s.pending - {Key(piece, offset)});
    if piece !in s.progress then t
    else
      var pr, i := s.progress[piece], offset / BLOCK;
      if i >= |pr.blocks| || pr.blocks[i] != Pending then t
      else
        var fewer := if pr.pending > 0 then pr.pending - 1 else pr.pending;
        t.(progress := t.progress[piece := PieceProgress(pr.blocks[i := Free], pr.done, fewer)])
  }

  /** on_piece_verified. */
  function Verified(g: Geometry, s: State, piece: nat, ok: bool): State
    requires Inv(g, s)
  {
    if ok then SetHave(g, s, piece)
    else
      var kept := map k | k in s.pending && KeyPiece(k) != piece :: s.pending[k];
      if piece !in s.progress then s.(pending := kept)
      else
        var restarted := PieceProgress(seq(|s.progress[piece].blocks|, _ => Free), 0, 0);
        s.(pending := kept, progress := s.progress[piece := restarted])
  }

  // --- what every operation keeps -------------------------------------------------------

  lemma BlockKey(g: Geometry, p: nat, b: nat)
    requires Metainfo.Valid(g) && p < g.pieceCount && b < BlocksIn(g, p)
    ensures b * BLOCK < SizeOfPiece(g, p) && b * BLOCK < TWO32
    ensures (b * BLOCK) % BLOCK == 0 && (b * BLOCK) / BLOCK == b
    ensures KeyPiece(Key(p, b * BLOCK)) == p && KeyOffset(Key(p, b * BLOCK)) == b * BLOCK
  {
    assert SizeOfPiece(g, p) <= MAX_PIECE_LENGTH;
    KeyParts(p, b * BLOCK);
  }

  lemma SameKey(g: Geometry, p: nat, b: nat, q: nat, o: nat)
    requires Metainfo.Valid(g) && p < g.pieceCount && b < BlocksIn(g, p) && o < TWO32
    ensures Key(p, b * BLOCK) == Key(q, o) <==> p == q && o == b * BLOCK
  {
    BlockKey(g, p, b);
    KeyParts(q, o);
  }

  lemma InitInv(g: Geometry)
    requires Metainfo.Valid(g)
    ensures Inv(g, Init(g))
  {
    PieceCountPositive(g);
    NothingHeld(g, Init(g).have, g.pieceCount);
  }

  lemma {:induction false} NothingHeld(g: Geometry, have: seq<bool>, n: nat)
    requires Metainfo.Valid(g) && n <= |have| == g.pieceCount && forall i :: 0 <= i < n ==> !have[i]
    ensures SumHave(g, have, n) == 0
  {
    if n > 0 {
      NothingHeld(g, have, n - 1);
    }
  }

  lemma SetHaveInv(g: Geometry, s: State, piece: nat)
    requires Inv(g, s)
    ensures Inv(g, SetHave(g, s, piece))
  {
    if piece < g.pieceCount && !s.have[piece] {
      SumHaveSet(g, s.have, g.pieceCount, piece);
      var t := SetHave(g, s, piece);
      forall k | k in t.pending
        ensures KeyOk(g, t, k)
      {
        assert KeyOk(g, s, k);
      }
    }
  }

  /** Replacing one open piece and dropping keys keeps the invariant when the two sides agree. */
  lemma UpdatePiece(g: Geometry, s: State, t: State, piece: nat, pr: PieceProgress)
    requires Inv(g, s) && piece in s.progress
    requires t == s.(progress := s.progress[piece := pr], pending := t.pending)
    requires ProgressOk(pr, BlocksIn(g, piece)) && KeysAgree(t.pending, piece, pr.blocks)
    requires forall k :: k in t.pending ==> k in s.pending
    requires forall k :: k in s.pending && KeyPiece(k) != piece ==> k in t.pending
    ensures Inv(g, t)
  {
    forall k | k in t.pending
      ensures KeyOk(g, t, k)
    {
      assert KeyOk(g, s, k);
    }
    forall p | p in t.progress
      ensures KeysAgree(t.pending, p, t.progress[p].blocks)
    {
      if p != piece {
        assert KeysAgree(s.pending, p, s.progress[p].blocks);
        forall b | 0 <= b < |s.progress[p].blocks|
          ensures Key(p, b * BLOCK) in t.pending <==> Key(p, b * BLOCK) in s.pending
        {
          BlockKey(g, p, b);
        }
      }
    }
  }

  /** The table after one block's key is gone. */
  lemma KeysAfterRemoval(g: Geometry, s: State, piece: nat, i: nat, st: BlockState)
    requires Inv(g, s) && piece in s.progress && i < |s.progress[piece].blocks| && st != Pending
    ensures KeysAgree(s.pending - {Key(piece, i * BLOCK)}, piece, s.progress[piece].blocks[i := st])
  {
    var blocks := s.progress[piece].blocks;
    assert KeysAgree(s.pending, piece, blocks);
    forall b | 0 <= b < |blocks|
      ensures Key(piece, b * BLOCK) == Key(piece, i * BLOCK) <==> b == i
    {
      BlockKey(g, piece, i);
      SameKey(g, piece, b, piece, i * BLOCK);
    }
  }

  lemma StateShape(g: Geometry, s: State)
    requires Inv(g, s)
    ensures |s.have| == |s.availability| == g.pieceCount && s.cursor < g.pieceCount && Metainfo.Valid(g)
  {
  }

  lemma OpenPieceFits(g: Geometry, s: State, piece: nat)
    requires Inv(g, s) && piece in s.progress
    ensures Metainfo.Valid(g) && HasPiece(g, piece) && ProgressOk(s.progress[piece], BlocksIn(g, piece))
    ensures |s.progress[piece].blocks| == BlocksIn(g, piece) && BlocksIn(g, piece) * BLOCK <= TWO32
  {
  }

  /** Moving one block to Free or Done, with the counters the code keeps. */
  lemma MoveBlock(pr: PieceProgress, size: nat, i: nat, st: BlockState)
    requires ProgressOk(pr, size) && i < size && pr.blocks[i] != Done && st != Pending
    ensures var fewer := if pr.blocks[i] == Pending && pr.pending > 0 then pr.pending - 1 else pr.pending;
            ProgressOk(PieceProgress(pr.blocks[i := st], if st == Done then pr.done + 1 else pr.done, fewer), size)
  {
    CountUpdate(pr.blocks, i, st, Done);
    CountUpdate(pr.blocks, i, st, Pending);
    if pr.blocks[i] == Pending {
      CountPositive(pr.blocks, i, Pending);
    }
  }

  lemma ReceiveInv(g: Geometry, s: State, piece: nat, offset: nat)
    requires Inv(g, s)
    ensures Inv(g, Receive(g, s, piece, offset).0)
  {
    hide Inv, ProgressOk, KeysAgree;
    var t := Receive(g, s, piece, offset).0;
    if t != s {
      var pr, i := s.progress[piece], offset / BLOCK;
      assert offset == i * BLOCK;
      OpenPieceFits(g, s, piece);
      KeysAfterRemoval(g, s, piece, i, Done);
      OtherKeysKept(g, s, piece, offset);
      if pr.blocks[i] == Done {
        assert pr.blocks[i := Done] == pr.blocks;
        assert s.progress[piece := pr] == s.progress;
        UpdatePiece(g, s, t, piece, pr);
      } else {
        MoveBlock(pr, BlocksIn(g, piece), i, Done);
        UpdatePiece(g, s, t, piece, t.progress[piece]);
      }
    }
  }

  lemma OtherKeysKept(g: Geometry, s: State, piece: nat, offset: nat)
    requires offset < TWO32
    ensures forall k :: k in s.pending && KeyPiece(k) != piece ==> k in s.pending - {Key(piece, offset)}
  {
    KeyParts(piece, offset);
  }

  /** Dropping a request keeps the invariant for aligned offsets; see DropInvIff for the others. */
  lemma DropInv(g: Geometry, s: State, piece: nat, offset: nat)
    requires Inv(g, s) && offset < TWO32 && offset % BLOCK == 0
    ensures Inv(g, Drop(g, s, piece, offset))
  {
    hide Inv, ProgressOk, KeysAgree;
    var t := Drop(g, s, piece, offset);
    if piece !in s.progress {
      KeyRemoved(g, s, piece, offset);
    } else {
      var pr, i := s.progress[piece], offset / BLOCK;
      assert offset == i * BLOCK;
      OpenPieceFits(g, s, piece);
      if i >= |pr.blocks| {
        KeyRemoved(g, s, piece, offset);
      } else {
        OtherKeysKept(g, s, piece, offset);
        if pr.blocks[i] == Pending {
          KeysAfterRemoval(g, s, piece, i, Free);
          MoveBlock(pr, BlocksIn(g, piece), i, Free);
          UpdatePiece(g, s, t, piece, t.progress[piece]);
        } else {
          KeysAfterRemoval(g, s, piece, i, pr.blocks[i]);
          assert pr.blocks[i := pr.blocks[i]] == pr.blocks;
          assert s.progress[piece := pr] == s.progress;
          UpdatePiece(g, s, t, piece, pr);
        }
      }
    }
  }

  /** A key that names no block of an open piece can go. */
  lemma KeyRemoved(g: Geometry, s: State, piece: nat, offset: nat)
    requires Inv(g, s) && offset < TWO32
    requires piece in s.progress ==> offset % BLOCK != 0 || offset / BLOCK >= |s.progress[piece].blocks|
    ensures Inv(g, s.(pending := s.pending - {Key(piece, offset)}))
  {
    var t := s.(pending := s.pending - {Key(piece, offset)});
    forall k | k in t.pending
      ensures KeyOk(g, t, k)
    {
      assert KeyOk(g, s, k);
    }
    forall p | p in t.progress
      ensures KeysAgree(t.pending, p, t.progress[p].blocks)
    {
      assert KeysAgree(s.pending, p, s.progress[p].blocks);
      forall b | 0 <= b < |s.progress[p].blocks|
        ensures Key(p, b * BLOCK) != Key(piece, offset)
      {
        BlockKey(g, p, b);
        SameKey(g, p, b, piece, offset);
      }
    }
  }

  /**
   * For an unaligned offset the code frees the enclosing block but removes another key, so the
   * three views stay in step exactly when that block was not Pending.
   */
  lemma DropInvIff(g: Geometry, s: State, piece: nat, offset: nat)
    requires Inv(g, s) && offset < TWO32
    ensures Inv(g, Drop(g, s, piece, offset)) <==>
            (offset % BLOCK == 0 || piece !in s.progress || offset / BLOCK >= |s.progress[piece].blocks|
             || s.progress[piece].blocks[offset / BLOCK] != Pending)
  {
    hide Inv, Key;
    if offset % BLOCK == 0 {
      DropInv(g, s, piece, offset);
    } else {
      KeyRemoved(g, s, piece, offset);
      if piece in s.progress && offset / BLOCK < |s.progress[piece].blocks| && s.progress[piece].blocks[offset / BLOCK] == Pending {
        DropMisses(g, s, piece, offset);
      }
    }
  }

  /** The request stays in the table, though its block has become free. */
  lemma DropMisses(g: Geometry, s: State, piece: nat, offset: nat)
    requires Inv(g, s) && offset < TWO32 && offset % BLOCK != 0 && piece in s.progress && offset / BLOCK < |s.progress[piece].blocks|
    requires s.progress[piece].blocks[offset / BLOCK] == Pending
    ensures !Inv(g, Drop(g, s, piece, offset))
  {
    hide ProgressOk, KeyOk, Key, BlocksIn, SizeOfPiece;
    var t, i := Drop(g, s, piece, offset), offset / BLOCK;
    OpenPieceFits(g, s, piece);
    SameKey(g, piece, i, piece, offset);
    assert KeysAgree(s.pending, piece, s.progress[piece].blocks);
    assert Key(piece, i * BLOCK) in t.pending && t.progress[piece].blocks[i] == Free;
    assert !KeysAgree(t.pending, piece, t.progress[piece].blocks);
  }

  lemma VerifiedInv(g: Geometry, s: State, piece: nat, ok: bool)
    requires Inv(g, s)
    ensures Inv(g, Verified(g, s, piece, ok))
  {
    hide Inv, ProgressOk, KeysAgree;
    var t := Verified(g, s, piece, ok);
    if ok {
      SetHaveInv(g, s, piece);
    } else if piece in s.progress {
      OpenPieceFits(g, s, piece);
      BlocksOfOpenPiece(s.progress[piece], BlocksIn(g, piece));
      var pr := PieceProgress(seq(|s.progress[piece].blocks|, _ => Free), 0, 0);
      RestartedPiece(g, t.pending, piece, pr, BlocksIn(g, piece));
      UpdatePiece(g, s, t, piece, pr);
    } else {
      ClosedPieceKeysRemoved(g, s, piece);
    }
  }

  lemma BlocksOfOpenPiece(pr: PieceProgress, size: nat)
    requires ProgressOk(pr, size)
    ensures |pr.blocks| == size
  {
  }

  lemma RestartedPiece(g: Geometry, pending: map<nat, nat>, piece: nat, pr: PieceProgress, size: nat)
    requires Metainfo.Valid(g) && HasPiece(g, piece) && size == BlocksIn(g, piece)
    requires |pr.blocks| == size && pr.done == pr.pending == 0 && forall b :: 0 <= b < size ==> pr.blocks[b] == Free
    requires forall k :: k in pending ==> KeyPiece(k) != piece
    ensures ProgressOk(pr, size) && KeysAgree(pending, piece, pr.blocks)
  {
    CountNone(pr.blocks, Done);
    CountNone(pr.blocks, Pending);
    forall b | 0 <= b < size
      ensures Key(piece, b * BLOCK) !in pending
    {
      BlockKey(g, piece, b);
    }
  }

  lemma ClosedPieceKeysRemoved(g: Geometry, s: State, piece: nat)
    requires Inv(g, s) && piece !in s.progress
    ensures Inv(g, s.(pending := map k | k in s.pending && KeyPiece(k) != piece :: s.pending[k]))
  {
    var t := s.(pending := map k | k in s.pending && KeyPiece(k) != piece :: s.pending[k]);
    forall k | k in t.pending
      ensures KeyOk(g, t, k)
    {
      assert KeyOk(g, s, k);
    }
    forall p | p in t.progress
      ensures KeysAgree(t.pending, p, t.progress[p].blocks)
    {
      assert KeysAgree(s.pending, p, s.progress[p].blocks);
      forall b | 0 <= b < |s.progress[p].blocks|
        ensures KeyPiece(Key(p, b * BLOCK)) != piece
      {
        BlockKey(g, p, b);
      }
    }
  }

  // --- expiry -----------------------------------------------------------------------------

  /** t is s with the keys of D taken out of the table and their blocks freed. */
  ghost predicate Released(s: State, t: State, D: set<nat>)
  {
    && t.have == s.have && t.availability == s.availability && t.bytesDone == s.bytesDone && t.cursor == s.cursor
    && t.pending == s.pending - D && t.progress.Keys == s.progress.Keys
    && forall p :: p in s.progress ==> BlocksReleased(p, s.progress[p].blocks, t.progress[p].blocks, D)
  }

  ghost predicate BlocksReleased(p: nat, before: seq<BlockState>, after: seq<BlockState>, D: set<nat>)
  {
    |before| == |after| &&
    forall b :: 0 <= b < |before| ==> after[b] == if before[b] == Pending && Key(p, b * BLOCK) in D then Free else before[b]
  }

  lemma KeyWhole(k: nat)
    ensures Key(KeyPiece(k), KeyOffset(k)) == k && 0 <= KeyOffset(k) < TWO32
  {
  }

  lemma DropEffect(g: Geometry, t: State, p: nat, o: nat, q: nat)
    requires Inv(g, t) && q in t.progress
    ensures var u, mid, i := Drop(g, t, p, o), t.progress[q].blocks, o / BLOCK;
            q in u.progress && u.progress[q].blocks == if q == p && i < |mid| && mid[i] == Pending then mid[i := Free] else mid
  {
    hide Inv;
  }

  /** A key of the table names exactly one block of its piece, and that block is Pending. */
  lemma KeyNamesBlock(g: Geometry, t: State, k: nat, q: nat, p: nat, o: nat, i: nat)
    requires Inv(g, t) && k in t.pending && q in t.progress && p == KeyPiece(k) && o == KeyOffset(k) && i == o / BLOCK
    ensures forall b :: 0 <= b < |t.progress[q].blocks| ==> (Key(q, b * BLOCK) == k <==> q == p && b == i)
    ensures q == p && i < |t.progress[q].blocks| ==> t.progress[q].blocks[i] == Pending
  {
    hide Inv, ProgressOk, KeysAgree, Key, KeyPiece, KeyOffset;
    PendingKeyAligned(g, t, k);
    OpenPieceFits(g, t, q);
    forall b | 0 <= b < |t.progress[q].blocks|
      ensures Key(q, b * BLOCK) == k <==> q == p && b == i
    {
      SameKey(g, q, b, p, o);
    }
    KeysAgreeAt(g, t, q);
  }

  lemma KeysAgreeAt(g: Geometry, t: State, q: nat)
    requires Inv(g, t) && q in t.progress
    ensures forall b :: 0 <= b < |t.progress[q].blocks| ==> (t.progress[q].blocks[b] == Pending <==> Key(q, b * BLOCK) in t.pending)
  {
    assert KeysAgree(t.pending, q, t.progress[q].blocks);
  }

  lemma ReleaseBlock(before: seq<BlockState>, mid: seq<BlockState>, after: seq<BlockState>, D: set<nat>, k: nat, q: nat, i: nat, here: bool)
    requires BlocksReleased(q, before, mid, D)
    requires forall b :: 0 <= b < |mid| ==> (Key(q, b * BLOCK) == k <==> here && b == i)
    requires here && i < |mid| ==> mid[i] == Pending
    requires after == if here && i < |mid| then mid[i := Free] else mid
    ensures BlocksReleased(q, before, after, D + {k})
  {
    hide Key;
  }

  lemma ReleaseOne(g: Geometry, s: State, t: State, D: set<nat>, k: nat)
    requires Inv(g, s) && Inv(g, t) && Released(s, t, D) && k in t.pending
    ensures Inv(g, Drop(g, t, KeyPiece(k), KeyOffset(k)))
    ensures Released(s, Drop(g, t, KeyPiece(k), KeyOffset(k)), D + {k})
  {
    hide Inv, KeyPiece, KeyOffset, Key, BlocksReleased;
    var p, o := KeyPiece(k), KeyOffset(k);
    PendingKeyAligned(g, t, k);
    DropInv(g, t, p, o);
    var u := Drop(g, t, p, o);
    assert u.pending == s.pending - (D + {k});
    forall q | q in s.progress
      ensures BlocksReleased(q, s.progress[q].blocks, u.progress[q].blocks, D + {k})
    {
      KeyNamesBlock(g, t, k, q, p, o, o / BLOCK);
      DropEffect(g, t, p, o, q);
      ReleaseBlock(s.progress[q].blocks, t.progress[q].blocks, u.progress[q].blocks, D, k, q, o / BLOCK, q == p);
    }
  }

  lemma PendingKeyAligned(g: Geometry, t: State, k: nat)
    requires Inv(g, t) && k in t.pending
    ensures 0 <= KeyOffset(k) < TWO32 && KeyOffset(k) % BLOCK == 0 && Key(KeyPiece(k), KeyOffset(k)) == k
  {
    assert KeyOk(g, t, k);
    KeyWhole(k);
  }

  predicate IsExpired(now: nat, sent: nat, timeout: nat)
  {
    (now as int - sent as int) % 0x1_0000_0000_0000_0000 >= timeout
  }

  lemma ExpiredIff(now: nat, sent: nat, timeout: nat)
    requires sent <= now < TWO64
    ensures IsExpired(now, sent, timeout) <==> now - sent >= timeout
  {
  }

  ghost function Expired(pending: map<nat, nat>, now: nat, timeout: nat): set<nat>
  {
    set k | k in pending && IsExpired(now, pending[k], timeout)
  }

  lemma NothingReleased(s: State)
    ensures Released(s, s, {})
  {
  }

  // --- completed exactly once -------------------------------------------------------------

  /** The piece is held, or every block of it is in and the piece awaits its check. */
  ghost predicate Settled(s: State, p: nat)
  {
    (p < |s.have| && s.have[p]) || (p in s.progress && s.progress[p].done == |s.progress[p].blocks|)
  }

  /** Settled, for an open piece, is that every block is Done. */
  lemma SettledIsAllDone(g: Geometry, s: State, p: nat)
    requires Inv(g, s) && p in s.progress
    ensures Settled(s, p) <==> forall b :: 0 <= b < |s.progress[p].blocks| ==> s.progress[p].blocks[b] == Done
  {
    CountAll(s.progress[p].blocks, Done);
  }

  /** The answer of Receive is true exactly when this very block settles the piece. */
  lemma FullIff(g: Geometry, s: State, p: nat, offset: nat)
    requires Inv(g, s)
    ensures var (t, full) := Receive(g, s, p, offset); full <==> !Settled(s, p) && Settled(t, p)
  {
    if p in s.progress {
      OpenPieceFits(g, s, p);
      CountAll(s.progress[p].blocks, Done);
    }
  }

  /** Whatever is reported for one piece, a settled piece stays settled and is not reported again. */
  lemma ReceiveKeepsSettled(g: Geometry, s: State, q: nat, offset: nat, p: nat)
    requires Inv(g, s) && Settled(s, p)
    ensures Settled(Receive(g, s, q, offset).0, p) && (q == p ==> !Receive(g, s, q, offset).1)
  {
    hide KeysAgree, Key;
    if p in s.progress {
      CountAll(s.progress[p].blocks, Done);
    }
  }

  lemma DropKeepsSettled(g: Geometry, s: State, q: nat, offset: nat, p: nat)
    requires Inv(g, s) && Settled(s, p)
    ensures Settled(Drop(g, s, q, offset), p)
  {
    hide KeysAgree, Key;
    if p in s.progress {
      CountAll(s.progress[p].blocks, Done);
    }
  }

  lemma VerifiedKeepsSettled(g: Geometry, s: State, q: nat, ok: bool, p: nat)
    requires Inv(g, s) && Settled(s, p) && (ok || q != p)
    ensures Settled(Verified(g, s, q, ok), p)
  {
    hide Inv, KeysAgree, Key;
    StateShape(g, s);
  }

  lemma ReleasedKeepsSettled(g: Geometry, s: State, t: State, D: set<nat>, p: nat)
    requires Inv(g, s) && Inv(g, t) && Released(s, t, D) && Settled(s, p)
    ensures Settled(t, p)
  {
    if p in s.progress {
      assert BlocksReleased(p, s.progress[p].blocks, t.progress[p].blocks, D);
      hide KeysAgree, Key;
      CountAll(s.progress[p].blocks, Done);
      CountAll(t.progress[p].blocks, Done);
    }
  }

  /** A block of an open piece that comes in is in, no longer asked for, and nothing else changes. */
  lemma BlockCounts(g: Geometry, s: State, p: nat, b: nat)
    requires Inv(g, s) && p in s.progress && b < |s.progress[p].blocks|
    ensures var t := Receive(g, s, p, b * BLOCK).0;
            && t.progress.Keys == s.progress.Keys && t.progress[p].blocks == s.progress[p].blocks[b := Done]
            && (forall q :: q in s.progress && q != p ==> t.progress[q] == s.progress[q])
            && (forall k :: k in t.pending <==> k in s.pending && k != Key(p, b * BLOCK)) && (forall k :: k in t.pending ==> t.pending[k] == s.pending[k])
            && t.have == s.have && t.availability == s.availability && t.bytesDone == s.bytesDone && t.cursor == s.cursor
  {
    OpenNotHeld(g, s, p);
    hide Inv, Key;
    AlignedBlock(b);
    var blocks := s.progress[p].blocks;
    if blocks[b] == Done {
      assert blocks[b := Done] == blocks;
    }
  }

  lemma OpenNotHeld(g: Geometry, s: State, p: nat)
    requires Inv(g, s) && p in s.progress
    ensures p < g.pieceCount == |s.have| && !s.have[p]
  {
  }

  lemma AlignedBlock(b: nat)
    ensures b * BLOCK / BLOCK == b && b * BLOCK % BLOCK == 0
  {
  }

  /** The answer is true exactly when it was the last block missing. */
  lemma LastBlockFills(g: Geometry, s: State, p: nat, b: nat)
    requires Inv(g, s) && p in s.progress && b < |s.progress[p].blocks|
    ensures var blocks := s.progress[p].blocks;
            Receive(g, s, p, b * BLOCK).1 <==> blocks[b] != Done && forall c :: 0 <= c < |blocks| && c != b ==> blocks[c] == Done
  {
    hide Inv, Key, Receive, Settled;
    var t := Receive(g, s, p, b * BLOCK).0;
    var blocks, after := s.progress[p].blocks, s.progress[p].blocks[b := Done];
    BlockCounts(g, s, p, b);
    FullIff(g, s, p, b * BLOCK);
    ReceiveInv(g, s, p, b * BLOCK);
    SettledIsAllDone(g, s, p);
    SettledIsAllDone(g, t, p);
    if forall c :: 0 <= c < |after| ==> after[c] == Done {
      forall c | 0 <= c < |blocks| && c != b
        ensures blocks[c] == Done
      {
        assert after[c] == Done;
      }
    } else {
      var c :| 0 <= c < |after| && after[c] != Done;
      assert blocks[c] != Done;
    }
  }

  /** What becomes of one block of an open piece, and when the piece is full with it. */
  ghost predicate ComesIn(s: State, p: nat, offset: nat, t: State, full: bool)
  {
    offset % BLOCK == 0 && p in s.progress && offset / BLOCK < |s.progress[p].blocks| ==>
      var b, blocks := offset / BLOCK, s.progress[p].blocks;
      && p in t.progress && t.progress[p].blocks == blocks[b := Done]
      && (forall k :: k in t.pending <==> k in s.pending && k != Key(p, offset))
      && (full <==> blocks[b] != Done && forall c :: 0 <= c < |blocks| && c != b ==> blocks[c] == Done)
  }

  lemma Received(g: Geometry, s: State, p: nat, offset: nat)
    requires Inv(g, s)
    ensures ComesIn(s, p, offset, Receive(g, s, p, offset).0, Receive(g, s, p, offset).1)
  {
    hide Inv, Key, Receive;
    if offset % BLOCK == 0 && p in s.progress && offset / BLOCK < |s.progress[p].blocks| {
      var b := offset / BLOCK;
      assert b * BLOCK == offset;
      BlockCounts(g, s, p, b);
      LastBlockFills(g, s, p, b);
    }
  }

  /** A piece whose check failed starts over: every block can be asked for again, and nothing else changes. */
  lemma RefusedStartsOver(g: Geometry, s: State, p: nat)
    requires Inv(g, s) && p in s.progress
    ensures var t := Verified(g, s, p, false);
            && t.progress.Keys == s.progress.Keys && |t.progress[p].blocks| == |s.progress[p].blocks|
            && (forall b :: 0 <= b < |t.progress[p].blocks| ==> t.progress[p].blocks[b] == Free && Key(p, b * BLOCK) !in t.pending)
            && (forall q :: q in s.progress && q != p ==> t.progress[q] == s.progress[q])
            && (forall k :: k in s.pending && KeyPiece(k) != p ==> k in t.pending && t.pending[k] == s.pending[k])
            && t.have == s.have && t.bytesDone == s.bytesDone && !Settled(t, p)
  {
    hide Key, BlocksIn, KeyOk, KeysAgree, Count;
    OpenPieceFits(g, s, p);
    SomeBlock(g, p);
    forall b | 0 <= b < |s.progress[p].blocks|
      ensures KeyPiece(Key(p, b * BLOCK)) == p
    {
      BlockKey(g, p, b);
    }
  }

  lemma SomeBlock(g: Geometry, p: nat)
    requires HasPiece(g, p)
    ensures BlocksIn(g, p) > 0
  {
  }
}
