/** What a call to pick may ask for, and what it must not leave behind. */
module PickRules {
  import opened Arith
  import opened Counting
  import opened Metainfo
  import opened PickerState

  predicate Has(peer: seq<bool>, i: nat)
  {
    i < |peer| && peer[i]
  }

  /** A block nobody was asked for, or, in the endgame, one still on its way. */
  predicate Eligible(st: BlockState, endgame: bool)
  {
    st == Free || (endgame && st == Pending)
  }

  function BlockAt(s: State, p: nat, b: nat): BlockState
  {
    if p in s.progress && b < |s.progress[p].blocks| then s.progress[p].blocks[b] else Free
  }

  /** Less than one fiftieth of the pieces left, in 32-bit arithmetic. */
  predicate Endgame(g: Geometry, s: State)
  {
    g.pieceCount > 0 && ((g.pieceCount - CountTrue(s.have)) * 50) % TWO32 < g.pieceCount
  }

  /** While 50 times the pieces missing fit 32 bits: no piece is asked for twice until fewer than a fiftieth are missing. */
  lemma EndgameIff(g: Geometry, s: State)
    requires Inv(g, s) && (g.pieceCount - CountTrue(s.have)) * 50 < TWO32
    ensures CountTrue(s.have) <= g.pieceCount && (Endgame(g, s) <==> (g.pieceCount - CountTrue(s.have)) * 50 < g.pieceCount)
  {
    CountTrueBound(s.have);
  }

  /** Block b of a piece, as a request. */
  function Extent(g: Geometry, p: nat, b: nat): (r: BlockRequest)
    requires Metainfo.Valid(g) && p < g.pieceCount && b < BlocksIn(g, p)
    ensures 0 < r.length <= BLOCK && r.offset + r.length <= SizeOfPiece(g, p)
  {
    BlockKey(g, p, b);
    var left := SizeOfPiece(g, p) - b * BLOCK;
    BlockRequest(p, b * BLOCK, if BLOCK < left then BLOCK else left)
  }

  /** The extents of a piece follow one another without gap or overlap and end where the piece ends. */
  lemma {:induction false} ExtentsTile(g: Geometry, p: nat, b: nat)
    requires Metainfo.Valid(g) && p < g.pieceCount && b < BlocksIn(g, p)
    ensures b == 0 ==> Extent(g, p, b).offset == 0
    ensures b + 1 < BlocksIn(g, p) ==> Extent(g, p, b).offset + Extent(g, p, b).length == Extent(g, p, b + 1).offset
    ensures b + 1 == BlocksIn(g, p) ==> Extent(g, p, b).offset + Extent(g, p, b).length == SizeOfPiece(g, p)
  {
    var size := SizeOfPiece(g, p);
    assert BlocksIn(g, p) == (size + BLOCK - 1) / BLOCK;
  }

  // --- keys of a list of requests ---------------------------------------------------------

  function KeyOf(r: BlockRequest): nat
  {
    Key(r.piece, r.offset)
  }

  ghost function KeysOf(rs: seq<BlockRequest>): set<nat>
  {
    set r | r in rs :: KeyOf(r)
  }

  ghost predicate Distinct(rs: seq<BlockRequest>)
  {
    forall i, j :: 0 <= i < j < |rs| ==> KeyOf(rs[i]) != KeyOf(rs[j])
  }

  lemma {:induction false} KeysOfSum(a: seq<BlockRequest>, b: seq<BlockRequest>)
    ensures KeysOf(a + b) == KeysOf(a) + KeysOf(b)
  {
    forall k | k in KeysOf(a) + KeysOf(b)
      ensures k in KeysOf(a + b)
    {
      if k in KeysOf(a) {
        var r :| r in a && KeyOf(r) == k;
        assert r in a + b;
      } else {
        var r :| r in b && KeyOf(r) == k;
        assert r in a + b;
      }
    }
  }

  lemma {:induction false} KeysOfOne(r: BlockRequest)
    ensures KeysOf([r]) == {KeyOf(r)}
  {
    assert r in [r];
  }

  lemma {:induction false} KeysOfSnoc(keys: set<nat>, rs: seq<BlockRequest>, r: BlockRequest)
    ensures keys + KeysOf(rs) + {KeyOf(r)} == keys + KeysOf(rs + [r])
  {
    KeysOfSum(rs, [r]);
    KeysOfOne(r);
  }

  lemma {:induction false} DistinctSum(a: seq<BlockRequest>, b: seq<BlockRequest>)
    requires Distinct(a) && Distinct(b) && forall r, q :: r in a && q in b ==> KeyOf(r) != KeyOf(q)
    ensures Distinct(a + b)
  {
    var s := a + b;
    forall i, j | 0 <= i < j < |s|
      ensures KeyOf(s[i]) != KeyOf(s[j])
    {
      if i < |a| && j >= |a| {
        assert s[i] in a && s[j] in b;
      }
    }
  }

  // --- the effect of requesting -----------------------------------------------------------

  /** t is s after requesting the blocks of keys at time now, possibly with fresh pieces begun. */
  ghost predicate Requested(g: Geometry, s: State, t: State, keys: set<nat>, now: nat)
    requires Metainfo.Valid(g)
  {
    && t.have == s.have && t.availability == s.availability && t.bytesDone == s.bytesDone
    && s.progress.Keys <= t.progress.Keys
    && t.pending.Keys == s.pending.Keys + keys
    && (forall k :: k in t.pending ==> t.pending[k] == if k in keys then now else s.pending[k])
    && (forall p :: p in t.progress ==> BlocksRequested(g, s, p, t.progress[p].blocks, keys))
  }

  ghost predicate BlocksRequested(g: Geometry, s: State, p: nat, after: seq<BlockState>, keys: set<nat>)
    requires Metainfo.Valid(g)
  {
    p < g.pieceCount && |after| == BlocksIn(g, p) &&
    forall b :: 0 <= b < |after| ==> after[b] == if Key(p, b * BLOCK) in keys then Pending else BlockAt(s, p, b)
  }

  /** A piece with no block asked for yet. */
  function Fresh(g: Geometry, p: nat): PieceProgress
    requires HasPiece(g, p)
  {
    PieceProgress(seq(BlocksIn(g, p), _ => Free), 0, 0)
  }

  function WithPiece(g: Geometry, t: State, p: nat): State
    requires HasPiece(g, p)
  {
    if p in t.progress then t else t.(progress := t.progress[p := Fresh(g, p)])
  }

  /** Block b of an open piece becomes Pending. */
  function Mark(t: State, p: nat, b: nat, now: nat): State
    requires p in t.progress && b < |t.progress[p].blocks|
  {
    var pr := t.progress[p];
    var next := PieceProgress(pr.blocks[b := Pending], pr.done, if pr.blocks[b] == Free then pr.pending + 1 else pr.pending);
    t.(progress := t.progress[p := next], pending := t.pending[Key(p, b * BLOCK) := now])
  }

  lemma {:induction false} NothingRequested(g: Geometry, s: State, now: nat)
    requires Inv(g, s)
    ensures Requested(g, s, s, {}, now)
  {
  }

  lemma {:induction false} FreshOk(g: Geometry, p: nat)
    requires Metainfo.Valid(g) && p < g.pieceCount
    ensures ProgressOk(Fresh(g, p), BlocksIn(g, p)) && BlocksIn(g, p) > 0
    ensures forall b :: 0 <= b < BlocksIn(g, p) ==> Fresh(g, p).blocks[b] == Free
  {
    CountNone(Fresh(g, p).blocks, Done);
    CountNone(Fresh(g, p).blocks, Pending);
  }

  /** No key of a piece that is neither open nor held is in the table. */
  lemma {:induction false} ClosedPieceHasNoKeys(g: Geometry, t: State, p: nat)
    requires Inv(g, t) && p < g.pieceCount && p !in t.progress && !t.have[p]
    ensures forall b :: 0 <= b < BlocksIn(g, p) ==> Key(p, b * BLOCK) !in t.pending
  {
    forall k | k in t.pending
      ensures KeyPiece(k) != p
    {
      assert KeyOk(g, t, k);
    }
    forall b | 0 <= b < BlocksIn(g, p)
      ensures KeyPiece(Key(p, b * BLOCK)) == p
    {
      BlockKey(g, p, b);
    }
  }

  lemma {:induction false} WithPieceInv(g: Geometry, t: State, p: nat)
    requires Inv(g, t) && p < g.pieceCount && !t.have[p]
    ensures Inv(g, WithPiece(g, t, p))
  {
    if p !in t.progress {
      FreshOk(g, p);
      ClosedPieceHasNoKeys(g, t, p);
      var u := WithPiece(g, t, p);
      assert KeysAgree(u.pending, p, u.progress[p].blocks);
      forall k | k in u.pending
        ensures KeyOk(g, u, k)
      {
        assert KeyOk(g, t, k);
      }
    }
  }

  lemma {:induction false} WithPieceRequested(g: Geometry, s: State, t: State, keys: set<nat>, now: nat, p: nat)
    requires Inv(g, t) && p < g.pieceCount && !t.have[p] && Requested(g, s, t, keys, now)
    ensures Requested(g, s, WithPiece(g, t, p), keys, now)
  {
    if p !in t.progress {
      hide Inv, Key;
      ClosedPieceHasNoKeys(g, t, p);
      FreshOk(g, p);
    }
  }

  lemma {:induction false} MarkInv(g: Geometry, t: State, p: nat, b: nat, now: nat)
    requires Inv(g, t) && p in t.progress && b < |t.progress[p].blocks| && t.progress[p].blocks[b] != Done
    ensures Inv(g, Mark(t, p, b, now))
  {
    hide Key, KeyOk, KeysAgree, ProgressOk;
    var u := Mark(t, p, b, now);
    OpenPieceFits(g, t, p);
    MarkCounts(t.progress[p], BlocksIn(g, p), b);
    forall q | q in u.progress
      ensures KeysAgree(u.pending, q, u.progress[q].blocks)
    {
      MarkKeys(g, t, p, b, now, q);
    }
    MarkKeysOk(g, t, p, b, now);
    assert forall q :: q in u.progress && q != p ==> u.progress[q] == t.progress[q];
  }

  lemma {:induction false} MarkCounts(pr: PieceProgress, size: nat, b: nat)
    requires ProgressOk(pr, size) && b < size && pr.blocks[b] != Done
    ensures ProgressOk(PieceProgress(pr.blocks[b := Pending], pr.done, if pr.blocks[b] == Free then pr.pending + 1 else pr.pending), size)
  {
    CountUpdate(pr.blocks, b, Pending, Done);
    CountUpdate(pr.blocks, b, Pending, Pending);
  }

  lemma {:induction false} MarkKeys(g: Geometry, t: State, p: nat, b: nat, now: nat, q: nat)
    requires Inv(g, t) && p in t.progress && b < |t.progress[p].blocks| && q in t.progress
    ensures var u := Mark(t, p, b, now); KeysAgree(u.pending, q, u.progress[q].blocks)
  {
    BlockNamed(g, t, p, b, q);
    KeysAgreeAt(g, t, q);
    hide Inv, Key;
  }

  /** The key of a block of an open piece names that block and no other. */
  lemma {:induction false} BlockNamed(g: Geometry, t: State, p: nat, b: nat, q: nat)
    requires Inv(g, t) && p in t.progress && b < |t.progress[p].blocks| && q in t.progress
    ensures forall c :: 0 <= c < |t.progress[q].blocks| ==> (Key(q, c * BLOCK) == Key(p, b * BLOCK) <==> q == p && c == b)
  {
    hide Inv, ProgressOk, Key;
    OpenPieceFits(g, t, p);
    OpenPieceFits(g, t, q);
    BlockKey(g, p, b);
    forall c | 0 <= c < |t.progress[q].blocks|
      ensures Key(q, c * BLOCK) == Key(p, b * BLOCK) <==> q == p && c == b
    {
      SameKey(g, q, c, p, b * BLOCK);
    }
  }

  lemma {:induction false} MarkKeysOk(g: Geometry, t: State, p: nat, b: nat, now: nat)
    requires Inv(g, t) && p in t.progress && b < |t.progress[p].blocks|
    ensures var u := Mark(t, p, b, now); forall k :: k in u.pending ==> KeyOk(g, u, k)
  {
    var u := Mark(t, p, b, now);
    OpenPieceFits(g, t, p);
    BlockKey(g, p, b);
    forall k | k in u.pending
      ensures KeyOk(g, u, k)
    {
      if k in t.pending {
        assert KeyOk(g, t, k);
      }
    }
  }

  lemma {:induction false} MarkRequested(g: Geometry, s: State, t: State, keys: set<nat>, now: nat, p: nat, b: nat)
    requires Metainfo.Valid(g) && Inv(g, t) && p in t.progress && b < |t.progress[p].blocks| && Requested(g, s, t, keys, now)
    ensures Requested(g, s, Mark(t, p, b, now), keys + {Key(p, b * BLOCK)}, now)
  {
    hide Inv, Key, BlocksRequested;
    var u, k := Mark(t, p, b, now), Key(p, b * BLOCK);
    forall q | q in u.progress
      ensures BlocksRequested(g, s, q, u.progress[q].blocks, keys + {k})
    {
      assert BlocksRequested(g, s, q, t.progress[q].blocks, keys);
      MarkBlocks(g, s, t, keys, now, p, b, q);
    }
  }

  lemma {:induction false} MarkBlocks(g: Geometry, s: State, t: State, keys: set<nat>, now: nat, p: nat, b: nat, q: nat)
    requires Metainfo.Valid(g) && Inv(g, t) && p in t.progress && b < |t.progress[p].blocks| && q in t.progress
    requires BlocksRequested(g, s, q, t.progress[q].blocks, keys)
    ensures BlocksRequested(g, s, q, Mark(t, p, b, now).progress[q].blocks, keys + {Key(p, b * BLOCK)})
  {
    hide Inv, Key, BlockAt;
    BlockNamed(g, t, p, b, q);
  }

  // --- which blocks of a piece are taken ----------------------------------------------------

  /** The eligible blocks among the first b of a piece, in order. */
  function Wanted(g: Geometry, s: State, p: nat, endgame: bool, b: nat): seq<BlockRequest>
    requires Metainfo.Valid(g) && p < g.pieceCount && b <= BlocksIn(g, p)
  {
    if b == 0 then []
    else Wanted(g, s, p, endgame, b - 1) + (if Eligible(BlockAt(s, p, b - 1), endgame) then [Extent(g, p, b - 1)] else [])
  }

  function FirstOf(rs: seq<BlockRequest>, room: nat): seq<BlockRequest>
  {
    if |rs| <= room then rs else rs[..room]
  }

  lemma {:induction false} WantedPrefix(g: Geometry, s: State, p: nat, endgame: bool, b: nat, c: nat)
    requires Metainfo.Valid(g) && p < g.pieceCount && b <= c <= BlocksIn(g, p)
    ensures Wanted(g, s, p, endgame, b) <= Wanted(g, s, p, endgame, c)
  {
    if b < c {
      WantedPrefix(g, s, p, endgame, b, c - 1);
    }
  }

  /** A request of Wanted is the extent of an eligible block below b. */
  ghost predicate WantedAs(g: Geometry, s: State, p: nat, endgame: bool, b: nat, r: BlockRequest)
    requires Metainfo.Valid(g) && p < g.pieceCount && b <= BlocksIn(g, p)
  {
    exists c: nat :: c < b && Eligible(BlockAt(s, p, c), endgame) && r == Extent(g, p, c)
  }

  lemma {:induction false} WantedSound(g: Geometry, s: State, p: nat, endgame: bool, b: nat)
    requires Metainfo.Valid(g) && p < g.pieceCount && b <= BlocksIn(g, p)
    ensures forall r :: r in Wanted(g, s, p, endgame, b) ==> WantedAs(g, s, p, endgame, b, r)
  {
    if b > 0 {
      WantedSound(g, s, p, endgame, b - 1);
      forall r | r in Wanted(g, s, p, endgame, b)
        ensures WantedAs(g, s, p, endgame, b, r)
      {
        if r in Wanted(g, s, p, endgame, b - 1) {
          assert WantedAs(g, s, p, endgame, b - 1, r);
        }
      }
    }
  }

  lemma {:induction false} WantedComplete(g: Geometry, s: State, p: nat, endgame: bool, b: nat, c: nat)
    requires Metainfo.Valid(g) && p < g.pieceCount && c < b <= BlocksIn(g, p) && Eligible(BlockAt(s, p, c), endgame)
    ensures Extent(g, p, c) in Wanted(g, s, p, endgame, b)
  {
    var w := Wanted(g, s, p, endgame, b);
    if c < b - 1 {
      WantedComplete(g, s, p, endgame, b - 1, c);
    } else {
      assert w[|w| - 1] == Extent(g, p, c);
    }
  }

  lemma {:induction false} WantedAscends(g: Geometry, s: State, p: nat, endgame: bool, b: nat)
    requires Metainfo.Valid(g) && p < g.pieceCount && b <= BlocksIn(g, p)
    ensures forall i :: 0 <= i < |Wanted(g, s, p, endgame, b)| ==> Below(Wanted(g, s, p, endgame, b)[i], p, b * BLOCK)
    ensures Ascending(Wanted(g, s, p, endgame, b))
  {
    if b > 0 {
      WantedAscends(g, s, p, endgame, b - 1);
      hide Eligible, BlockAt;
      AscendingSnoc(Wanted(g, s, p, endgame, b - 1), Extent(g, p, b - 1), p);
    }
  }

  ghost predicate Below(r: BlockRequest, p: nat, limit: nat)
  {
    r.piece == p && r.offset < limit
  }

  ghost predicate Ascending(rs: seq<BlockRequest>)
  {
    forall i, j :: 0 <= i < j < |rs| ==> rs[i].offset < rs[j].offset
  }

  lemma AscendingSnoc(rs: seq<BlockRequest>, r: BlockRequest, p: nat)
    requires Ascending(rs) && forall i :: 0 <= i < |rs| ==> Below(rs[i], p, r.offset)
    ensures Ascending(rs + [r])
  {
  }

  // --- choosing the next piece --------------------------------------------------------------

  /** A piece that could be begun, when the pieces of open are open already. */
  predicate Candidate(g: Geometry, s: State, peer: seq<bool>, open: set<nat>, i: nat)
    requires |s.have| == |s.availability| == g.pieceCount
  {
    i < g.pieceCount && !s.have[i] && Has(peer, i) && i !in open && s.availability[i] > 0
  }

  /** The piece reached after step turns from the cursor. */
  function Turn(g: Geometry, cursor: nat, step: nat): (i: nat)
    requires g.pieceCount > 0
    ensures i < g.pieceCount
  {
    (cursor + step) % g.pieceCount
  }

  /** How many candidates the first step turns meet. */
  function Weighed(g: Geometry, s: State, peer: seq<bool>, open: set<nat>, cursor: nat, step: nat): nat
    requires |s.have| == |s.availability| == g.pieceCount && g.pieceCount > 0
  {
    if step == 0 then 0
    else Weighed(g, s, peer, open, cursor, step - 1) + (if Candidate(g, s, peer, open, Turn(g, cursor, step - 1)) then 1 else 0)
  }

  lemma {:induction false} WeighedGrows(g: Geometry, s: State, peer: seq<bool>, open: set<nat>, cursor: nat, a: nat, b: nat)
    requires |s.have| == |s.availability| == g.pieceCount && g.pieceCount > 0 && a <= b
    ensures Weighed(g, s, peer, open, cursor, a) <= Weighed(g, s, peer, open, cursor, b)
  {
    if a < b {
      WeighedGrows(g, s, peer, open, cursor, a, b - 1);
    }
  }

  /** The candidate met at this turn is one of the first RAREST_SAMPLE candidates from the cursor. */
  ghost predicate Sampled(g: Geometry, s: State, peer: seq<bool>, open: set<nat>, cursor: nat, step: nat)
    requires |s.have| == |s.availability| == g.pieceCount && g.pieceCount > 0
  {
    step < g.pieceCount && Candidate(g, s, peer, open, Turn(g, cursor, step)) && Weighed(g, s, peer, open, cursor, step) < RAREST_SAMPLE
  }

  /** At turn k stands the rarest of the sample, and the first of its rarity, among the turns below limit. */
  ghost predicate RarestAt(g: Geometry, s: State, peer: seq<bool>, open: set<nat>, cursor: nat, k: nat, limit: nat)
    requires |s.have| == |s.availability| == g.pieceCount && g.pieceCount > 0
  {
    var a := s.availability[Turn(g, cursor, k)];
    && k < limit && Sampled(g, s, peer, open, cursor, k) && a < SATURATED
    && (forall j: nat :: j < limit && Sampled(g, s, peer, open, cursor, j) ==> s.availability[Turn(g, cursor, j)] >= a)
    && (forall j: nat :: j < k && Sampled(g, s, peer, open, cursor, j) ==> s.availability[Turn(g, cursor, j)] > a)
  }

  ghost predicate Rarest(g: Geometry, s: State, peer: seq<bool>, open: set<nat>, cursor: nat, best: nat)
    requires |s.have| == |s.availability| == g.pieceCount && g.pieceCount > 0
  {
    exists k: nat :: RarestAt(g, s, peer, open, cursor, k, g.pieceCount) && Turn(g, cursor, k) == best
  }

  /** Every candidate of the sample below limit has a saturated counter, so none can be chosen. */
  ghost predicate NothingToOpen(g: Geometry, s: State, peer: seq<bool>, open: set<nat>, cursor: nat, limit: nat)
    requires |s.have| == |s.availability| == g.pieceCount && g.pieceCount > 0
  {
    forall j: nat :: j < limit && Sampled(g, s, peer, open, cursor, j) ==> s.availability[Turn(g, cursor, j)] == SATURATED
  }

  lemma {:induction false} TurnReaches(g: Geometry, cursor: nat, i: nat)
    requires cursor < g.pieceCount && i < g.pieceCount
    ensures exists k: nat :: k < g.pieceCount && Turn(g, cursor, k) == i
  {
    var k: nat := if i >= cursor then i - cursor else i + g.pieceCount - cursor;
    DivModUnique(cursor + k, g.pieceCount, if i >= cursor then 0 else 1, i);
    assert Turn(g, cursor, k) == i;
  }

  /** The first candidate from the cursor is always in the sample. */
  lemma {:induction false} FirstCandidate(g: Geometry, s: State, peer: seq<bool>, open: set<nat>, cursor: nat, k: nat) returns (j: nat)
    requires |s.have| == |s.availability| == g.pieceCount && k < g.pieceCount
    requires Candidate(g, s, peer, open, Turn(g, cursor, k))
    ensures j <= k && Sampled(g, s, peer, open, cursor, j) && Weighed(g, s, peer, open, cursor, j) == 0
  {
    hide Candidate, Turn;
    if Weighed(g, s, peer, open, cursor, k) == 0 {
      j := k;
    } else {
      var m := LastBefore(g, s, peer, open, cursor, k);
      j := FirstCandidate(g, s, peer, open, cursor, m);
    }
  }

  lemma {:induction false} LastBefore(g: Geometry, s: State, peer: seq<bool>, open: set<nat>, cursor: nat, k: nat) returns (m: nat)
    requires |s.have| == |s.availability| == g.pieceCount && g.pieceCount > 0 && Weighed(g, s, peer, open, cursor, k) > 0
    ensures m < k && Candidate(g, s, peer, open, Turn(g, cursor, m))
  {
    hide Candidate, Turn;
    m := k - 1;
    if !Candidate(g, s, peer, open, Turn(g, cursor, k - 1)) {
      m := LastBefore(g, s, peer, open, cursor, k - 1);
    }
  }

  /** Without a saturated counter, nothing to open means that no candidate is left at all. */
  lemma {:induction false} NothingLeft(g: Geometry, s: State, peer: seq<bool>, open: set<nat>, cursor: nat)
    requires |s.have| == |s.availability| == g.pieceCount && cursor < g.pieceCount
    requires NothingToOpen(g, s, peer, open, cursor, g.pieceCount)
    requires forall i :: 0 <= i < g.pieceCount ==> s.availability[i] != SATURATED
    ensures forall i :: 0 <= i < g.pieceCount ==> !Candidate(g, s, peer, open, i)
  {
    forall i | 0 <= i < g.pieceCount
      ensures !Candidate(g, s, peer, open, i)
    {
      TurnReaches(g, cursor, i);
      if Candidate(g, s, peer, open, i) {
        NotAllSaturated(g, s, peer, open, cursor, i);
      }
    }
  }

  lemma {:induction false} NotAllSaturated(g: Geometry, s: State, peer: seq<bool>, open: set<nat>, cursor: nat, i: nat)
    requires |s.have| == |s.availability| == g.pieceCount && cursor < g.pieceCount
    requires Candidate(g, s, peer, open, i) && NothingToOpen(g, s, peer, open, cursor, g.pieceCount)
    ensures exists c :: 0 <= c < g.pieceCount && s.availability[c] == SATURATED
  {
    TurnReaches(g, cursor, i);
    var k: nat :| k < g.pieceCount && Turn(g, cursor, k) == i;
    var j := FirstCandidate(g, s, peer, open, cursor, k);
    assert s.availability[Turn(g, cursor, j)] == SATURATED;
  }

  function CursorAfter(g: Geometry, cursor: nat, begun: seq<nat>): nat
    requires g.pieceCount > 0
  {
    if |begun| == 0 then cursor else (begun[|begun| - 1] + 1) % g.pieceCount
  }

  ghost function Items(begun: seq<nat>): set<nat>
  {
    set p | p in begun
  }

  /** Each piece was the rarest of the sample when it was begun. */
  ghost predicate OpenedInOrder(g: Geometry, s: State, peer: seq<bool>, begun: seq<nat>)
    requires |s.have| == |s.availability| == g.pieceCount && g.pieceCount > 0
  {
    forall j :: 0 <= j < |begun| ==>
      Rarest(g, s, peer, s.progress.Keys + Items(begun[..j]), CursorAfter(g, s.cursor, begun[..j]), begun[j])
  }

  lemma {:induction false} OpenedSnoc(g: Geometry, s: State, peer: seq<bool>, begun: seq<nat>, p: nat)
    requires |s.have| == |s.availability| == g.pieceCount && g.pieceCount > 0
    requires OpenedInOrder(g, s, peer, begun)
    requires Rarest(g, s, peer, s.progress.Keys + Items(begun), CursorAfter(g, s.cursor, begun), p)
    ensures OpenedInOrder(g, s, peer, begun + [p]) && Items(begun + [p]) == Items(begun) + {p}
  {
    hide Rarest;
    var all := begun + [p];
    assert all[..|begun|] == begun;
    forall j | 0 <= j < |all|
      ensures Rarest(g, s, peer, s.progress.Keys + Items(all[..j]), CursorAfter(g, s.cursor, all[..j]), all[j])
    {
      if j < |begun| {
        assert all[..j] == begun[..j];
      }
    }
  }

  // --- what one piece contributes -------------------------------------------------------------

  ghost predicate NoKeysOf(keys: set<nat>, p: nat)
  {
    forall k :: k in keys ==> KeyPiece(k) != p
  }

  ghost predicate AllTaken(g: Geometry, s: State, endgame: bool, p: nat, keys: set<nat>)
    requires Metainfo.Valid(g) && p < g.pieceCount
  {
    forall c: nat :: c < BlocksIn(g, p) && Eligible(BlockAt(s, p, c), endgame) ==> Key(p, c * BLOCK) in keys
  }

  /** No block is asked for while an earlier eligible block of its piece is passed over. */
  ghost predicate EarliestFirst(g: Geometry, s: State, endgame: bool, p: nat, keys: set<nat>)
    requires Metainfo.Valid(g) && p < g.pieceCount
  {
    forall b: nat, c: nat :: b < c < BlocksIn(g, p) && Eligible(BlockAt(s, p, b), endgame) && Key(p, c * BLOCK) in keys
      ==> Key(p, b * BLOCK) in keys
  }

  /** Keys of other pieces do not touch the blocks of p. */
  lemma {:induction false} BlocksUntouched(g: Geometry, s: State, t: State, keys: set<nat>, now: nat, p: nat, b: nat)
    requires Metainfo.Valid(g) && Requested(g, s, t, keys, now) && p in t.progress
    requires b < BlocksIn(g, p) && Key(p, b * BLOCK) !in keys
    ensures b < |t.progress[p].blocks| && t.progress[p].blocks[b] == BlockAt(s, p, b)
  {
    assert BlocksRequested(g, s, p, t.progress[p].blocks, keys);
  }

  lemma {:induction false} NextKeyNew(g: Geometry, s: State, keys: set<nat>, p: nat, endgame: bool, b: nat)
    requires Metainfo.Valid(g) && p < g.pieceCount && b < BlocksIn(g, p) && NoKeysOf(keys, p)
    ensures Key(p, b * BLOCK) !in keys + KeysOf(Wanted(g, s, p, endgame, b))
  {
    hide Key, KeyPiece, Eligible, BlockAt;
    BlockKey(g, p, b);
    WantedAscends(g, s, p, endgame, b);
    forall r | r in Wanted(g, s, p, endgame, b)
      ensures KeyOf(r) != Key(p, b * BLOCK)
    {
      SameKey(g, p, b, r.piece, r.offset);
    }
  }

  lemma {:induction false} WantedKey(g: Geometry, s: State, p: nat, endgame: bool, n: nat, c: nat)
    requires Metainfo.Valid(g) && p < g.pieceCount && n <= BlocksIn(g, p) && c < BlocksIn(g, p)
    ensures Key(p, c * BLOCK) in KeysOf(Wanted(g, s, p, endgame, n)) <==> c < n && Eligible(BlockAt(s, p, c), endgame)
  {
    hide Key, KeyPiece, Eligible, BlockAt, Wanted, BlocksIn, SizeOfPiece, Contiguous;
    var w := Wanted(g, s, p, endgame, n);
    if c < n && Eligible(BlockAt(s, p, c), endgame) {
      WantedComplete(g, s, p, endgame, n, c);
      assert KeyOf(Extent(g, p, c)) in KeysOf(w);
    }
    if Key(p, c * BLOCK) in KeysOf(w) {
      var r :| r in w && KeyOf(r) == Key(p, c * BLOCK);
      WantedSound(g, s, p, endgame, n);
      assert WantedAs(g, s, p, endgame, n, r);
      var d: nat :| d < n && Eligible(BlockAt(s, p, d), endgame) && r == Extent(g, p, d);
      BlockKey(g, p, d);
      SameKey(g, p, c, p, d * BLOCK);
    }
  }

  /** Taking the first room wanted blocks is taking all the wanted blocks below some point. */
  lemma {:induction false} FirstIsPrefix(g: Geometry, s: State, p: nat, endgame: bool, n: nat, room: nat) returns (m: nat)
    requires Metainfo.Valid(g) && p < g.pieceCount && n <= BlocksIn(g, p)
    ensures m <= n && FirstOf(Wanted(g, s, p, endgame, n), room) == Wanted(g, s, p, endgame, m)
    ensures |Wanted(g, s, p, endgame, m)| < room ==> m == n
  {
    hide Eligible, BlockAt;
    if |Wanted(g, s, p, endgame, n)| <= room {
      m := n;
    } else {
      m := FirstIsPrefix(g, s, p, endgame, n - 1, room);
      WantedPrefix(g, s, p, endgame, n - 1, n);
    }
  }

  lemma {:induction false} TakenFacts(g: Geometry, s: State, p: nat, endgame: bool, room: nat, taken: seq<BlockRequest>)
    requires Metainfo.Valid(g) && p < g.pieceCount && taken == FirstOf(Wanted(g, s, p, endgame, BlocksIn(g, p)), room)
    ensures |taken| <= room && Distinct(taken)
    ensures forall r :: r in taken ==> r.piece == p && WantedAs(g, s, p, endgame, BlocksIn(g, p), r)
    ensures |taken| < room ==> AllTaken(g, s, endgame, p, KeysOf(taken))
    ensures EarliestFirst(g, s, endgame, p, KeysOf(taken))
  {
    var n := BlocksIn(g, p);
    var m := FirstIsPrefix(g, s, p, endgame, n, room);
    WantedSound(g, s, p, endgame, n);
    hide Eligible, BlockAt, Key, Wanted, KeysOf, WantedAs;
    forall c: nat | c < n
      ensures Key(p, c * BLOCK) in KeysOf(taken) <==> c < m && Eligible(BlockAt(s, p, c), endgame)
    {
      WantedKey(g, s, p, endgame, m, c);
    }
    TakenPieces(g, s, p, endgame, m);
  }

  lemma {:induction false} TakenPieces(g: Geometry, s: State, p: nat, endgame: bool, m: nat)
    requires Metainfo.Valid(g) && p < g.pieceCount && m <= BlocksIn(g, p)
    ensures Distinct(Wanted(g, s, p, endgame, m))
    ensures forall r :: r in Wanted(g, s, p, endgame, m) ==> r.piece == p
  {
    hide Wanted;
    WantedAscends(g, s, p, endgame, m);
    AscendingDistinct(Wanted(g, s, p, endgame, m), p);
  }

  lemma AscendingDistinct(w: seq<BlockRequest>, p: nat)
    requires Ascending(w) && forall i :: 0 <= i < |w| ==> w[i].piece == p
    ensures Distinct(w)
  {
  }

  /** A piece whose counters account for all its blocks has no Free block. */
  lemma {:induction false} NoFreeBlock(g: Geometry, s: State, p: nat)
    requires Inv(g, s) && p in s.progress && s.progress[p].done + s.progress[p].pending >= |s.progress[p].blocks|
    ensures forall b :: 0 <= b < |s.progress[p].blocks| ==> s.progress[p].blocks[b] != Free
  {
    var blocks := s.progress[p].blocks;
    assert ProgressOk(s.progress[p], BlocksIn(g, p));
    hide Inv;
    CountSum(blocks);
    forall b | 0 <= b < |blocks|
      ensures blocks[b] != Free
    {
      if blocks[b] == Free {
        CountPositive(blocks, b, Free);
      }
    }
  }

  // --- what a whole pick has asked for --------------------------------------------------------

  /** A request pick may make: of a piece the peer has and we lack, a block that is eligible. */
  ghost predicate RequestOk(g: Geometry, s: State, peer: seq<bool>, endgame: bool, r: BlockRequest)
    requires Metainfo.Valid(g) && |s.have| == |s.availability| == g.pieceCount
  {
    && r.piece < g.pieceCount && !s.have[r.piece] && Has(peer, r.piece)
    && (r.piece in s.progress || s.availability[r.piece] > 0)
    && WantedAs(g, s, r.piece, endgame, BlocksIn(g, r.piece), r)
  }

  /** The requests so far, all of pieces in visited. */
  ghost predicate Picked(g: Geometry, s: State, peer: seq<bool>, endgame: bool, out: seq<BlockRequest>, visited: set<nat>)
    requires Metainfo.Valid(g) && |s.have| == |s.availability| == g.pieceCount
  {
    && Distinct(out)
    && (forall r :: r in out ==> RequestOk(g, s, peer, endgame, r) && r.piece in visited)
    && (forall p: nat :: p < g.pieceCount ==> EarliestFirst(g, s, endgame, p, KeysOf(out)))
  }

  /** Every eligible block of these pieces that the peer has is asked for. */
  ghost predicate Exhausted(g: Geometry, s: State, peer: seq<bool>, endgame: bool, pieces: set<nat>, keys: set<nat>)
    requires Metainfo.Valid(g)
  {
    forall p :: p in pieces && p < g.pieceCount && Has(peer, p) ==> AllTaken(g, s, endgame, p, keys)
  }

  /** No block is left that nobody was asked for, in any piece we lack, the peer has, and that is open or known of. */
  ghost predicate NothingFree(g: Geometry, t: State, peer: seq<bool>)
    requires Metainfo.Valid(g) && |t.have| == |t.availability| == g.pieceCount
  {
    forall p :: 0 <= p < g.pieceCount && Has(peer, p) && !t.have[p] && (p in t.progress || t.availability[p] > 0) ==> NoneFree(g, t, p)
  }

  ghost predicate NoneFree(g: Geometry, t: State, p: nat)
    requires Metainfo.Valid(g) && p < g.pieceCount
  {
    p in t.progress && forall c :: 0 <= c < BlocksIn(g, p) ==> BlockAt(t, p, c) != Free
  }

  /** Nothing open is left to ask for and nothing is left to open: unless a counter is saturated, the peer has no work to give. */
  lemma {:induction false} WorkConserved(g: Geometry, s: State, t: State, peer: seq<bool>, endgame: bool, keys: set<nat>, now: nat)
    requires Inv(g, t) && Metainfo.Valid(g) && Requested(g, s, t, keys, now) && |t.have| == |t.availability| == g.pieceCount > 0
    requires Exhausted(g, s, peer, endgame, t.progress.Keys, keys)
    requires NothingToOpen(g, t, peer, t.progress.Keys, t.cursor, g.pieceCount)
    requires forall i :: 0 <= i < g.pieceCount ==> t.availability[i] != SATURATED
    ensures NothingFree(g, t, peer)
  {
    StateShape(g, t);
    NothingLeft(g, t, peer, t.progress.Keys, t.cursor);
    hide Inv, Key, NothingToOpen;
    forall p | 0 <= p < g.pieceCount && Has(peer, p) && !t.have[p] && (p in t.progress || t.availability[p] > 0)
      ensures NoneFree(g, t, p)
    {
      assert !Candidate(g, t, peer, t.progress.Keys, p);
      assert AllTaken(g, s, endgame, p, keys);
      assert BlocksRequested(g, s, p, t.progress[p].blocks, keys);
    }
  }

  lemma {:induction false} RequestKey(g: Geometry, s: State, peer: seq<bool>, endgame: bool, r: BlockRequest)
    requires Metainfo.Valid(g) && |s.have| == |s.availability| == g.pieceCount && RequestOk(g, s, peer, endgame, r)
    ensures KeyPiece(KeyOf(r)) == r.piece
  {
    hide Key, KeyPiece, Eligible, BlockAt, Has;
    var c: nat :| c < BlocksIn(g, r.piece) && Eligible(BlockAt(s, r.piece, c), endgame) && r == Extent(g, r.piece, c);
    BlockKey(g, r.piece, c);
  }

  lemma {:induction false} PickedKeys(g: Geometry, s: State, peer: seq<bool>, endgame: bool, out: seq<BlockRequest>, visited: set<nat>, p: nat)
    requires Metainfo.Valid(g) && |s.have| == |s.availability| == g.pieceCount && Picked(g, s, peer, endgame, out, visited)
    requires p !in visited
    ensures NoKeysOf(KeysOf(out), p)
  {
    hide KeyPiece, RequestOk, KeyOf, EarliestFirst, Distinct;
    forall r | r in out
      ensures KeyPiece(KeyOf(r)) == r.piece
    {
      RequestKey(g, s, peer, endgame, r);
    }
  }

  lemma {:induction false} TakenKeys(g: Geometry, s: State, p: nat, endgame: bool, taken: seq<BlockRequest>, q: nat)
    requires Metainfo.Valid(g) && p < g.pieceCount && q != p
    requires forall r :: r in taken ==> r.piece == p && WantedAs(g, s, p, endgame, BlocksIn(g, p), r)
    ensures NoKeysOf(KeysOf(taken), q)
  {
    hide Key, KeyPiece, Eligible, BlockAt;
    forall r | r in taken
      ensures KeyPiece(KeyOf(r)) == p
    {
      var c: nat :| c < BlocksIn(g, p) && Eligible(BlockAt(s, p, c), endgame) && r == Extent(g, p, c);
      BlockKey(g, p, c);
    }
  }

  lemma {:induction false} EarliestSum(g: Geometry, s: State, endgame: bool, p: nat, keys: set<nat>, others: set<nat>)
    requires Metainfo.Valid(g) && p < g.pieceCount && EarliestFirst(g, s, endgame, p, keys) && NoKeysOf(others, p)
    ensures EarliestFirst(g, s, endgame, p, keys + others) && EarliestFirst(g, s, endgame, p, others + keys)
  {
    forall c: nat | c < BlocksIn(g, p)
      ensures Key(p, c * BLOCK) !in others
    {
      BlockKey(g, p, c);
    }
    hide Key, KeyPiece, Eligible, BlockAt;
  }

  lemma {:induction false} PickedMore(g: Geometry, s: State, peer: seq<bool>, endgame: bool, out: seq<BlockRequest>, visited: set<nat>,
                                      p: nat, room: nat, taken: seq<BlockRequest>)
    requires Metainfo.Valid(g) && |s.have| == |s.availability| == g.pieceCount && Picked(g, s, peer, endgame, out, visited)
    requires p < g.pieceCount && p !in visited && !s.have[p] && Has(peer, p) && (p in s.progress || s.availability[p] > 0)
    requires taken == FirstOf(Wanted(g, s, p, endgame, BlocksIn(g, p)), room)
    ensures Picked(g, s, peer, endgame, out + taken, visited + {p})
    ensures |taken| <= room && (|taken| < room ==> AllTaken(g, s, endgame, p, KeysOf(out + taken)))
  {
    hide Wanted, FirstOf, Distinct, KeysOf, WantedAs, EarliestFirst, NoKeysOf, Has;
    TakenFacts(g, s, p, endgame, room, taken);
    PickedKeys(g, s, peer, endgame, out, visited, p);
    KeysOfSum(out, taken);
    assert Distinct(out + taken) by {
      DistinctAcross(g, s, peer, endgame, out, visited, taken, p);
    }
    forall q: nat | q < g.pieceCount
      ensures EarliestFirst(g, s, endgame, q, KeysOf(out + taken))
    {
      if q == p {
        EarliestSum(g, s, endgame, q, KeysOf(taken), KeysOf(out));
      } else {
        TakenKeys(g, s, p, endgame, taken, q);
        EarliestSum(g, s, endgame, q, KeysOf(out), KeysOf(taken));
      }
    }
  }

  lemma {:induction false} DistinctAcross(g: Geometry, s: State, peer: seq<bool>, endgame: bool, out: seq<BlockRequest>, visited: set<nat>,
                                          taken: seq<BlockRequest>, p: nat)
    requires Metainfo.Valid(g) && |s.have| == |s.availability| == g.pieceCount && Picked(g, s, peer, endgame, out, visited)
    requires p < g.pieceCount && p !in visited && Distinct(taken)
    requires forall r :: r in taken ==> r.piece == p && WantedAs(g, s, p, endgame, BlocksIn(g, p), r)
    ensures Distinct(out + taken)
  {
    hide WantedAs, KeyPiece, Distinct, EarliestFirst, RequestOk, KeyOf;
    PickedKeys(g, s, peer, endgame, out, visited, p);
    forall r | r in taken
      ensures KeyPiece(KeyOf(r)) == p
    {
      TakenKeyPiece(g, s, p, endgame, r);
    }
    forall r, q | r in out && q in taken
      ensures KeyOf(r) != KeyOf(q)
    {
      assert KeyOf(r) in KeysOf(out);
    }
    DistinctSum(out, taken);
  }

  lemma {:induction false} TakenKeyPiece(g: Geometry, s: State, p: nat, endgame: bool, r: BlockRequest)
    requires Metainfo.Valid(g) && p < g.pieceCount && r.piece == p && WantedAs(g, s, p, endgame, BlocksIn(g, p), r)
    ensures KeyPiece(KeyOf(r)) == p
  {
    hide Key, KeyPiece, Eligible, BlockAt;
    var c: nat :| c < BlocksIn(g, p) && Eligible(BlockAt(s, p, c), endgame) && r == Extent(g, p, c);
    BlockKey(g, p, c);
  }

  lemma {:induction false} ExhaustedMore(g: Geometry, s: State, peer: seq<bool>, endgame: bool, pieces: set<nat>, p: nat, keys: set<nat>, more: set<nat>)
    requires Metainfo.Valid(g) && p < g.pieceCount && Exhausted(g, s, peer, endgame, pieces, keys) && keys <= more
    requires Has(peer, p) ==> AllTaken(g, s, endgame, p, more)
    ensures Exhausted(g, s, peer, endgame, pieces + {p}, more)
  {
    hide Key, Eligible, BlockAt, Has;
  }

  /** An open piece whose blocks are all asked for or in has nothing to give outside the endgame. */
  lemma {:induction false} NothingEligible(g: Geometry, s: State, p: nat, keys: set<nat>)
    requires Inv(g, s) && p in s.progress && p < g.pieceCount
    requires s.progress[p].done + s.progress[p].pending >= |s.progress[p].blocks|
    ensures AllTaken(g, s, false, p, keys)
  {
    NoFreeBlock(g, s, p);
    OpenPieceFits(g, s, p);
    hide Inv, Key;
  }

  /** A piece neither open nor held yields at least one block. */
  lemma {:induction false} FreshGives(g: Geometry, s: State, p: nat, endgame: bool, room: nat)
    requires Metainfo.Valid(g) && p < g.pieceCount && p !in s.progress && room > 0
    ensures |FirstOf(Wanted(g, s, p, endgame, BlocksIn(g, p)), room)| > 0
  {
    FreshOk(g, p);
    WantedComplete(g, s, p, endgame, BlocksIn(g, p), 0);
  }

  lemma {:induction false} AllTakenBefore(g: Geometry, s: State, t: State, keys: set<nat>, now: nat, endgame: bool, p: nat, more: set<nat>)
    requires Metainfo.Valid(g) && p < g.pieceCount && Requested(g, s, t, keys, now) && p in t.progress && NoKeysOf(keys, p)
    requires AllTaken(g, t, endgame, p, more)
    ensures AllTaken(g, s, endgame, p, more)
  {
    hide Key, Eligible, KeyPiece, Requested;
    forall c: nat | c < BlocksIn(g, p) && Eligible(BlockAt(s, p, c), endgame)
      ensures Key(p, c * BLOCK) in more
    {
      BlockKey(g, p, c);
      BlocksUntouched(g, s, t, keys, now, p, c);
    }
  }
}
