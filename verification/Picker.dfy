/** The request allocator as the object the session calls. */
module PiecePicker {
  import opened Arith
  import opened Counting
  import opened Metainfo
  import opened PickerState
  import opened PickRules

  // --- the object ---------------------------------------------------------------------------

  class Picker {
    const geometry: Geometry
    var have: seq<bool>
    var availability: seq<nat>
    var progress: map<nat, PieceProgress>
    var pending: map<nat, nat>
    var bytesDone: nat
    var pickCursor: nat

    ghost function S(): State
      reads this
    {
      State(have, availability, progress, pending, bytesDone, pickCursor)
    }

    ghost predicate Valid()
      reads this
    {
      Inv(geometry, S())
    }

    constructor (g: Geometry)
      requires Metainfo.Valid(g)
      ensures Valid() && geometry == g && S() == Init(g)
    {
      InitInv(g);
      geometry := g;
      have, availability := seq(g.pieceCount, _ => false), seq(g.pieceCount, _ => 0);
      progress, pending, bytesDone, pickCursor := map[], map[], 0, 0;
    }

    method SetHave(piece: nat)
      requires Valid()
      modifies this
      ensures Valid() && S() == PickerState.SetHave(geometry, old(S()), piece)
    {
      SetHaveInv(geometry, S(), piece);
      if piece >= geometry.pieceCount || have[piece] {
        return;
      }
      have := have[piece := true];
      bytesDone := bytesDone + SizeOfPiece(geometry, piece);
      progress := progress - {piece};
    }

    method PeerAdded(pieces: seq<bool>)
      requires Valid()
      modifies this`availability
      ensures Valid() && |availability| == |old(availability)|
      ensures forall i :: 0 <= i < |availability| ==>
                availability[i] == old(availability)[i] + (if i < |pieces| && pieces[i] && old(availability)[i] < SATURATED then 1 else 0)
    {
      var n := if |pieces| < geometry.pieceCount then |pieces| else geometry.pieceCount;
      for i := 0 to n
        invariant |availability| == |old(availability)|
        invariant forall j :: 0 <= j < |availability| ==>
                    availability[j] == old(availability)[j] + (if j < i && pieces[j] && old(availability)[j] < SATURATED then 1 else 0)
      {
        if pieces[i] && availability[i] < SATURATED {
          availability := availability[i := availability[i] + 1];
        }
      }
    }

    method PeerRemoved(pieces: seq<bool>)
      requires Valid()
      modifies this`availability
      ensures Valid() && |availability| == |old(availability)|
      ensures forall i :: 0 <= i < |availability| ==>
                availability[i] == old(availability)[i] - (if i < |pieces| && pieces[i] && old(availability)[i] > 0 then 1 else 0)
    {
      var n := if |pieces| < geometry.pieceCount then |pieces| else geometry.pieceCount;
      for i := 0 to n
        invariant |availability| == |old(availability)|
        invariant forall j :: 0 <= j < |availability| ==>
                    availability[j] == old(availability)[j] - (if j < i && pieces[j] && old(availability)[j] > 0 then 1 else 0)
      {
        if pieces[i] && availability[i] > 0 {
          availability := availability[i := availability[i] - 1];
        }
      }
    }

    method OnBlockReceived(piece: nat, offset: nat) returns (full: bool)
      requires Valid()
      modifies this
      ensures Valid() && (S(), full) == Receive(geometry, old(S()), piece, offset)
      ensures ComesIn(old(S()), piece, offset, S(), full)
    {
      hide Inv, Key, ComesIn;
      ReceiveInv(geometry, S(), piece, offset);
      Received(geometry, S(), piece, offset);
      StateShape(geometry, S());
      if piece >= geometry.pieceCount || have[piece] {
        return false;
      }
      if offset % BLOCK != 0 {
        return false;
      }
      var index := offset / BLOCK;
      if piece !in progress {
        return false;
      }
      var prog := progress[piece];
      if index >= |prog.blocks| {
        return false;
      }
      pending := pending - {Key(piece, offset)};
      if prog.blocks[index] == Done {
        return false;  // a duplicate, in the endgame
      }
      if prog.blocks[index] == Pending && prog.pending > 0 {
        prog := prog.(pending := prog.pending - 1);
      }
      prog := prog.(blocks := prog.blocks[index := Done], done := prog.done + 1);
      progress := progress[piece := prog];
      return prog.done == |prog.blocks|;
    }

    method OnRequestDropped(piece: nat, offset: nat)
      requires Valid()
      modifies this
      ensures S() == Drop(geometry, old(S()), piece, offset)
    {
      pending := pending - {Key(piece, offset)};
      if piece !in progress {
        return;
      }
      var prog := progress[piece];
      var index := offset / BLOCK;
      if index >= |prog.blocks| {
        return;
      }
      if prog.blocks[index] == Pending {
        prog := prog.(blocks := prog.blocks[index := Free]);
        if prog.pending > 0 {
          prog := prog.(pending := prog.pending - 1);
        }
        progress := progress[piece := prog];
      }
    }

    method OnPieceVerified(piece: nat, ok: bool)
      requires Valid()
      modifies this
      ensures Valid() && S() == Verified(geometry, old(S()), piece, ok)
    {
      VerifiedInv(geometry, S(), piece, ok);
      if ok {
        SetHave(piece);
        return;
      }
      if piece in progress {
        progress := progress[piece := PieceProgress(seq(|progress[piece].blocks|, _ => Free), 0, 0)];
      }
      pending := map k | k in pending && KeyPiece(k) != piece :: pending[k];
    }

    /** One turn of the expiry loop. */
    method ExpireOne(k: nat, ghost s0: State, ghost D: set<nat>)
      requires Valid() && Inv(geometry, s0) && Released(s0, S(), D) && k in pending
      modifies this
      ensures Valid() && Released(s0, S(), D + {k}) && pending == old(pending) - {k}
    {
      hide Inv, Released, KeyPiece, KeyOffset, Key;
      ReleaseOne(geometry, s0, S(), D, k);
      PendingKeyAligned(geometry, S(), k);
      OnRequestDropped(KeyPiece(k), KeyOffset(k));
    }

    /** Frees the blocks requested too long ago; the table may be walked in any order. */
    method ExpireRequests(now: nat, timeout: nat) returns (freed: nat)
      requires Valid()
      modifies this
      ensures Valid()
      ensures Released(old(S()), S(), Expired(old(pending), now, timeout)) && freed == |Expired(old(pending), now, timeout)|
    {
      hide Inv, BlocksReleased, IsExpired, Drop;
      freed := 0;
      ghost var s0, D := S(), {};
      var todo := pending.Keys;
      NothingReleased(S());
      while todo != {}
        invariant Valid() && Released(s0, S(), D) && freed == |D|
        invariant todo !! D && todo <= pending.Keys && D <= s0.pending.Keys
        invariant forall k :: k in s0.pending && k !in todo ==> (k in D <==> IsExpired(now, s0.pending[k], timeout))
        decreases todo
      {
        var k :| k in todo;
        todo := todo - {k};
        if IsExpired(now, pending[k], timeout) {
          ExpireOne(k, s0, D);
          D := D + {k};
          freed := freed + 1;
        }
      }
      assert D == Expired(s0.pending, now, timeout);
    }

    method PeerHas(piece: nat)
      requires Valid()
      modifies this`availability
      ensures Valid() && |availability| == |old(availability)|
      ensures forall i :: 0 <= i < |availability| ==>
                availability[i] == old(availability)[i] + (if i == piece && old(availability)[i] < SATURATED then 1 else 0)
    {
      if piece < |availability| && availability[piece] < SATURATED {
        availability := availability[piece := availability[piece] + 1];
      }
    }

    // --- selection --------------------------------------------------------------------------

    /** progress_for: opens the piece when it is not open yet. */
    method ProgressFor(piece: nat, ghost s: State, ghost keys: set<nat>, ghost now: nat)
      requires Valid() && piece < geometry.pieceCount && piece < |have| && !have[piece] && Requested(geometry, s, S(), keys, now)
      modifies this`progress
      ensures Valid() && Requested(geometry, s, S(), keys, now)
      ensures progress.Keys == old(progress.Keys) + {piece} && |progress[piece].blocks| == BlocksIn(geometry, piece)
    {
      hide Inv, Requested;
      WithPieceInv(geometry, S(), piece);
      WithPieceRequested(geometry, s, S(), keys, now, piece);
      StateShape(geometry, S());
      if piece !in progress {
        progress := progress[piece := Fresh(geometry, piece)];
      } else {
        OpenPieceFits(geometry, S(), piece);
      }
    }

    /** One block asked for. */
    method Ask(piece: nat, b: nat, now: nat, ghost s: State, ghost keys: set<nat>)
      requires Valid() && piece in progress && b < |progress[piece].blocks| && progress[piece].blocks[b] != Done
      requires Requested(geometry, s, S(), keys, now)
      modifies this`progress, this`pending
      ensures Valid() && Requested(geometry, s, S(), keys + {Key(piece, b * BLOCK)}, now)
      ensures progress.Keys == old(progress.Keys) && |progress[piece].blocks| == |old(progress)[piece].blocks|
    {
      hide Inv, Requested, Key;
      StateShape(geometry, S());
      MarkInv(geometry, S(), piece, b, now);
      MarkRequested(geometry, s, S(), keys, now, piece, b);
      var prog := progress[piece];
      if prog.blocks[b] == Free {
        prog := prog.(blocks := prog.blocks[b := Pending], pending := prog.pending + 1);
      }
      assert prog.blocks == old(progress)[piece].blocks[b := Pending];
      progress := progress[piece := prog];
      pending := pending[Key(piece, b * BLOCK) := now];
    }

    /** One turn of take_from: asks for block b if it may be asked for. */
    method TakeBlock(piece: nat, b: nat, endgame: bool, now: nat, ghost s: State, ghost keys: set<nat>, taken: seq<BlockRequest>)
      returns (more: seq<BlockRequest>)
      requires Valid() && piece < geometry.pieceCount && piece in progress && b < |progress[piece].blocks| == BlocksIn(geometry, piece)
      requires Requested(geometry, s, S(), keys + KeysOf(taken), now) && NoKeysOf(keys, piece)
      requires taken == Wanted(geometry, s, piece, endgame, b)
      modifies this`progress, this`pending
      ensures Valid() && Requested(geometry, s, S(), keys + KeysOf(more), now) && |more| <= |taken| + 1
      ensures more == Wanted(geometry, s, piece, endgame, b + 1)
      ensures progress.Keys == old(progress.Keys) && |progress[piece].blocks| == |old(progress)[piece].blocks|
    {
      NextKeyNew(geometry, s, keys, piece, endgame, b);
      BlocksUntouched(geometry, s, S(), keys + KeysOf(taken), now, piece, b);
      hide Inv, Requested, Eligible, Key, NoKeysOf, BlockAt, KeysOf, BlocksIn;
      var free := progress[piece].blocks[b] == Free;
      var retryable := endgame && progress[piece].blocks[b] == Pending;
      EligibleIff(progress[piece].blocks[b], endgame);
      more := taken;
      if free || retryable {
        var r := Extent(geometry, piece, b);
        Ask(piece, b, now, s, keys + KeysOf(taken));
        KeysOfSnoc(keys, taken, r);
        more := taken + [r];
      }
    }

    /** take_from: asks for the first blocks of the piece that may be asked for. */
    method TakeFrom(piece: nat, room: nat, endgame: bool, now: nat, ghost s: State, ghost keys: set<nat>)
      returns (taken: seq<BlockRequest>)
      requires Valid() && piece < geometry.pieceCount && piece < |have| && !have[piece]
      requires Requested(geometry, s, S(), keys, now) && NoKeysOf(keys, piece)
      modifies this`progress, this`pending
      ensures Valid() && Requested(geometry, s, S(), keys + KeysOf(taken), now)
      ensures taken == FirstOf(Wanted(geometry, s, piece, endgame, BlocksIn(geometry, piece)), room)
      ensures progress.Keys == old(progress.Keys) + {piece}
    {
      WantedFromNothing(geometry, s, piece, endgame, keys, S());
      hide *;
      ProgressFor(piece, s, keys, now);
      taken := TakeBlocks(piece, room, endgame, now, s, keys);
    }

    /** The loop of take_from. */
    method TakeBlocks(piece: nat, room: nat, endgame: bool, now: nat, ghost s: State, ghost keys: set<nat>)
      returns (taken: seq<BlockRequest>)
      requires Valid() && piece < geometry.pieceCount && piece in progress && |progress[piece].blocks| == BlocksIn(geometry, piece)
      requires Metainfo.Valid(geometry) && HasPiece(geometry, piece) && Wanted(geometry, s, piece, endgame, 0) == []
      requires Requested(geometry, s, S(), keys + KeysOf([]), now) && NoKeysOf(keys, piece)
      modifies this`progress, this`pending
      ensures Valid() && Requested(geometry, s, S(), keys + KeysOf(taken), now)
      ensures taken == FirstOf(Wanted(geometry, s, piece, endgame, BlocksIn(geometry, piece)), room)
      ensures progress.Keys == old(progress.Keys)
    {
      hide *;
      var b, n := 0, |progress[piece].blocks|;
      taken := [];
      while b < n && |taken| < room
        invariant 0 <= b <= n == BlocksIn(geometry, piece) && |taken| <= room
        invariant progress.Keys == old(progress.Keys) && piece in progress && |progress[piece].blocks| == n
        invariant Valid() && Requested(geometry, s, S(), keys + KeysOf(taken), now)
        invariant taken == Wanted(geometry, s, piece, endgame, b)
      {
        taken := TakeBlock(piece, b, endgame, now, s, keys, taken);
        b := b + 1;
      }
      WantedFirst(geometry, s, piece, endgame, b, n, room);
    }

    /** One turn of the first phase of pick, over an open piece not visited yet. */
    method TakeOpen(piece: nat, peer: seq<bool>, room: nat, endgame: bool, now: nat, ghost s: State, ghost out: seq<BlockRequest>,
                    ghost visited: set<nat>)
      returns (taken: seq<BlockRequest>)
      requires Valid() && |s.have| == |s.availability| == geometry.pieceCount && Requested(geometry, s, S(), KeysOf(out), now)
      requires piece in progress && piece in s.progress && piece !in visited
      requires Picked(geometry, s, peer, endgame, out, visited) && Exhausted(geometry, s, peer, endgame, visited, KeysOf(out))
      modifies this`progress, this`pending
      ensures Valid() && Requested(geometry, s, S(), KeysOf(out + taken), now) && progress.Keys == old(progress.Keys)
      ensures |taken| <= room && Picked(geometry, s, peer, endgame, out + taken, visited + {piece})
      ensures |taken| < room ==> Exhausted(geometry, s, peer, endgame, visited + {piece}, KeysOf(out + taken))
    {
      hide Inv, Requested, KeysOf, Picked, Exhausted, AllTaken, NoKeysOf, Has, BlocksIn, SizeOfPiece, ProgressOk;
      taken := [];
      OpenPieceFacts(geometry, s, S(), KeysOf(out), now, piece);
      PickedWider(geometry, s, peer, endgame, out, visited, piece);
      assert out + taken == out;
      if have[piece] || !Has(peer, piece) {
        ExhaustedMore(geometry, s, peer, endgame, visited, piece, KeysOf(out), KeysOf(out));
        return;
      }
      PickedKeys(geometry, s, peer, endgame, out, visited, piece);
      if progress[piece].done + progress[piece].pending >= |progress[piece].blocks| && !endgame {
        NothingEligible(geometry, S(), piece, KeysOf(out));
        AllTakenBefore(geometry, s, S(), KeysOf(out), now, endgame, piece, KeysOf(out));
        ExhaustedMore(geometry, s, peer, endgame, visited, piece, KeysOf(out), KeysOf(out));
        return;
      }
      taken := TakeFrom(piece, room, endgame, now, s, KeysOf(out));
      KeysOfSum(out, taken);
      PickedMore(geometry, s, peer, endgame, out, visited, piece, room, taken);
      if |taken| < room {
        ExhaustedMore(geometry, s, peer, endgame, visited, piece, KeysOf(out), KeysOf(out + taken));
      }
    }

    /** The first phase: finish the open pieces, in whatever order the table yields them. */
    method TakeFromOpen(peer: seq<bool>, max: nat, endgame: bool, now: nat) returns (out: seq<BlockRequest>)
      requires Valid()
      modifies this`progress, this`pending
      ensures Valid() && progress.Keys == old(progress.Keys) && Requested(geometry, old(S()), S(), KeysOf(out), now)
      ensures |have| == |availability| == geometry.pieceCount
      ensures |out| <= max && Picked(geometry, old(S()), peer, endgame, out, progress.Keys)
      ensures |out| < max ==> Exhausted(geometry, old(S()), peer, endgame, progress.Keys, KeysOf(out))
    {
      ghost var s := S();
      out := [];
      PickedNothing(geometry, s, peer, endgame, now);
      var todo := progress.Keys;
      ghost var visited: set<nat> := {};
      assert SplitInto(todo, visited, progress.Keys);
      hide *;
      while todo != {} && |out| < max
        invariant Valid() && Requested(geometry, s, S(), KeysOf(out), now) && progress.Keys == s.progress.Keys
        invariant SplitInto(todo, visited, progress.Keys) && |out| <= max
        invariant Picked(geometry, s, peer, endgame, out, visited)
        invariant |out| < max ==> Exhausted(geometry, s, peer, endgame, visited, KeysOf(out))
        decreases todo
      {
        var piece :| piece in todo;
        VisitOne(todo, visited, progress.Keys, piece);
        todo := todo - {piece};
        var taken := TakeOpen(piece, peer, max - |out|, endgame, now, s, out, visited);
        out := out + taken;
        visited := visited + {piece};
      }
      VisitedAll(todo, visited, progress.Keys);
      PickedWiderAll(geometry, s, peer, endgame, out, visited, progress.Keys);
    }

    /** The rarest of the first candidates from the cursor, if any has a counter below saturation. */
    method ChooseRarest(peer: seq<bool>) returns (found: bool, best: nat)
      requires Valid() && |have| == |availability| == geometry.pieceCount && geometry.pieceCount > 0
      ensures !found ==> NothingToOpen(geometry, S(), peer, progress.Keys, pickCursor, geometry.pieceCount)
      ensures found ==> best < geometry.pieceCount && Rarest(geometry, S(), peer, progress.Keys, pickCursor, best)
      ensures found ==> Candidate(geometry, S(), peer, progress.Keys, best)
    {
      hide Inv, Turn;
      var total := geometry.pieceCount;
      var bestAvail, weighed, step := SATURATED, 0, 0;
      found, best := false, 0;
      ghost var k: nat := 0;
      ghost var s, open := S(), progress.Keys;
      AvailabilityBounded(geometry, s);
      while step < total && weighed < RAREST_SAMPLE
        invariant step <= total && weighed == Weighed(geometry, s, peer, open, pickCursor, step)
        invariant !found ==> bestAvail == SATURATED && NothingToOpen(geometry, s, peer, open, pickCursor, step)
        invariant found ==> RarestAt(geometry, s, peer, open, pickCursor, k, step) && Turn(geometry, pickCursor, k) == best
        invariant found ==> bestAvail == availability[best]
        decreases total - step
      {
        var i := Turn(geometry, pickCursor, step);
        if !have[i] && Has(peer, i) && i !in progress && availability[i] > 0 {
          weighed := weighed + 1;
          if availability[i] < bestAvail {
            found, bestAvail, best := true, availability[i], i;
            k := step;
            if bestAvail == 1 {
              break;  // nothing is rarer
            }
          }
        }
        step := step + 1;
      }
      SampleEnds(geometry, s, peer, open, pickCursor, step, found, k);
    }

    /** One turn of the second phase: opens the rarest piece of the sample and asks for its blocks. */
    method OpenPiece(best: nat, peer: seq<bool>, room: nat, endgame: bool, now: nat, ghost s: State, ghost out: seq<BlockRequest>,
                     ghost begun: seq<nat>)
      returns (taken: seq<BlockRequest>)
      requires Valid() && |s.have| == |s.availability| == geometry.pieceCount && room > 0
      requires Requested(geometry, s, S(), KeysOf(out), now) && Picked(geometry, s, peer, endgame, out, progress.Keys)
      requires Exhausted(geometry, s, peer, endgame, progress.Keys, KeysOf(out))
      requires progress.Keys == s.progress.Keys + Items(begun) && pickCursor == CursorAfter(geometry, s.cursor, begun)
      requires Rarest(geometry, S(), peer, progress.Keys, pickCursor, best) && OpenedInOrder(geometry, s, peer, begun)
      requires best < geometry.pieceCount && |have| == |availability| == geometry.pieceCount
      requires Candidate(geometry, S(), peer, progress.Keys, best)
      modifies this`progress, this`pending, this`pickCursor
      ensures Valid() && Requested(geometry, s, S(), KeysOf(out + taken), now) && 0 < |taken| <= room
      ensures Picked(geometry, s, peer, endgame, out + taken, progress.Keys)
      ensures |taken| < room ==> Exhausted(geometry, s, peer, endgame, progress.Keys, KeysOf(out + taken))
      ensures Exhausted(geometry, s, peer, endgame, s.progress.Keys, KeysOf(out + taken))
      ensures progress.Keys == s.progress.Keys + Items(begun + [best]) && pickCursor == CursorAfter(geometry, s.cursor, begun + [best])
      ensures OpenedInOrder(geometry, s, peer, begun + [best])
    {
      hide Inv, Requested, KeysOf, Picked, Exhausted, AllTaken, NoKeysOf, Has, Wanted, FirstOf, Rarest, OpenedInOrder, Items, Candidate, BlocksIn;
      OpeningFacts(geometry, s, S(), peer, KeysOf(out), now, best);
      RarestSame(geometry, S(), s, peer, progress.Keys, pickCursor, best);
      OpenedSnoc(geometry, s, peer, begun, best);
      PickedKeys(geometry, s, peer, endgame, out, progress.Keys, best);
      ghost var open := progress.Keys;
      pickCursor := (best + 1) % geometry.pieceCount;
      taken := TakeFrom(best, room, endgame, now, s, KeysOf(out));
      KeysOfSum(out, taken);
      FreshGives(geometry, s, best, endgame, room);
      PickedMore(geometry, s, peer, endgame, out, open, best, room, taken);
      ExhaustedWithin(geometry, s, peer, endgame, open, s.progress.Keys, KeysOf(out), KeysOf(out + taken));
      if |taken| < room {
        ExhaustedMore(geometry, s, peer, endgame, open, best, KeysOf(out), KeysOf(out + taken));
      }
    }

    /**
     * pick: at most max requests for this peer. begun lists the pieces opened, in order. The code's
     * guard against a round that takes nothing never fires, since a fresh piece always gives a block.
     */
    method Pick(peer: seq<bool>, max: nat, now: nat) returns (out: seq<BlockRequest>, ghost begun: seq<nat>)
      requires Valid()
      modifies this`progress, this`pending, this`pickCursor
      ensures Valid() && |have| == |availability| == geometry.pieceCount && |out| <= max
      ensures Requested(geometry, old(S()), S(), KeysOf(out), now)
      ensures Picked(geometry, old(S()), peer, Endgame(geometry, old(S())), out, progress.Keys)
      ensures progress.Keys == old(progress.Keys) + Items(begun) && pickCursor == CursorAfter(geometry, old(pickCursor), begun)
      ensures OpenedInOrder(geometry, old(S()), peer, begun)
      ensures begun != [] ==> Exhausted(geometry, old(S()), peer, Endgame(geometry, old(S())), old(progress.Keys), KeysOf(out))
      ensures |out| < max ==> Exhausted(geometry, old(S()), peer, Endgame(geometry, old(S())), progress.Keys, KeysOf(out))
      ensures |out| < max ==> NothingToOpen(geometry, S(), peer, progress.Keys, pickCursor, geometry.pieceCount)
      ensures |out| < max && (forall i :: 0 <= i < geometry.pieceCount ==> availability[i] != SATURATED) ==> NothingFree(geometry, S(), peer)
    {
      StateShape(geometry, S());
      PieceCountPositive(geometry);
      ghost var s := S();
      var endgame := InEndgame();
      out := TakeFromOpen(peer, max, endgame, now);
      begun := [];
      assert progress.Keys + Items([]) == progress.Keys;
      hide *;
      var stuck := false;
      while |out| < max && !stuck
        invariant Valid() && |have| == |availability| == geometry.pieceCount && |out| <= max
        invariant Requested(geometry, s, S(), KeysOf(out), now)
        invariant Picked(geometry, s, peer, endgame, out, progress.Keys)
        invariant progress.Keys == s.progress.Keys + Items(begun) && pickCursor == CursorAfter(geometry, s.cursor, begun)
        invariant OpenedInOrder(geometry, s, peer, begun)
        invariant begun != [] ==> Exhausted(geometry, s, peer, endgame, s.progress.Keys, KeysOf(out))
        invariant |out| < max ==> Exhausted(geometry, s, peer, endgame, progress.Keys, KeysOf(out))
        invariant stuck ==> NothingToOpen(geometry, S(), peer, progress.Keys, pickCursor, geometry.pieceCount)
        decreases max - |out|, if stuck then 0 else 1
      {
        var found, best := ChooseRarest(peer);
        if !found {
          stuck := true;
        } else {
          var taken := OpenPiece(best, peer, max - |out|, endgame, now, s, out, begun);
          out := out + taken;
          begun := begun + [best];
        }
      }
      if |out| < max && (forall i :: 0 <= i < geometry.pieceCount ==> availability[i] != SATURATED) {
        WorkConserved(geometry, s, S(), peer, endgame, KeysOf(out), now);
      }
    }

    /** endgame() */
    method InEndgame() returns (yes: bool)
      requires |have| == geometry.pieceCount
      ensures yes == Endgame(geometry, S())
    {
      var missing := geometry.pieceCount - CountTrue(have);
      yes := geometry.pieceCount > 0 && (missing * 50) % TWO32 < geometry.pieceCount;
    }
  }

  lemma {:induction false} OpeningFacts(g: Geometry, s: State, t: State, peer: seq<bool>, keys: set<nat>, now: nat, best: nat)
    requires Inv(g, t) && Requested(g, s, t, keys, now) && best < g.pieceCount && |t.have| == |t.availability| == g.pieceCount
    requires Candidate(g, t, peer, t.progress.Keys, best)
    ensures Metainfo.Valid(g) && t.have == s.have && t.availability == s.availability && !t.have[best] && s.availability[best] > 0 && Has(peer, best)
    ensures best !in t.progress && best !in s.progress
    ensures var c := (best + 1) % g.pieceCount; Inv(g, t.(cursor := c)) && Requested(g, s, t.(cursor := c), keys, now)
  {
    var c := (best + 1) % g.pieceCount;
    CursorMoves(g, t, c);
    CursorUnseen(g, s, t, keys, now, c);
    hide Inv;
  }

  lemma {:induction false} OpenPieceFacts(g: Geometry, s: State, t: State, keys: set<nat>, now: nat, piece: nat)
    requires Inv(g, t) && piece in t.progress && Requested(g, s, t, keys, now)
    ensures Metainfo.Valid(g) && piece < g.pieceCount == |t.have| && !t.have[piece] && t.have == s.have
  {
    hide ProgressOk, KeysAgree, KeyOk;
  }

  lemma {:induction false} WantedFromNothing(g: Geometry, s: State, p: nat, endgame: bool, keys: set<nat>, t: State)
    requires Inv(g, t) && p < g.pieceCount
    ensures Metainfo.Valid(g) && Wanted(g, s, p, endgame, 0) == [] && keys + KeysOf([]) == keys
  {
    StateShape(g, t);
  }

  lemma {:induction false} WantedFirst(g: Geometry, s: State, p: nat, endgame: bool, b: nat, n: nat, room: nat)
    requires Metainfo.Valid(g) && p < g.pieceCount && b <= n <= BlocksIn(g, p)
    requires |Wanted(g, s, p, endgame, b)| <= room && (b == n || |Wanted(g, s, p, endgame, b)| == room)
    ensures Wanted(g, s, p, endgame, b) == FirstOf(Wanted(g, s, p, endgame, n), room)
  {
    hide Eligible, BlockAt;
    WantedPrefix(g, s, p, endgame, b, n);
  }

  lemma CursorMoves(g: Geometry, t: State, cursor: nat)
    requires Inv(g, t) && cursor < g.pieceCount
    ensures Inv(g, t.(cursor := cursor))
  {
    var u := t.(cursor := cursor);
    forall k | k in u.pending
      ensures KeyOk(g, u, k)
    {
      assert KeyOk(g, t, k);
    }
  }

  lemma CursorUnseen(g: Geometry, s: State, t: State, keys: set<nat>, now: nat, cursor: nat)
    requires Metainfo.Valid(g) && Requested(g, s, t, keys, now)
    ensures Requested(g, s, t.(cursor := cursor), keys, now)
  {
  }

  lemma {:induction false} RarestSame(g: Geometry, s: State, t: State, peer: seq<bool>, open: set<nat>, cursor: nat, best: nat)
    requires |s.have| == |s.availability| == g.pieceCount && g.pieceCount > 0 && t.have == s.have && t.availability == s.availability
    requires Rarest(g, s, peer, open, cursor, best)
    ensures Rarest(g, t, peer, open, cursor, best)
  {
    hide Turn, Has;
    forall step: nat
      ensures Weighed(g, t, peer, open, cursor, step) == Weighed(g, s, peer, open, cursor, step)
    {
      WeighedSame(g, s, t, peer, open, cursor, step);
    }
    var k: nat :| RarestAt(g, s, peer, open, cursor, k, g.pieceCount) && Turn(g, cursor, k) == best;
    assert RarestAt(g, t, peer, open, cursor, k, g.pieceCount) && Turn(g, cursor, k) == best;
  }

  lemma {:induction false} WeighedSame(g: Geometry, s: State, t: State, peer: seq<bool>, open: set<nat>, cursor: nat, step: nat)
    requires |s.have| == |s.availability| == g.pieceCount && g.pieceCount > 0 && t.have == s.have && t.availability == s.availability
    ensures Weighed(g, t, peer, open, cursor, step) == Weighed(g, s, peer, open, cursor, step)
  {
    hide Turn, Has;
    if step > 0 {
      WeighedSame(g, s, t, peer, open, cursor, step - 1);
    }
  }

  lemma {:induction false} ExhaustedWithin(g: Geometry, s: State, peer: seq<bool>, endgame: bool, pieces: set<nat>, fewer: set<nat>, keys: set<nat>, more: set<nat>)
    requires Metainfo.Valid(g) && Exhausted(g, s, peer, endgame, pieces, keys) && keys <= more && fewer <= pieces
    ensures Exhausted(g, s, peer, endgame, fewer, more)
  {
    hide Key, Eligible, BlockAt, Has;
  }

  /** todo and visited divide all between them. */
  ghost predicate SplitInto(todo: set<nat>, visited: set<nat>, all: set<nat>)
  {
    todo !! visited && todo + visited == all
  }

  lemma VisitOne(todo: set<nat>, visited: set<nat>, all: set<nat>, p: nat)
    requires p in todo && SplitInto(todo, visited, all)
    ensures SplitInto(todo - {p}, visited + {p}, all) && p !in visited && p in all
  {
  }

  lemma VisitedAll(todo: set<nat>, visited: set<nat>, all: set<nat>)
    requires SplitInto(todo, visited, all)
    ensures visited <= all && (todo == {} ==> visited == all)
  {
  }

  lemma EligibleIff(st: BlockState, endgame: bool)
    ensures Eligible(st, endgame) <==> st == Free || (endgame && st == Pending)
  {
  }

  lemma AvailabilityBounded(g: Geometry, s: State)
    requires Inv(g, s)
    ensures forall i :: 0 <= i < |s.availability| ==> s.availability[i] <= SATURATED
  {
  }

  lemma {:induction false} PickedNothing(g: Geometry, s: State, peer: seq<bool>, endgame: bool, now: nat)
    requires Inv(g, s)
    ensures |s.have| == |s.availability| == g.pieceCount && Metainfo.Valid(g)
    ensures Picked(g, s, peer, endgame, [], {}) && Exhausted(g, s, peer, endgame, {}, KeysOf([]))
    ensures Requested(g, s, s, KeysOf([]), now)
  {
    NothingRequested(g, s, now);
    assert KeysOf([]) == {};
    hide Inv, Requested;
    StateShape(g, s);
  }

  lemma {:induction false} PickedWider(g: Geometry, s: State, peer: seq<bool>, endgame: bool, out: seq<BlockRequest>, visited: set<nat>, p: nat)
    requires Metainfo.Valid(g) && |s.have| == |s.availability| == g.pieceCount && Picked(g, s, peer, endgame, out, visited)
    ensures Picked(g, s, peer, endgame, out, visited + {p})
  {
    hide RequestOk, EarliestFirst, Distinct;
  }

  lemma {:induction false} PickedWiderAll(g: Geometry, s: State, peer: seq<bool>, endgame: bool, out: seq<BlockRequest>, visited: set<nat>, all: set<nat>)
    requires Metainfo.Valid(g) && |s.have| == |s.availability| == g.pieceCount && Picked(g, s, peer, endgame, out, visited) && visited <= all
    ensures Picked(g, s, peer, endgame, out, all)
  {
    hide RequestOk, EarliestFirst, Distinct;
  }

  /** Looking no further than step is enough: the sample is full, the table is, or nothing is rarer than one. */
  lemma {:induction false} SampleEnds(g: Geometry, s: State, peer: seq<bool>, open: set<nat>, cursor: nat, step: nat, found: bool, k: nat)
    requires |s.have| == |s.availability| == g.pieceCount && step <= g.pieceCount && g.pieceCount > 0
    requires step == g.pieceCount || Weighed(g, s, peer, open, cursor, step) >= RAREST_SAMPLE
             || (found && k == step && Sampled(g, s, peer, open, cursor, k) && s.availability[Turn(g, cursor, k)] == 1
                 && forall j: nat :: j < k && Sampled(g, s, peer, open, cursor, j) ==> s.availability[Turn(g, cursor, j)] > 1)
    requires found && k < step ==> RarestAt(g, s, peer, open, cursor, k, step)
    requires found ==> k <= step && (k == step ==> step < g.pieceCount && Weighed(g, s, peer, open, cursor, step) < RAREST_SAMPLE)
    requires !found ==> NothingToOpen(g, s, peer, open, cursor, step)
    ensures found ==> RarestAt(g, s, peer, open, cursor, k, g.pieceCount)
    ensures !found ==> NothingToOpen(g, s, peer, open, cursor, g.pieceCount)
  {
    hide Turn, Has;
    if step < g.pieceCount && Weighed(g, s, peer, open, cursor, step) >= RAREST_SAMPLE {
      forall j: nat | step <= j
        ensures Weighed(g, s, peer, open, cursor, j) >= RAREST_SAMPLE
      {
        WeighedGrows(g, s, peer, open, cursor, step, j);
      }
    }
  }
}
