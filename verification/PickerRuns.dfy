/** Whole runs of the picker: its invariant, and each fill of a piece reported once. */
module PickerRuns {
  import opened Arith
  import opened Metainfo
  import opened PickerState
  import opened PickRules

  datatype Event =
    | Received(piece: nat, offset: nat, full: bool)
    | Dropped(piece: nat, offset: nat)
    | Checked(piece: nat, ok: bool)
    | Held(piece: nat)
    | Expired(keys: set<nat>)
    | Asked(peer: seq<bool>, endgame: bool, out: seq<BlockRequest>, now: nat)
    | PeersChanged

  /** What one call may do to the state, as the contracts of the picker's methods say. */
  ghost predicate Step(g: Geometry, s: State, e: Event, t: State)
    requires Inv(g, s)
  {
    match e
    case Received(p, o, full) => (t, full) == Receive(g, s, p, o)
    case Dropped(p, o) => o < TWO32 && o % BLOCK == 0 && t == Drop(g, s, p, o)
    case Checked(p, ok) => t == Verified(g, s, p, ok)
    case Held(p) => t == SetHave(g, s, p)
    case Expired(keys) => Inv(g, t) && Released(s, t, keys)
    case Asked(peer, endgame, out, now) =>
      && Inv(g, t) && Requested(g, s, t, KeysOf(out), now)
      && forall r :: r in out ==> RequestOk(g, s, peer, endgame, r)
    case PeersChanged => Inv(g, t) && t == s.(availability := t.availability)
  }

  ghost predicate Run(g: Geometry, states: seq<State>, events: seq<Event>)
  {
    && Metainfo.Valid(g) && |states| == |events| + 1
    && (forall i :: 0 <= i < |states| ==> Inv(g, states[i]))
    && forall i :: 0 <= i < |events| ==> Step(g, states[i], events[i], states[i + 1])
  }

  lemma {:induction false} StepInv(g: Geometry, s: State, e: Event, t: State)
    requires Inv(g, s) && Step(g, s, e, t)
    ensures Inv(g, t)
  {
    hide Inv, Released, Requested, RequestOk;
    match e
    case Received(p, o, full) => ReceiveInv(g, s, p, o);
    case Dropped(p, o) => DropInv(g, s, p, o);
    case Checked(p, ok) => VerifiedInv(g, s, p, ok);
    case Held(p) => SetHaveInv(g, s, p);
    case Expired(_) =>
    case Asked(_, _, _, _) =>
    case PeersChanged =>
  }

  /** Asking for blocks leaves every block that is in where it is. */
  lemma {:induction false} AskedKeepsDone(g: Geometry, s: State, t: State, peer: seq<bool>, endgame: bool, out: seq<BlockRequest>, now: nat, p: nat, b: nat)
    requires Inv(g, s) && Requested(g, s, t, KeysOf(out), now) && forall r :: r in out ==> RequestOk(g, s, peer, endgame, r)
    requires p in s.progress && b < |s.progress[p].blocks| && s.progress[p].blocks[b] == Done
    ensures p in t.progress && b < |t.progress[p].blocks| && t.progress[p].blocks[b] == Done
  {
    hide Inv, Key, Requested, RequestOk, BlocksIn, SizeOfPiece, ProgressOk;
    OpenPieceFits(g, s, p);
    StateShape(g, s);
    StillOpen(g, s, t, KeysOf(out), now);
    if Key(p, b * BLOCK) in KeysOf(out) {
      var r :| r in out && KeyOf(r) == Key(p, b * BLOCK);
      NotDone(g, s, peer, endgame, r, p, b);
    }
    BlocksUntouched(g, s, t, KeysOf(out), now, p, b);
  }

  lemma StillOpen(g: Geometry, s: State, t: State, keys: set<nat>, now: nat)
    requires Metainfo.Valid(g) && Requested(g, s, t, keys, now)
    ensures s.progress.Keys <= t.progress.Keys
  {
  }

  lemma {:induction false} NotDone(g: Geometry, s: State, peer: seq<bool>, endgame: bool, r: BlockRequest, p: nat, b: nat)
    requires Metainfo.Valid(g) && |s.have| == |s.availability| == g.pieceCount
    requires p < g.pieceCount && b < BlocksIn(g, p) && KeyOf(r) == Key(p, b * BLOCK) && RequestOk(g, s, peer, endgame, r)
    ensures BlockAt(s, p, b) != Done
  {
    hide Key, BlockAt, BlocksIn, SizeOfPiece, Contiguous, Has;
    var c: nat :| c < BlocksIn(g, r.piece) && Eligible(BlockAt(s, r.piece, c), endgame) && r == Extent(g, r.piece, c);
    BlockKey(g, r.piece, c);
    SameKey(g, p, b, r.piece, c * BLOCK);
  }

  lemma {:induction false} AskedKeepsSettled(g: Geometry, s: State, t: State, peer: seq<bool>, endgame: bool, out: seq<BlockRequest>, now: nat, p: nat)
    requires Inv(g, s) && Inv(g, t) && Requested(g, s, t, KeysOf(out), now) && forall r :: r in out ==> RequestOk(g, s, peer, endgame, r)
    requires Settled(s, p)
    ensures Settled(t, p)
  {
    if p in s.progress {
      AskedKeepsPiece(g, s, t, peer, endgame, out, now, p);
    }
  }

  lemma {:induction false} AskedKeepsPiece(g: Geometry, s: State, t: State, peer: seq<bool>, endgame: bool, out: seq<BlockRequest>, now: nat, p: nat)
    requires Inv(g, s) && Inv(g, t) && Requested(g, s, t, KeysOf(out), now) && forall r :: r in out ==> RequestOk(g, s, peer, endgame, r)
    requires p in s.progress && p in t.progress && Settled(s, p)
    ensures Settled(t, p)
  {
    OpenPieceFits(g, s, p);
    OpenPieceFits(g, t, p);
    SettledIsAllDone(g, s, p);
    SettledIsAllDone(g, t, p);
    StateShape(g, s);
    assert !s.have[p];
    hide Inv, Requested, RequestOk, Settled, BlocksIn, ProgressOk;
    forall b | 0 <= b < |t.progress[p].blocks|
      ensures t.progress[p].blocks[b] == Done
    {
      AskedKeepsDone(g, s, t, peer, endgame, out, now, p, b);
    }
  }

  /** Only a failed check takes a settled piece back. */
  lemma {:induction false} StepKeepsSettled(g: Geometry, s: State, e: Event, t: State, p: nat)
    requires Inv(g, s) && Step(g, s, e, t) && Settled(s, p) && e != Checked(p, false)
    ensures Settled(t, p) && !(e.Received? && e.piece == p && e.full)
  {
    hide Inv, Released, Requested, RequestOk, Settled;
    match e
    case Received(q, o, full) => ReceiveKeepsSettled(g, s, q, o, p);
    case Dropped(q, o) => DropKeepsSettled(g, s, q, o, p);
    case Checked(q, ok) => VerifiedKeepsSettled(g, s, q, ok, p);
    case Held(q) => VerifiedKeepsSettled(g, s, q, true, p);
    case Expired(keys) => ReleasedKeepsSettled(g, s, t, keys, p);
    case Asked(peer, endgame, out, now) => AskedKeepsSettled(g, s, t, peer, endgame, out, now, p);
    case PeersChanged => SettledIgnoresPeers(s, t, p);
  }

  lemma {:induction false} SettledIgnoresPeers(s: State, t: State, p: nat)
    requires t.have == s.have && t.progress == s.progress
    ensures Settled(s, p) <==> Settled(t, p)
  {
  }

  ghost predicate Fills(e: Event, p: nat)
  {
    e.Received? && e.piece == p && e.full
  }

  /** Once a piece is settled it stays so, unreported, until its check fails. */
  lemma {:induction false} StaysSettled(g: Geometry, states: seq<State>, events: seq<Event>, p: nat, i: nat, j: nat)
    requires Run(g, states, events) && i <= j <= |events| && Settled(states[i], p)
    requires forall k :: i <= k < j ==> events[k] != Checked(p, false)
    ensures Settled(states[j], p) && forall k :: i <= k < j ==> !Fills(events[k], p)
  {
    hide Inv, Step, Settled;
    if i < j {
      StaysSettled(g, states, events, p, i, j - 1);
      StepKeepsSettled(g, states[j - 1], events[j - 1], states[j], p);
    }
  }

  /** Two reports that the same piece is full have a failed check of it between them. */
  lemma {:induction false} FilledOnce(g: Geometry, states: seq<State>, events: seq<Event>, p: nat, i: nat, j: nat)
    requires Run(g, states, events) && i < j < |events| && Fills(events[i], p) && Fills(events[j], p)
    ensures exists k :: i < k < j && events[k] == Checked(p, false)
  {
    hide Inv, Settled;
    assert Step(g, states[i], events[i], states[i + 1]);
    FullIff(g, states[i], p, events[i].offset);
    if forall k :: i < k < j ==> events[k] != Checked(p, false) {
      StaysSettled(g, states, events, p, i + 1, j);
      assert Step(g, states[j], events[j], states[j + 1]);
      StepKeepsSettled(g, states[j], events[j], states[j + 1], p);
    }
  }

  // --- and no fewer than once ----------------------------------------------------------------

  predicate IsReceipt(e: Event, p: nat, b: nat)
  {
    e.Received? && e.piece == p && e.offset == b * BLOCK
  }

  /** A piece stays open until it is held. */
  lemma StaysOpen(g: Geometry, s: State, e: Event, t: State, p: nat)
    requires Inv(g, s) && Step(g, s, e, t) && p < |s.have| && |t.have| == |s.have|
    ensures s.have[p] ==> t.have[p]
    ensures p in s.progress && !t.have[p] ==> p in t.progress
  {
    hide Inv, Key, BlocksReleased, BlocksRequested, RequestOk, SizeOfPiece;
    StateShape(g, s);
  }

  /** Of an open piece that stays open and is not refused, a block is in after a step if it was in or has just come. */
  lemma {:induction false} StepBlock(g: Geometry, s: State, e: Event, t: State, p: nat, b: nat)
    requires Inv(g, s) && Inv(g, t) && Step(g, s, e, t) && p in s.progress && p in t.progress && e != Checked(p, false)
    requires b < |s.progress[p].blocks|
    ensures |t.progress[p].blocks| == |s.progress[p].blocks|
    ensures t.progress[p].blocks[b] == Done <==> s.progress[p].blocks[b] == Done || IsReceipt(e, p, b)
  {
    hide Inv, Key, Requested, RequestOk, BlocksIn, SizeOfPiece, ProgressOk, Released;
    OpenPieceFits(g, s, p);
    OpenPieceFits(g, t, p);
    StateShape(g, s);
    match e
    case Received(q, o, full) => ReceivedBlock(g, s, q, o, p, b);
    case Dropped(q, o) => DropEffect(g, s, q, o, p);
    case Checked(q, ok) => NotRemoved(g, s, p);
    case Held(q) => NotRemoved(g, s, p);
    case Expired(keys) => ReleasedBlock(s, t, keys, p, b);
    case Asked(peer, endgame, out, now) => AskedBlock(g, s, t, peer, endgame, out, now, p, b);
    case PeersChanged =>
  }

  lemma NotRemoved(g: Geometry, s: State, p: nat)
    requires Inv(g, s) && p in s.progress
    ensures p < |s.have| && !s.have[p] && |s.have| == g.pieceCount
  {
  }

  lemma ReceivedBlock(g: Geometry, s: State, q: nat, o: nat, p: nat, b: nat)
    requires Inv(g, s) && p in s.progress && b < |s.progress[p].blocks|
    ensures var t := Receive(g, s, q, o).0;
            p in t.progress && |t.progress[p].blocks| == |s.progress[p].blocks|
            && (t.progress[p].blocks[b] == Done <==> s.progress[p].blocks[b] == Done || (q == p && o == b * BLOCK))
  {
    hide Inv, Key;
    NotRemoved(g, s, p);
    if o % BLOCK == 0 {
      assert o == o / BLOCK * BLOCK;
    }
  }

  lemma ReleasedBlock(s: State, t: State, keys: set<nat>, p: nat, b: nat)
    requires Released(s, t, keys) && p in s.progress && b < |s.progress[p].blocks|
    ensures p in t.progress && b < |t.progress[p].blocks| && (t.progress[p].blocks[b] == Done <==> s.progress[p].blocks[b] == Done)
  {
    assert BlocksReleased(p, s.progress[p].blocks, t.progress[p].blocks, keys);
  }

  lemma {:induction false} AskedBlock(g: Geometry, s: State, t: State, peer: seq<bool>, endgame: bool, out: seq<BlockRequest>, now: nat, p: nat, b: nat)
    requires Inv(g, s) && Requested(g, s, t, KeysOf(out), now) && forall r :: r in out ==> RequestOk(g, s, peer, endgame, r)
    requires p in s.progress && p in t.progress && b < |s.progress[p].blocks| && |t.progress[p].blocks| == |s.progress[p].blocks|
    ensures t.progress[p].blocks[b] == Done <==> s.progress[p].blocks[b] == Done
  {
    hide Inv, Key, Requested, RequestOk, BlocksIn, SizeOfPiece, ProgressOk;
    OpenPieceFits(g, s, p);
    if s.progress[p].blocks[b] == Done {
      AskedKeepsDone(g, s, t, peer, endgame, out, now, p, b);
    } else if t.progress[p].blocks[b] == Done {
      RequestedBlock(g, s, t, KeysOf(out), now, p, b);
    }
  }

  lemma RequestedBlock(g: Geometry, s: State, t: State, keys: set<nat>, now: nat, p: nat, b: nat)
    requires Metainfo.Valid(g) && Requested(g, s, t, keys, now) && p in s.progress && p in t.progress
    requires b < |s.progress[p].blocks| && b < |t.progress[p].blocks| && t.progress[p].blocks[b] == Done
    ensures s.progress[p].blocks[b] == Done
  {
    assert BlocksRequested(g, s, p, t.progress[p].blocks, keys);
  }

  /** Between two moments of a run the piece is open, unrefused and not held. */
  ghost predicate OpenBetween(g: Geometry, states: seq<State>, events: seq<Event>, p: nat, i: nat, j: nat)
  {
    && Run(g, states, events) && i <= j <= |events| && p in states[i].progress && p < |states[j].have| && !states[j].have[p]
    && forall k :: i <= k < j ==> events[k] != Checked(p, false)
  }

  lemma {:induction false} OpenThroughout(g: Geometry, states: seq<State>, events: seq<Event>, p: nat, i: nat, j: nat)
    requires OpenBetween(g, states, events, p, i, j)
    ensures p in states[j].progress && (i < j ==> OpenBetween(g, states, events, p, i, j - 1))
    decreases j - i
  {
    hide Inv, Step, RequestOk;
    if i < j {
      StateShape(g, states[j - 1]);
      StateShape(g, states[j]);
      StaysOpen(g, states[j - 1], events[j - 1], states[j], p);
      OpenThroughout(g, states, events, p, i, j - 1);
    }
  }

  /** The block was in at the first moment, or has come since. */
  ghost predicate InBy(states: seq<State>, events: seq<Event>, p: nat, b: nat, i: nat, j: nat)
    requires i <= j <= |events| < |states|
  {
    BlockAt(states[i], p, b) == Done || exists k :: i <= k < j && IsReceipt(events[k], p, b)
  }

  lemma {:induction false} DoneIffInBy(g: Geometry, states: seq<State>, events: seq<Event>, p: nat, b: nat, i: nat, j: nat)
    requires OpenBetween(g, states, events, p, i, j) && b < |states[i].progress[p].blocks|
    ensures p in states[j].progress && |states[j].progress[p].blocks| == |states[i].progress[p].blocks|
    ensures states[j].progress[p].blocks[b] == Done <==> InBy(states, events, p, b, i, j)
    decreases j - i
  {
    hide Inv, Step;
    OpenThroughout(g, states, events, p, i, j);
    if i < j {
      OpenThroughout(g, states, events, p, i, j - 1);
      DoneIffInBy(g, states, events, p, b, i, j - 1);
      StepBlock(g, states[j - 1], events[j - 1], states[j], p, b);
    }
  }

  /** Only the report of a fill settles an open piece that stays open. */
  lemma {:induction false} StepSettles(g: Geometry, s: State, e: Event, t: State, p: nat)
    requires Inv(g, s) && Inv(g, t) && Step(g, s, e, t) && p in s.progress && p in t.progress && e != Checked(p, false)
    requires !Settled(s, p) && Settled(t, p)
    ensures Fills(e, p)
  {
    hide Inv, Settled, Receive, RequestOk;
    if e.Received? && e.piece == p {
      FullIff(g, s, p, e.offset);
    } else {
      SettledIsAllDone(g, s, p);
      SettledIsAllDone(g, t, p);
      OpenPieceFits(g, s, p);
      OpenPieceFits(g, t, p);
      forall b | 0 <= b < |s.progress[p].blocks|
        ensures s.progress[p].blocks[b] == Done
      {
        StepBlock(g, s, e, t, p, b);
      }
    }
  }

  lemma {:induction false} FillsIffSettled(g: Geometry, states: seq<State>, events: seq<Event>, p: nat, i: nat, j: nat)
    requires OpenBetween(g, states, events, p, i, j) && !Settled(states[i], p)
    ensures Settled(states[j], p) <==> exists k :: i <= k < j && Fills(events[k], p)
    decreases j - i
  {
    hide Inv, Step, Settled, Fills;
    if i < j {
      OpenThroughout(g, states, events, p, i, j);
      OpenThroughout(g, states, events, p, i, j - 1);
      FillsIffSettled(g, states, events, p, i, j - 1);
      if Settled(states[j - 1], p) {
        StepKeepsSettled(g, states[j - 1], events[j - 1], states[j], p);
      } else {
        if Settled(states[j], p) {
          StepSettles(g, states[j - 1], events[j - 1], states[j], p);
        } else if Fills(events[j - 1], p) {
          FillSettles(g, states[j - 1], events[j - 1], states[j], p);
        }
      }
    }
  }

  lemma FillSettles(g: Geometry, s: State, e: Event, t: State, p: nat)
    requires Inv(g, s) && Step(g, s, e, t) && Fills(e, p)
    ensures Settled(t, p)
  {
    hide Inv, Settled, Receive;
    FullIff(g, s, p, e.offset);
  }

  /**
   * The other half of exactly once: from a moment when an open piece still lacks a block, and as long
   * as it is not refused, it is reported full if and only if each of its blocks was in or has come.
   */
  lemma {:induction false} FilledIff(g: Geometry, states: seq<State>, events: seq<Event>, p: nat, i: nat, j: nat)
    requires OpenBetween(g, states, events, p, i, j) && !Settled(states[i], p)
    ensures (exists k :: i <= k < j && Fills(events[k], p)) <==>
            forall b :: 0 <= b < |states[i].progress[p].blocks| ==> InBy(states, events, p, b, i, j)
  {
    hide Inv, Step, Settled, Fills, InBy;
    FillsIffSettled(g, states, events, p, i, j);
    OpenThroughout(g, states, events, p, i, j);
    SettledIsAllDone(g, states[j], p);
    OpenPieceFits(g, states[i], p);
    SomeBlock(g, p);
    DoneIffInBy(g, states, events, p, 0, i, j);
    forall b | 0 <= b < |states[i].progress[p].blocks|
      ensures states[j].progress[p].blocks[b] == Done <==> InBy(states, events, p, b, i, j)
    {
      DoneIffInBy(g, states, events, p, b, i, j);
    }
  }
}
