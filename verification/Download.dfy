/** A torrent's engine over its store, its picker and its writer: "have" means verified and on the card. */
module Download {
  import opened Arith
  import opened Bytes
  import opened Card
  import opened Metainfo
  import opened Options
  import opened PieceCache
  import opened PickerState
  import PickRules
  import PiecePicker
  import PickerRuns
  import Scheduler
  import opened WriterQueue

  /** Pieces whose result is awaited: all different, settled as far as the picker knows, and not held. */
  ghost predicate Awaited(s: State, pieces: seq<nat>, n: nat)
  {
    && (forall i, j :: 0 <= i < j < |pieces| ==> pieces[i] != pieces[j])
    && forall p :: p in pieces ==> p < n && Settled(s, p) && p < |s.have| && !s.have[p]
  }

  /** The piece is held, or written and waiting for the engine to hear of it. */
  ghost predicate Completed(have: seq<bool>, reports: seq<Report>, p: nat)
  {
    (p < |have| && have[p]) || exists r :: r in reports && r.outcome == Written && r.piece == p
  }

  /** Bitfield::full */
  predicate Full(have: seq<bool>)
  {
    |have| > 0 && forall p :: 0 <= p < |have| ==> have[p]
  }

  /** The buffer, if there is one, hides nothing of c. */
  ghost predicate Agrees(b: Option<PieceBuffer>, c: seq<byte>)
  {
    b.Some? ==> |b.value.data| == |c| && Overlay(c, b.value) == c
  }

  /** What the store is built on: the shape of the torrent and a hash for every piece. */
  ghost predicate Shaped(s: Storage, flat: seq<byte>)
  {
    Metainfo.Valid(s.geometry) && |s.hashes| == s.geometry.pieceCount && |flat| == s.geometry.totalSize
  }

  /** A buffer over a finished piece, or over one the writer is going to write, repeats it. */
  ghost predicate PieceSteady(s: Storage, have: seq<bool>, reports: seq<Report>, hands: seq<Job>, bufs: seq<PieceBuffer>, flat: seq<byte>, p: nat)
    requires Shaped(s, flat) && p < s.geometry.pieceCount
  {
    && (Completed(have, reports, p) ==> Agrees(BufferOf(bufs, p), PieceSlice(s.geometry, flat, p)))
    && forall j :: j in hands && j.piece == p && s.HashMatches(p, j.data) ==> Agrees(BufferOf(bufs, p), j.data)
  }

  ghost predicate SteadyIn(s: Storage, exempt: set<nat>, have: seq<bool>, reports: seq<Report>, hands: seq<Job>, bufs: seq<PieceBuffer>, flat: seq<byte>)
    requires Shaped(s, flat)
  {
    forall p :: 0 <= p < s.geometry.pieceCount && p !in exempt ==> PieceSteady(s, have, reports, hands, bufs, flat, p)
  }

  /** The state of a torrent, as values. */
  datatype Snap = Snap(picker: State, bufs: seq<PieceBuffer>, flat: seq<byte>, ops: nat, phase: Scheduler.Phase, running: bool,
                       hands: seq<Job>, results: seq<Report>, outstanding: seq<nat>, damaged: set<nat>, shadowed: set<nat>)

  /** The torrent looks at the block at all. */
  predicate ConsidersIn(s: Storage, phase: Scheduler.Phase, piece: nat, data: seq<byte>)
  {
    phase != Scheduler.Paused && phase != Scheduler.Queued && piece < s.geometry.pieceCount && |data| > 0
  }

  /** A block for a completed piece repeats what the card holds. */
  ghost predicate RepeatsIn(s: Storage, have: seq<bool>, reports: seq<Report>, flat: seq<byte>, piece: nat, offset: nat, data: seq<byte>)
    requires Shaped(s, flat)
  {
    s.Fits(piece, offset, |data|) && Completed(have, reports, piece) ==>
      data == PieceSlice(s.geometry, flat, piece)[offset..offset + |data|]
  }

  /** Also a block for a piece the writer is going to write repeats it; both end where a block or the piece ends. */
  ghost predicate LateRepeatsIn(s: Storage, have: seq<bool>, reports: seq<Report>, hands: seq<Job>, flat: seq<byte>, piece: nat, offset: nat, data: seq<byte>)
    requires Shaped(s, flat)
  {
    s.Fits(piece, offset, |data|) ==>
      && (Completed(have, reports, piece) ==> LateBlockRepeats(PieceSlice(s.geometry, flat, piece), offset, data))
      && forall j :: j in hands && j.piece == piece && s.HashMatches(piece, j.data) ==> LateBlockRepeats(j.data, offset, data)
  }

  class Torrent {
    const storage: Storage
    const picker: PiecePicker.Picker
    const writer: PieceWriter
    var phase: Scheduler.Phase
    var corruptPieces: nat
    ghost var damaged: set<nat>   // completed pieces that the card may not hold
    ghost var shadowed: set<nat>  // pieces over which a buffer may hold other bytes

    ghost predicate Valid()
      reads storage, storage.files, picker, writer
    {
      && storage.Valid() && picker.Valid() && writer.Valid() && picker.geometry == storage.geometry
      && |picker.have| == storage.geometry.pieceCount
    }

    ghost predicate Good(p: nat)
      requires storage.Valid() && p < storage.geometry.pieceCount
      reads storage, storage.files
    {
      storage.sha1(storage.OnCard(p)) == storage.hashes[p]
    }

    /** Every piece held or reported as written, the damaged ones aside, is on the card with the right hash. */
    ghost predicate Sound(reports: seq<Report>)
      requires storage.Valid() && |picker.have| == storage.geometry.pieceCount
      reads this`damaged, storage, storage.files, picker
    {
      forall p :: 0 <= p < storage.geometry.pieceCount && p !in damaged && Completed(picker.have, reports, p) ==> Good(p)
    }

    ghost predicate InOrder()
      requires Valid()
      reads storage, storage.files, picker, writer
    {
      Awaited(picker.S(), writer.Outstanding(), storage.geometry.pieceCount)
    }

    /** The shadowed pieces aside, no buffer hides bytes of a finished piece, or of one the writer is going to write. */
    ghost predicate Steady(reports: seq<Report>)
      requires Valid()
      reads this`shadowed, storage, storage.files, picker, writer
    {
      SteadyIn(storage, shadowed, picker.have, reports, writer.InHands(), storage.buffers, storage.files.flat)
    }

    /** What every step keeps. */
    ghost predicate Integrity()
      requires Valid()
      reads this`damaged, this`shadowed, storage, storage.files, picker, writer
    {
      Sound(writer.results) && Steady(writer.results) && InOrder()
    }

    /** Everything of the torrent that the following is about. */
    ghost function Now(): Snap
      reads this, storage, storage.files, picker, writer
    {
      Snap(picker.S(), storage.buffers, storage.files.flat, storage.files.ops, phase, writer.running, writer.InHands(), writer.results,
           writer.Outstanding(), damaged, shadowed)
    }

    constructor (s: Storage, p: PiecePicker.Picker, w: PieceWriter)
      requires s.Valid() && p.Valid() && w.Valid() && p.geometry == s.geometry
      requires p.S() == Init(s.geometry) && w.Outstanding() == [] && w.results == []
      ensures storage == s && picker == p && writer == w && phase == Scheduler.Checking
      ensures Valid() && Integrity() && damaged == {} && shadowed == {}
    {
      storage, picker, writer, phase, corruptPieces := s, p, w, Scheduler.Checking, 0;
      damaged, shadowed := {}, {};
    }

    ghost predicate Repeats(piece: nat, offset: nat, data: seq<byte>)
      requires Valid()
      reads storage, storage.files, picker, writer
    {
      RepeatsIn(storage, picker.have, writer.results, storage.files.flat, piece, offset, data)
    }

    ghost predicate LateRepeats(piece: nat, offset: nat, data: seq<byte>)
      requires Valid()
      reads storage, storage.files, picker, writer
    {
      LateRepeatsIn(storage, picker.have, writer.results, writer.InHands(), storage.files.flat, piece, offset, data)
    }

    // --- the writer thread ---------------------------------------------------------------

    /** One step of the writer thread: whatever the card does, it costs no piece that is held or reported. */
    method WriterStep()
      requires Valid() && Integrity()
      requires !writer.exited && (writer.hand.Idle? ==> !writer.running || |writer.jobs| > 0)
      modifies writer, storage.files
      ensures Valid() && Integrity() && writer.Outstanding() == old(writer.Outstanding()) && old(storage.files.ops) <= storage.files.ops
      ensures old(writer.hand.Idle?) && old(|writer.jobs|) > 0 ==> |writer.jobs| < old(|writer.jobs|) && !writer.exited
      ensures old(writer.hand.Holding?) ==> writer.hand.Idle? && writer.jobs == old(writer.jobs) && !writer.exited
      ensures writer.running == old(writer.running) && forall q :: 0 <= q < storage.geometry.pieceCount && old(storage.Backed(q)) ==> storage.Backed(q)
      ensures forall q :: 0 <= q < storage.geometry.pieceCount && q !in writer.Outstanding() ==>
                storage.OnCard(q) == old(storage.OnCard(q)) && storage.View(q) == old(storage.View(q))
      ensures forall q :: 0 <= q < storage.geometry.pieceCount && (old(writer.hand.Idle?) || q != old(writer.hand).job.piece) ==>
                storage.OnCard(q) == old(storage.OnCard(q))
      ensures old(writer.hand.Idle?) ==>
                && writer.results == old(writer.results) && storage.files.flat == old(storage.files.flat)
                && storage.files.ops == old(storage.files.ops) && writer.InHands() == old(writer.InHands())
      ensures old(writer.hand.Holding?) ==> writer.InHands() == old(writer.InHands())[1..] && Reported(old(writer.hand).job, old(storage.files.ops), writer.results[|writer.results| - 1].outcome)
      ensures old(writer.hand.Holding?) ==> var j := old(writer.hand).job;
                writer.results == old(writer.results) +
                  [Report(j.piece, if !storage.HashMatches(j.piece, j.data) then HashFailed
                                   else if storage.files.Sound(old(storage.files.ops), storage.files.ops) then Written else WriteFailed)]
    {
      hide Awaited, Sound, SteadyIn, Inv, BuffersOk, ViewOf, PieceSlice, SizeOfPiece, Contiguous, FileAgrees, Files.Valid, Files.Sound, ReportPieces, JobPieces, HandPieces, Sizes, BackedIn, Grown;
      ghost var flat0, c0 := storage.files.flat, storage.files.contents;
      if writer.hand.Idle? {
        GrownTrivially(storage.files.contents);
        writer.Next();
      } else {
        HandAwaited();
        WorkStep();
      }
      SameViews(flat0);
      StillBacked(c0);
    }

    /** What the report of a job says about the card. */
    ghost predicate Reported(j: Job, ops0: nat, outcome: Outcome)
      requires storage.Valid()
      reads storage, storage.files
    {
      (outcome == Written ==> j.piece < storage.geometry.pieceCount && storage.OnCard(j.piece) == j.data)
      && (outcome == HashFailed ==> storage.files.ops == ops0)
    }

    lemma SameViews(flat0: seq<byte>)
      requires Valid() && |flat0| == storage.geometry.totalSize
      ensures forall q :: 0 <= q < storage.geometry.pieceCount && storage.OnCard(q) == PieceSlice(storage.geometry, flat0, q) ==>
                storage.View(q) == ViewOf(storage.geometry, flat0, storage.buffers, q)
    {
      hide BuffersOk, PieceSlice, SizeOfPiece, Contiguous, Files.Valid, ViewOf, Find, Inv;
      forall q | 0 <= q < storage.geometry.pieceCount && storage.OnCard(q) == PieceSlice(storage.geometry, flat0, q)
        ensures storage.View(q) == ViewOf(storage.geometry, flat0, storage.buffers, q)
      {
        ViewIs(storage.geometry, storage.files.flat, storage.buffers, q);
        ViewIs(storage.geometry, flat0, storage.buffers, q);
      }
    }

    /** Files that have grown still back what they backed. */
    lemma StillBacked(c0: seq<seq<byte>>)
      requires Valid() && Grown(c0, storage.files.contents)
      ensures forall q :: 0 <= q < storage.geometry.pieceCount ==>
                BackedIn(storage.geometry.files, c0, PieceStart(storage.geometry, q), SizeOfPiece(storage.geometry, q), BufferOf(storage.buffers, q), 0, 0) ==>
                storage.Backed(q)
    {
      hide BuffersOk, SizeOfPiece, Contiguous, Files.Valid, BackedIn, Grown, Inv, BufferOf;
      forall q | 0 <= q < storage.geometry.pieceCount &&
                   BackedIn(storage.geometry.files, c0, PieceStart(storage.geometry, q), SizeOfPiece(storage.geometry, q), BufferOf(storage.buffers, q), 0, 0)
        ensures storage.Backed(q)
      {
        BackedGrows(storage.geometry.files, c0, storage.files.contents, PieceStart(storage.geometry, q), SizeOfPiece(storage.geometry, q),
                    BufferOf(storage.buffers, q));
      }
    }

    /** The writer thread gets some turns while the engine is in the middle of something. */
    method WriterRuns(turns: nat)
      requires Valid() && Integrity() && (writer.running ==> !writer.exited)
      modifies writer, storage.files
      ensures Valid() && Integrity() && writer.running == old(writer.running) && (writer.running ==> !writer.exited)
      ensures writer.Outstanding() == old(writer.Outstanding()) && old(storage.files.ops) <= storage.files.ops
      ensures forall q :: 0 <= q < storage.geometry.pieceCount && old(storage.Backed(q)) ==> storage.Backed(q)
      ensures forall q :: 0 <= q < storage.geometry.pieceCount && q !in writer.Outstanding() ==>
                storage.OnCard(q) == old(storage.OnCard(q)) && storage.View(q) == old(storage.View(q))
    {
      hide Inv, Awaited, Sound, SteadyIn, Storage.Valid, ReportPieces, JobPieces, HandPieces, PieceWriter.Valid, PieceWriter.Outstanding, PieceWriter.InHands, Storage.View, Storage.OnCard, Storage.Backed, Reported;
      for i := 0 to turns
        invariant Valid() && Integrity() && writer.running == old(writer.running) && (writer.running ==> !writer.exited)
        invariant writer.Outstanding() == old(writer.Outstanding()) && old(storage.files.ops) <= storage.files.ops
        invariant forall q :: 0 <= q < storage.geometry.pieceCount && old(storage.Backed(q)) ==> storage.Backed(q)
        invariant forall q :: 0 <= q < storage.geometry.pieceCount && q !in writer.Outstanding() ==>
                    storage.OnCard(q) == old(storage.OnCard(q)) && storage.View(q) == old(storage.View(q))
      {
        if !writer.exited && (!writer.hand.Idle? || !writer.running || |writer.jobs| > 0) {
          WriterStep();
        }
      }
    }

    method WorkStep()
      requires Valid() && Integrity() && writer.hand.Holding? && writer.hand.job.piece < storage.geometry.pieceCount
      requires !picker.have[writer.hand.job.piece] && OnlyInHand(writer.hand.job.piece)
      modifies writer`hand, writer`results, storage.files
      ensures Valid() && Integrity() && writer.Outstanding() == old(writer.Outstanding()) && writer.hand.Idle?
      ensures old(storage.files.ops) <= storage.files.ops && Grown(old(storage.files.contents), storage.files.contents)
      ensures writer.InHands() == old(writer.InHands())[1..] && Reported(old(writer.hand).job, old(storage.files.ops), writer.results[|writer.results| - 1].outcome)
      ensures forall q :: 0 <= q < storage.geometry.pieceCount && q != old(writer.hand).job.piece ==> storage.OnCard(q) == old(storage.OnCard(q))
      ensures var j := old(writer.hand).job;
                writer.results == old(writer.results) +
                  [Report(j.piece, if !storage.HashMatches(j.piece, j.data) then HashFailed
                                   else if storage.files.Sound(old(storage.files.ops), storage.files.ops) then Written else WriteFailed)]
    {
      hide Inv, BuffersOk, ViewOf, PieceSlice, SizeOfPiece, Contiguous, FileAgrees, Files.Valid, Files.Sound, Settled, PieceWriter.Outstanding, PieceWriter.Valid, Awaited, SteadyIn, Completed, ReportPieces, JobPieces, Storage.HashMatches;
      ghost var before, j, n := writer.results, writer.hand.job, storage.geometry.pieceCount;
      HashIs(j.piece, j.data);
      writer.Work(storage);
      ghost var r := writer.results[|before|];
      assert writer.results == before + [r];
      NotCompleted(picker.have, before, j.piece);
      forall p | 0 <= p < n && p !in damaged && Completed(picker.have, writer.results, p)
        ensures Good(p)
      {
        CompletedSnoc(picker.have, before, r, p);
      }
      forall q | 0 <= q < n && q != j.piece
        ensures PieceSlice(storage.geometry, storage.files.flat, q) == PieceSlice(storage.geometry, old(storage.files.flat), q)
      {
        assert storage.OnCard(q) == old(storage.OnCard(q));
      }
      assert r.outcome == Written ==> storage.OnCard(j.piece) == j.data;
      WorkSteady(storage, shadowed, picker.have, before, r, old(writer.InHands()), storage.buffers, old(storage.files.flat), storage.files.flat);
    }

    lemma HashIs(piece: nat, data: seq<byte>)
      requires Valid() && piece < storage.geometry.pieceCount
      ensures storage.HashMatches(piece, data) ==> storage.sha1(data) == storage.hashes[piece]
    {
    }

    /** No report, and no other job, is about the piece. */
    ghost predicate OnlyInHand(p: nat)
      reads writer
    {
      (forall r :: r in writer.results ==> r.piece != p) && forall j :: j in writer.jobs ==> j.piece != p
    }

    lemma HandAwaited()
      requires Valid() && InOrder() && writer.hand.Holding?
      ensures var p := writer.hand.job.piece; p < storage.geometry.pieceCount && !picker.have[p] && OnlyInHand(p) && p in writer.Outstanding()
    {
      hide Inv, Settled, Storage.Valid;
      ghost var p, all, k := writer.hand.job.piece, writer.Outstanding(), |writer.results|;
      assert all[k] == p && p in all;
      forall r | r in writer.results
        ensures r.piece != p
      {
        var i :| 0 <= i < |writer.results| && writer.results[i] == r;
        assert all[i] == r.piece;
      }
      forall j | j in writer.jobs
        ensures j.piece != p
      {
        var i :| 0 <= i < |writer.jobs| && writer.jobs[i] == j;
        assert all[k + 1 + i] == j.piece;
      }
    }

    // --- the engine ------------------------------------------------------------------------

    /**
     * finish_piece, reached from the writer's report or from the synchronous check. Only a failed
     * commit can leave the piece held without its bytes, and no other piece suffers.
     */
    method FinishPiece(piece: nat, hashOk: bool, commitNeeded: bool, writeErr: bool,
                       ghost before: seq<Report>, ghost reports: seq<Report>, ghost awaited: seq<nat>)
      requires Valid() && piece < storage.geometry.pieceCount && Sound(before) && Steady(before)
      requires forall r :: r in reports ==> r in before && r.piece != piece
      requires piece !in awaited && Awaited(picker.S(), awaited, storage.geometry.pieceCount)
      requires !writeErr && hashOk && commitNeeded ==> storage.sha1(storage.View(piece)) == storage.hashes[piece]
      requires !writeErr && hashOk && !commitNeeded ==> Completed(picker.have, before, piece)
      requires forall j :: j in writer.InHands() ==> j.piece != piece
      modifies this, picker, storage`buffers, storage.files
      ensures Valid() && Awaited(picker.S(), awaited, storage.geometry.pieceCount) && old(storage.files.ops) <= storage.files.ops
      ensures Sound(reports) && Steady(reports) && shadowed == old(shadowed)
      ensures damaged == if commitNeeded && !writeErr && hashOk && !storage.files.Sound(old(storage.files.ops), storage.files.ops)
                         then old(damaged) + {piece} else old(damaged)
      ensures !commitNeeded || writeErr ==> storage.files.ops == old(storage.files.ops) && storage.files.flat == old(storage.files.flat)
      ensures picker.S() == if writeErr then old(picker.S()) else Verified(picker.geometry, old(picker.S()), piece, hashOk)
      ensures phase == if writeErr then Scheduler.Failed
                       else if !hashOk then old(phase)
                       else if !storage.files.Sound(old(storage.files.ops), storage.files.ops) then Scheduler.Failed
                       else if Full(picker.have) then Scheduler.Seeding else old(phase)
      ensures forall q :: 0 <= q < storage.geometry.pieceCount && q != piece ==> storage.View(q) == old(storage.View(q)) && storage.OnCard(q) == old(storage.OnCard(q))
      ensures corruptPieces == old(corruptPieces) + (if !writeErr && !hashOk then 1 else 0)
    {
      hide BuffersOk, ViewOf, PieceSlice, SizeOfPiece, Contiguous, FileAgrees, Files.Valid, Files.Sound, Inv, Awaited, Verified, Sound, SteadyIn, Good, Shape, Find, Full, OthersKept, PieceWriter.InHands, Completed, Storage.OnCard, Storage.View, Between;
      storage.files.NothingAsked(storage.files.ops);
      FewerReports(before, reports, piece);
      if writeErr {
        phase := Scheduler.Failed;
        return;
      }
      VerifiedShape(picker.geometry, picker.S(), piece, hashOk, awaited, storage.geometry.pieceCount);
      if !hashOk {
        RejectPiece(piece, reports);
        return;
      }
      var ok := true;
      if commitNeeded {
        ok := CommitHeld(piece, reports);
      } else {
        MarkHeld(piece, before, reports);
      }
      if !ok {
        phase := Scheduler.Failed;
        return;
      }
      if Full(picker.have) {
        phase := Scheduler.Seeding;
      }
    }

    lemma FewerReports(before: seq<Report>, reports: seq<Report>, piece: nat)
      requires Valid() && piece < storage.geometry.pieceCount && Sound(before) && Steady(before)
      requires forall r :: r in reports ==> r in before && r.piece != piece
      ensures Sound(reports) && Steady(reports)
    {
      hide Inv, Good, BuffersOk, Files.Valid, Contiguous, PieceSlice, SizeOfPiece, SteadyIn, PieceWriter.InHands;
      FewerSteady(storage, shadowed, picker.have, before, picker.have, reports, writer.InHands(), storage.buffers, storage.files.flat);
    }

    method RejectPiece(piece: nat, ghost reports: seq<Report>)
      requires Valid() && piece < storage.geometry.pieceCount && Sound(reports) && Steady(reports)
      requires forall j :: j in writer.InHands() ==> j.piece != piece
      modifies this`corruptPieces, picker, storage`buffers
      ensures Valid() && Sound(reports) && Steady(reports)
      ensures forall q :: 0 <= q < storage.geometry.pieceCount && q != piece ==> storage.View(q) == old(storage.View(q)) && storage.OnCard(q) == old(storage.OnCard(q))
      ensures picker.S() == Verified(picker.geometry, old(picker.S()), piece, false) && corruptPieces == old(corruptPieces) + 1
    {
      hide BuffersOk, ViewOf, PieceSlice, SizeOfPiece, Contiguous, FileAgrees, Files.Valid, Inv, Shape, Find, SteadyIn, OthersKept, Completed, PieceWriter.InHands, BufferOf;
      HaveAfterVerified(picker.geometry, picker.S(), piece);
      picker.OnPieceVerified(piece, false);
      storage.DiscardPiece(piece);
      corruptPieces := corruptPieces + 1;
      NoBufferSteady(storage, shadowed, old(picker.have), reports, writer.InHands(), old(storage.buffers), storage.files.flat,
                     picker.have, storage.buffers, storage.files.flat, piece);
    }

    method MarkHeld(piece: nat, ghost before: seq<Report>, ghost reports: seq<Report>)
      requires Valid() && piece < storage.geometry.pieceCount && Sound(before) && Steady(before) && forall r :: r in reports ==> r in before
      requires Completed(picker.have, before, piece)
      modifies picker
      ensures Valid() && Sound(reports) && Steady(reports)
      ensures picker.S() == Verified(picker.geometry, old(picker.S()), piece, true)
    {
      hide BuffersOk, ViewOf, PieceSlice, SizeOfPiece, Contiguous, FileAgrees, Files.Valid, Inv, Shape, Find, SteadyIn, Completed, PieceWriter.InHands, BufferOf;
      HeldShape(picker.geometry, picker.S(), piece);
      ghost var have0 := picker.have;
      picker.OnPieceVerified(piece, true);
      forall p | 0 <= p < storage.geometry.pieceCount && Completed(picker.have, reports, p)
        ensures Completed(have0, before, p)
      {
        CompletedBefore(have0, before, reports, piece, p);
      }
      FewerSteady(storage, shadowed, have0, before, picker.have, reports, writer.InHands(), storage.buffers, storage.files.flat);
    }

    /**
     * The synchronous path. The code marks the piece as held first; if the commit then fails the
     * mark stays, and that piece alone may be held without its bytes.
     */
    method CommitHeld(piece: nat, ghost reports: seq<Report>) returns (ok: bool)
      requires Valid() && piece < storage.geometry.pieceCount && Sound(reports) && Steady(reports) && forall r :: r in reports ==> r.piece != piece
      requires storage.sha1(storage.View(piece)) == storage.hashes[piece]
      requires forall j :: j in writer.InHands() ==> j.piece != piece
      modifies this`damaged, picker, storage`buffers, storage.files
      ensures Valid() && old(storage.files.ops) <= storage.files.ops && (ok <==> storage.files.Sound(old(storage.files.ops), storage.files.ops))
      ensures Sound(reports) && Steady(reports) && damaged == if ok then old(damaged) else old(damaged) + {piece}
      ensures ok ==> Good(piece)
      ensures storage.files.Refuses(old(storage.files.ops)) ==> (Good(piece) <==> old(Good(piece)))
      ensures forall q :: 0 <= q < storage.geometry.pieceCount && q != piece ==> storage.View(q) == old(storage.View(q)) && storage.OnCard(q) == old(storage.OnCard(q))
      ensures picker.S() == Verified(picker.geometry, old(picker.S()), piece, true) && picker.have[piece]
    {
      hide BuffersOk, ViewOf, PieceSlice, SizeOfPiece, Contiguous, FileAgrees, Files.Valid, Files.Sound, Inv, Shape, Find, SteadyIn, OthersKept, Completed, PieceWriter.InHands, BufferOf, Between;
      HeldShape(picker.geometry, picker.S(), piece);
      ghost var have0 := picker.have;
      picker.OnPieceVerified(piece, true);
      ok := storage.CommitPiece(piece);
      forall p | 0 <= p < storage.geometry.pieceCount && p != piece && p !in damaged && Completed(picker.have, reports, p)
        ensures Good(p)
      {
        CompletedElsewhere(have0, piece, reports, p);
      }
      if !ok {
        damaged := damaged + {piece};
      }
      forall q | 0 <= q < storage.geometry.pieceCount && q != piece
        ensures PieceSlice(storage.geometry, storage.files.flat, q) == PieceSlice(storage.geometry, old(storage.files.flat), q)
      {
        assert storage.OnCard(q) == old(storage.OnCard(q));
      }
      NoBufferSteady(storage, shadowed, have0, reports, writer.InHands(), old(storage.buffers), old(storage.files.flat),
                     picker.have, storage.buffers, storage.files.flat, piece);
    }

    /** collect_written_pieces: it needs nothing of the card. */
    method CollectWrittenPieces()
      requires Valid() && Integrity()
      modifies this, picker, writer`results, writer`taken, storage`buffers, storage.files
      ensures Valid() && Integrity() && writer.results == [] && damaged == old(damaged) && shadowed == old(shadowed)
      ensures storage.files.ops == old(storage.files.ops) && storage.files.flat == old(storage.files.flat)
      ensures old(writer.Outstanding()) == ReportPieces(old(writer.results)) + writer.Outstanding() && writer.InHands() == old(writer.InHands())
      ensures forall p :: 0 <= p < storage.geometry.pieceCount ==>
                (picker.have[p] <==> old(picker.have)[p] || exists r :: r in old(writer.results) && r.piece == p && r.outcome == Written)
      ensures PhaseAfter(old(phase), old(writer.results), picker.have, phase)
    {
      hide BuffersOk, ViewOf, PieceSlice, SizeOfPiece, Contiguous, FileAgrees, Files.Valid, Inv, Awaited, Sound, SteadyIn, Shape, Find, JobPieces, HandPieces, ReportPieces, HeldAfter, PhaseAfter, PieceWriter.InHands;
      var out := writer.TakeResults();
      ghost var rest, have0 := writer.Outstanding(), picker.have;
      NothingHeldYet(have0, out);
      PhaseUnchanged(phase, out, have0);
      assert out[0..] == out;
      for i := 0 to |out|
        invariant Valid() && writer.results == [] && writer.Outstanding() == rest && writer.InHands() == old(writer.InHands())
        invariant Awaited(picker.S(), ReportPieces(out[i..]) + rest, storage.geometry.pieceCount) && Sound(out[i..])
        invariant Steady(out[i..]) && damaged == old(damaged) && shadowed == old(shadowed)
        invariant HeldAfter(have0, out[..i], picker.have) && PhaseAfter(old(phase), out[..i], picker.have, phase)
        invariant storage.files.ops == old(storage.files.ops) && storage.files.flat == old(storage.files.flat)
      {
        ghost var before, was := picker.have, phase;
        CollectOne(out, i, rest);
        HeldOneMore(have0, before, out, i);
        PhaseOneMore(old(phase), before, picker.have, was, out, i);
      }
      AllHeld(have0, out, picker.have);
      assert out[..|out|] == out;
      AllCollected(out, rest);
    }

    method CollectOne(out: seq<Report>, i: nat, ghost rest: seq<nat>)
      requires Valid() && i < |out| && writer.results == [] && writer.Outstanding() == rest
      requires Awaited(picker.S(), ReportPieces(out[i..]) + rest, storage.geometry.pieceCount) && Sound(out[i..]) && Steady(out[i..])
      modifies this, picker, storage`buffers, storage.files
      ensures Valid() && Awaited(picker.S(), ReportPieces(out[i + 1..]) + rest, storage.geometry.pieceCount) && Sound(out[i + 1..])
      ensures Steady(out[i + 1..]) && damaged == old(damaged) && shadowed == old(shadowed)
      ensures out[i].piece < storage.geometry.pieceCount
      ensures picker.have == if out[i].outcome == Written then old(picker.have)[out[i].piece := true] else old(picker.have)
      ensures phase == if out[i].outcome == WriteFailed then Scheduler.Failed
                       else if out[i].outcome == Written && Full(picker.have) then Scheduler.Seeding else old(phase)
      ensures storage.files.ops == old(storage.files.ops) && storage.files.flat == old(storage.files.flat)
    {
      hide BuffersOk, ViewOf, PieceSlice, SizeOfPiece, Contiguous, FileAgrees, Files.Valid, Files.Sound, Inv, Awaited, Good, Sound, SteadyIn, Shape, Find, JobPieces, HandPieces, ReportPieces, Verified, Full, PieceWriter.InHands, PieceWriter.Outstanding;
      NextReport(picker.S(), out, i, rest, storage.geometry.pieceCount);
      HaveAfterVerified(picker.geometry, picker.S(), out[i].piece);
      assert out[i] in out[i..] && forall r :: r in out[i + 1..] ==> r in out[i..];
      var r := out[i];
      NotInHands(r.piece);
      storage.files.NothingAsked(storage.files.ops);
      FinishPiece(r.piece, r.outcome != HashFailed, false, r.outcome == WriteFailed, out[i..], out[i + 1..], ReportPieces(out[i + 1..]) + rest);
    }

    lemma NotInHands(piece: nat)
      requires piece !in writer.Outstanding()
      ensures forall j :: j in writer.InHands() ==> j.piece != piece
      ensures forall r :: r in writer.results ==> r.piece != piece
    {
      ghost var all, k := writer.Outstanding(), |writer.results|;
      forall j | j in writer.InHands()
        ensures j.piece in all
      {
        var i :| 0 <= i < |writer.InHands()| && writer.InHands()[i] == j;
        assert all[k + i] == j.piece;
      }
      forall r | r in writer.results
        ensures r.piece in all
      {
        var i :| 0 <= i < |writer.results| && writer.results[i] == r;
        assert all[i] == r.piece;
      }
    }

    lemma AllCollected(out: seq<Report>, rest: seq<nat>)
      requires Valid() && writer.results == [] && writer.Outstanding() == rest
      requires Awaited(picker.S(), ReportPieces(out[|out|..]) + rest, storage.geometry.pieceCount) && Sound(out[|out|..]) && Steady(out[|out|..])
      ensures Integrity()
    {
      hide Awaited, Inv, SteadyIn;
      assert out[|out|..] == [];
      assert ReportPieces([]) + rest == rest;
    }

    /** The write of on_peer_block, which the code makes before the picker filters the block. */
    method StoreBlock(piece: nat, offset: nat, data: seq<byte>) returns (ok: bool)
      requires Valid() && piece < storage.geometry.pieceCount && |data| > 0 && Sound(writer.results) && Steady(writer.results)
      modifies this`phase, this`damaged, this`shadowed, storage`buffers, storage.files
      ensures Valid() && old(storage.files.ops) <= storage.files.ops
      ensures ok <==> storage.Fits(piece, offset, |data|) && storage.files.Sound(old(storage.files.ops), storage.files.ops)
      ensures phase == if ok then old(phase) else Scheduler.Failed
      ensures !storage.Fits(piece, offset, |data|) ==>
                storage.buffers == old(storage.buffers) && storage.files.flat == old(storage.files.flat) && damaged == old(damaged) && shadowed == old(shadowed)
      ensures Sound(writer.results) && Steady(writer.results)
      ensures damaged == old(damaged) || (damaged == old(damaged) + {piece} && !old(Repeats(piece, offset, data)))
      ensures shadowed == if old(LateRepeats(piece, offset, data)) then old(shadowed) else old(shadowed) + {piece}
      ensures forall q :: 0 <= q < storage.geometry.pieceCount && q != piece ==> storage.View(q) == old(storage.View(q)) && storage.OnCard(q) == old(storage.OnCard(q))
      ensures ok && old(storage.BackedBut(piece, offset, |data|)) ==> storage.Backed(piece)
      ensures ok ==> (WhollyBuffered(storage.buffers, piece) <==> storage.WholeOnceStored(old(storage.buffers), piece, offset, |data|))
      ensures ok && BlockShaped(offset, |data|, SizeOfPiece(storage.geometry, piece)) ==>
                storage.View(piece) == Splice(old(storage.View(piece)), offset, data)
    {
      hide BuffersOk, ViewOf, PieceSlice, SizeOfPiece, Contiguous, FileAgrees, Files.Valid, Files.Sound, Inv, Shape, Find, Splice, BlockShaped, SteadyIn, Completed, PieceWriter.InHands, LateBlockRepeats, Storage.Backed, Storage.BackedBut, LateRepeats, WhollyBuffered, Storage.WholeOnceStored;
      ok := WriteSteadily(piece, offset, data);
      if !ok {
        phase := Scheduler.Failed;
      }
      if Completed(picker.have, writer.results, piece) && !Good(piece) {
        damaged := damaged + {piece};
      }
      forall p | 0 <= p < storage.geometry.pieceCount && p !in damaged && Completed(picker.have, writer.results, p)
        ensures Good(p)
      {
        assert p != piece ==> old(Good(p));
      }
    }

    /** The same, seen from the buffers and from the bytes on the card. */
    method WriteSteadily(piece: nat, offset: nat, data: seq<byte>) returns (ok: bool)
      requires Valid() && piece < storage.geometry.pieceCount && |data| > 0 && Steady(writer.results)
      modifies this`shadowed, storage`buffers, storage.files
      ensures Valid() && old(storage.files.ops) <= storage.files.ops && Steady(writer.results)
      ensures ok <==> storage.Fits(piece, offset, |data|) && storage.files.Sound(old(storage.files.ops), storage.files.ops)
      ensures !storage.Fits(piece, offset, |data|) ==>
                storage.buffers == old(storage.buffers) && storage.files.flat == old(storage.files.flat) && shadowed == old(shadowed)
      ensures old(Repeats(piece, offset, data)) && Completed(picker.have, writer.results, piece) ==> storage.OnCard(piece) == old(storage.OnCard(piece))
      ensures shadowed == if old(LateRepeats(piece, offset, data)) then old(shadowed) else old(shadowed) + {piece}
      ensures forall q :: 0 <= q < storage.geometry.pieceCount && q != piece ==> storage.View(q) == old(storage.View(q)) && storage.OnCard(q) == old(storage.OnCard(q))
      ensures ok && old(storage.BackedBut(piece, offset, |data|)) ==> storage.Backed(piece)
      ensures ok ==> (WhollyBuffered(storage.buffers, piece) <==> storage.WholeOnceStored(old(storage.buffers), piece, offset, |data|))
      ensures ok && BlockShaped(offset, |data|, SizeOfPiece(storage.geometry, piece)) ==>
                storage.View(piece) == Splice(old(storage.View(piece)), offset, data)
    {
      hide BuffersOk, ViewOf, PieceSlice, SizeOfPiece, Contiguous, FileAgrees, Files.Valid, Files.Sound, Inv, Shape, Find, Splice, Overlay, BufferWrite, Storage.TargetBuffer, BlockShaped, OthersKept, SteadyIn, Completed, PieceWriter.InHands, BufferOf, LateBlockRepeats, Storage.Backed, Storage.BackedBut, WhollyBuffered, Storage.WholeOnceStored;
      ghost var c0, late := storage.OnCard(piece), LateRepeats(piece, offset, data);
      ghost var buffered, n;
      ok, buffered, n := storage.WriteBlock(piece, offset, data);
      ghost var fits := storage.Fits(piece, offset, |data|);
      if fits && Completed(picker.have, writer.results, piece) && old(Repeats(piece, offset, data)) && !buffered {
        RepeatIsNoChange(c0, offset, data, n);
      }
      forall q | 0 <= q < storage.geometry.pieceCount && q != piece
        ensures PieceSlice(storage.geometry, storage.files.flat, q) == PieceSlice(storage.geometry, old(storage.files.flat), q)
      {
        assert storage.OnCard(q) == old(storage.OnCard(q));
      }
      if !late {
        shadowed := shadowed + {piece};
      }
      TargetIs(old(storage.buffers), piece);
      StoredSteady(storage, old(shadowed), shadowed, picker.have, writer.results, writer.InHands(), old(storage.buffers), old(storage.files.flat),
                   storage.buffers, storage.files.flat, piece, offset, data, n, storage.TargetBuffer(old(storage.buffers), piece), fits);
    }

    /** What submit waits for: the engine stands still while the writer makes room. */
    method WaitForRoom(size: nat)
      requires Valid() && Integrity() && (writer.running ==> !writer.exited)
      modifies writer, storage.files
      ensures Valid() && Integrity() && writer.HasRoom(size) && writer.running == old(writer.running) && (writer.running ==> !writer.exited)
      ensures writer.Outstanding() == old(writer.Outstanding()) && old(storage.files.ops) <= storage.files.ops
    {
      hide Inv, Awaited, Sound, SteadyIn, Storage.Valid, ReportPieces, JobPieces, HandPieces, PieceWriter.Valid, PieceWriter.Outstanding, PieceWriter.InHands;
      while !writer.HasRoom(size)
        invariant Valid() && Integrity() && writer.running == old(writer.running) && old(storage.files.ops) <= storage.files.ops
        invariant writer.running ==> !writer.exited
        invariant writer.Outstanding() == old(writer.Outstanding())
        invariant old(Steady(writer.results)) ==> Steady(writer.results)
        decreases |writer.jobs|, if writer.hand.Idle? then 0 else 1
      {
        WriterStep();
      }
    }

    lemma TargetIs(bufs: seq<PieceBuffer>, piece: nat)
      requires Metainfo.Valid(storage.geometry) && piece < storage.geometry.pieceCount
      ensures storage.TargetBuffer(bufs, piece) == TargetOf(BufferOf(bufs, piece), piece, SizeOfPiece(storage.geometry, piece))
    {
    }

    /** The synchronous path: verify, then finish; the writer thread may run in between. */
    method CheckNow(piece: nat, pause: nat)
      requires Valid() && Integrity() && piece < storage.geometry.pieceCount && piece !in writer.Outstanding() && !picker.have[piece]
      requires writer.running ==> !writer.exited
      modifies this, picker, writer, storage`buffers, storage.files
      ensures Valid() && old(storage.files.ops) <= storage.files.ops && writer.Outstanding() == old(writer.Outstanding())
      ensures writer.running == old(writer.running) && (writer.running ==> !writer.exited)
      ensures Integrity() && shadowed == old(shadowed)
      ensures damaged == old(damaged) || (damaged == old(damaged) + {piece} && CommitFailed(piece, old(storage.files.ops)))
      ensures forall q :: 0 <= q < storage.geometry.pieceCount && q != piece && q !in writer.Outstanding() ==>
                storage.View(q) == old(storage.View(q)) && storage.OnCard(q) == old(storage.OnCard(q))
      ensures Checked(old(picker.S()), piece) && (picker.have[piece] ==> storage.sha1(old(storage.View(piece))) == storage.hashes[piece])
      ensures WhollyBuffered(old(storage.buffers), piece) || (old(storage.Backed(piece)) && storage.files.Sound(old(storage.files.ops), storage.files.ops)) ==>
                (picker.have[piece] <==> storage.sha1(old(storage.View(piece))) == storage.hashes[piece])
      ensures storage.files.Sound(old(storage.files.ops), storage.files.ops) ==>
                phase == if picker.have[piece] && Full(picker.have) then Scheduler.Seeding else old(phase)
    {
      hide Inv, BuffersOk, ViewOf, PieceSlice, SizeOfPiece, Contiguous, FileAgrees, Files.Valid, Files.Sound, Awaited, Sound, SteadyIn, JobPieces, HandPieces, PieceWriter.Valid, PieceWriter.Outstanding, PieceWriter.InHands, Settled, Find, OthersKept, Completed, WhollyBuffered, Verified, Full, Storage.Backed, Storage.BackedBut, BufferOf, Storage.View, Storage.OnCard, Grown;
      HaveAfterVerified(picker.geometry, picker.S(), piece);
      ghost var o0 := storage.files.ops;
      var hashOk := Verify(piece);
      ghost var o1 := storage.files.ops;
      WriterRuns(pause);
      ghost var o2 := storage.files.ops;
      NotInHands(piece);
      FinishPiece(piece, hashOk, true, false, writer.results, writer.results, writer.Outstanding());
      storage.files.SoundJoins(o0, o1, o2);
      storage.files.SoundJoins(o0, o2, storage.files.ops);
    }

    /** verify_piece costs nothing. */
    method Verify(piece: nat) returns (r: bool)
      requires Valid() && Integrity() && piece < storage.geometry.pieceCount && piece !in writer.Outstanding() && !picker.have[piece]
      modifies storage`buffers, storage.files
      ensures Valid() && Integrity() && old(storage.files.ops) <= storage.files.ops
      ensures forall q :: 0 <= q < storage.geometry.pieceCount ==> storage.View(q) == old(storage.View(q))
      ensures forall q :: 0 <= q < storage.geometry.pieceCount && q != piece ==> storage.OnCard(q) == old(storage.OnCard(q))
      ensures r ==> storage.sha1(storage.View(piece)) == storage.hashes[piece]
      ensures WhollyBuffered(old(storage.buffers), piece) || (old(storage.Backed(piece)) && storage.files.Sound(old(storage.files.ops), storage.files.ops)) ==>
                (r <==> storage.sha1(storage.View(piece)) == storage.hashes[piece])
    {
      hide Inv, BuffersOk, ViewOf, PieceSlice, SizeOfPiece, Contiguous, FileAgrees, Files.Valid, Files.Sound, Awaited, SteadyIn, JobPieces, HandPieces, PieceWriter.Valid, PieceWriter.Outstanding, PieceWriter.InHands, Settled, Find, OthersKept, Completed, WhollyBuffered, Storage.Backed, Storage.BackedBut, BufferOf;
      NotInHands(piece);
      NotCompleted(picker.have, writer.results, piece);
      r := storage.VerifyPiece(piece);
      forall q | 0 <= q < storage.geometry.pieceCount && q != piece
        ensures PieceSlice(storage.geometry, storage.files.flat, q) == PieceSlice(storage.geometry, old(storage.files.flat), q)
      {
        assert storage.OnCard(q) == old(storage.OnCard(q));
      }
      forall p | 0 <= p < storage.geometry.pieceCount && p !in damaged && Completed(picker.have, writer.results, p)
        ensures Good(p)
      {
        assert old(Good(p));
      }
      NoBufferSteady(storage, shadowed, picker.have, writer.results, writer.InHands(), old(storage.buffers), old(storage.files.flat),
                     picker.have, storage.buffers, storage.files.flat, piece);
    }

    /** The piece was marked as held, and then the card refused part of it. */
    ghost predicate CommitFailed(piece: nat, ops0: nat)
      reads this, picker, storage.files
    {
      phase == Scheduler.Failed && piece < |picker.have| && picker.have[piece] && !storage.files.Sound(ops0, storage.files.ops)
    }

    /** The picker has been told of the check of the piece, and nothing else. */
    ghost predicate Checked(s: State, piece: nat)
      reads picker
    {
      Inv(picker.geometry, s) && piece < |picker.have| && picker.S() == Verified(picker.geometry, s, piece, picker.have[piece])
    }

    /** A full piece: to the writer thread if it is all in memory, or checked on the spot. */
    method HandOver(piece: nat, pause: nat)
      requires Valid() && Integrity() && piece < storage.geometry.pieceCount && (writer.running ==> !writer.exited)
      requires Settled(picker.S(), piece) && piece !in writer.Outstanding() && !picker.have[piece]
      modifies this, picker, writer, storage`buffers, storage.files
      ensures Valid() && Integrity() && old(storage.files.ops) <= storage.files.ops && shadowed == old(shadowed)
      ensures damaged == old(damaged) || (damaged == old(damaged) + {piece} && CommitFailed(piece, old(storage.files.ops)))
      ensures if writer.running && WhollyBuffered(old(storage.buffers), piece) then
                && picker.S() == old(picker.S()) && writer.Outstanding() == old(writer.Outstanding()) + [piece] && phase == old(phase)
                && |writer.jobs| > 0 && writer.jobs[|writer.jobs| - 1] == Job(piece, old(storage.View(piece)))
              else
                && Checked(old(picker.S()), piece) && writer.Outstanding() == old(writer.Outstanding())
                && (old(storage.Backed(piece)) && storage.files.Sound(old(storage.files.ops), storage.files.ops) ==>
                      (picker.have[piece] <==> storage.sha1(old(storage.View(piece))) == storage.hashes[piece]))
                && (forall q :: 0 <= q < storage.geometry.pieceCount && q != piece && q !in writer.Outstanding() ==>
                      storage.View(q) == old(storage.View(q)) && storage.OnCard(q) == old(storage.OnCard(q)))
                && (storage.files.Sound(old(storage.files.ops), storage.files.ops) ==>
                      phase == if picker.have[piece] && Full(picker.have) then Scheduler.Seeding else old(phase))
      ensures writer.running == old(writer.running) && (writer.running ==> !writer.exited)
      ensures picker.have[piece] ==> storage.sha1(old(storage.View(piece))) == storage.hashes[piece]
    {
      hide Inv, BuffersOk, ViewOf, PieceSlice, SizeOfPiece, Contiguous, FileAgrees, Files.Valid, Files.Sound, Awaited, SteadyIn, ReportPieces, JobPieces, HandPieces, PieceWriter.Valid, PieceWriter.Outstanding, PieceWriter.InHands, Settled, Find, WhollyBuffered, CommitFailed, Checked, Full, OthersKept, Storage.Backed, Storage.BackedBut;
      if writer.running {
        var got, whole := storage.TakeCompletePiece(piece);
        if got {
          NotInHands(piece);
          NotCompleted(picker.have, writer.results, piece);
          NoBufferSteady(storage, shadowed, picker.have, writer.results, writer.InHands(), old(storage.buffers), storage.files.flat,
                         picker.have, storage.buffers, storage.files.flat, piece);
          Queue(piece, whole);
          return;
        }
      }
      CheckNow(piece, pause);
    }

    /** The piece has left its buffer for the writer's queue. */
    method Queue(piece: nat, whole: seq<byte>)
      requires Valid() && Integrity() && piece < storage.geometry.pieceCount && writer.running && !writer.exited
      requires Settled(picker.S(), piece) && piece !in writer.Outstanding() && !picker.have[piece] && Find(storage.buffers, piece) < 0
      modifies writer, storage.files
      ensures Valid() && Integrity() && old(storage.files.ops) <= storage.files.ops && writer.running && !writer.exited
      ensures writer.Outstanding() == old(writer.Outstanding()) + [piece]
      ensures |writer.jobs| > 0 && writer.jobs[|writer.jobs| - 1] == Job(piece, whole)
    {
      hide Inv, BuffersOk, ViewOf, PieceSlice, SizeOfPiece, Contiguous, FileAgrees, Files.Valid, Awaited, SteadyIn, ReportPieces, JobPieces, HandPieces, PieceWriter.Valid, PieceWriter.Outstanding, PieceWriter.InHands, Settled, Find, Completed;
      ghost var before := writer.Outstanding();
      WaitForRoom(|whole|);
      ghost var hands := writer.InHands();
      writer.Submit(piece, whole);
      AwaitedSnoc(picker.S(), before, piece, storage.geometry.pieceCount);
      QueuedSteady(storage, shadowed, picker.have, writer.results, hands, storage.buffers, storage.files.flat, Job(piece, whole));
    }

    predicate Considers(piece: nat, data: seq<byte>)
      reads this
    {
      ConsidersIn(storage, phase, piece, data)
    }

    /**
     * on_peer_block, the writer thread running alongside: it gets some turns after the block has been
     * stored, and some between the check of a full piece and what follows from it. A block can harm
     * at most the piece it names; one that repeats what is there, or that is not of a completed
     * piece, harms none unless the card fails the piece's commit.
     */
    method OnPeerBlock(piece: nat, offset: nat, data: seq<byte>, pauses: (nat, nat))
      requires Valid() && Integrity() && (writer.running ==> !writer.exited)
      modifies this, picker, writer, storage`buffers, storage.files
      ensures Valid() && Integrity() && old(storage.files.ops) <= storage.files.ops
      ensures writer.running == old(writer.running) && (writer.running ==> !writer.exited)
      ensures damaged == old(damaged) ||
              (damaged == old(damaged) + {piece} && (!old(Repeats(piece, offset, data)) || CommitFailed(piece, old(storage.files.ops))))
      ensures shadowed == if old(Considers(piece, data)) && !old(LateRepeats(piece, offset, data)) then old(shadowed) + {piece} else old(shadowed)
      ensures !old(Considers(piece, data)) ==> Now() == old(Now())
      ensures old(Considers(piece, data)) && !storage.Fits(piece, offset, |data|) ==> Now() == old(Now()).(phase := Scheduler.Failed, ops := storage.files.ops)
      ensures old(Considers(piece, data)) && storage.Fits(piece, offset, |data|) && storage.files.Sound(old(storage.files.ops), storage.files.ops) ==>
                var (t, full) := Receive(picker.geometry, old(picker.S()), piece, offset);
                if !full then
                  && picker.S() == t && writer.Outstanding() == old(writer.Outstanding()) && phase == old(phase)
                  && (BlockShaped(offset, |data|, SizeOfPiece(storage.geometry, piece)) && piece !in writer.Outstanding() ==>
                        storage.View(piece) == Splice(old(storage.View(piece)), offset, data))
                else if writer.running && storage.WholeOnceStored(old(storage.buffers), piece, offset, |data|) then
                  && picker.S() == t && writer.Outstanding() == old(writer.Outstanding()) + [piece] && phase == old(phase)
                  && |writer.jobs| > 0 && writer.jobs[|writer.jobs| - 1].piece == piece
                  && (BlockShaped(offset, |data|, SizeOfPiece(storage.geometry, piece)) ==>
                        writer.jobs[|writer.jobs| - 1].data == Splice(old(storage.View(piece)), offset, data))
                else
                  && Checked(t, piece) && phase == (if picker.have[piece] && Full(picker.have) then Scheduler.Seeding else old(phase))
                  && writer.Outstanding() == old(writer.Outstanding())
                  && (BlockShaped(offset, |data|, SizeOfPiece(storage.geometry, piece)) && picker.have[piece] ==>
                        storage.sha1(Splice(old(storage.View(piece)), offset, data)) == storage.hashes[piece])
                  && (BlockShaped(offset, |data|, SizeOfPiece(storage.geometry, piece)) && old(storage.BackedBut(piece, offset, |data|)) ==>
                        (picker.have[piece] <==> storage.sha1(Splice(old(storage.View(piece)), offset, data)) == storage.hashes[piece]))
      ensures writer.Outstanding() == old(writer.Outstanding()) ==>
                forall q :: 0 <= q < storage.geometry.pieceCount && q != piece && q !in writer.Outstanding() ==>
                  storage.View(q) == old(storage.View(q)) && storage.OnCard(q) == old(storage.OnCard(q))
    {
      hide Inv, Awaited, Good, SteadyIn, Storage.Valid, ReportPieces, JobPieces, HandPieces, PieceWriter.Valid, PieceWriter.Outstanding, PieceWriter.InHands, Receive, Settled, Storage.View, Storage.OnCard, Storage.Fits, Files.Sound, WhollyBuffered, CommitFailed, Checked, Full, Completed, BlockShaped, Splice, Verified, Repeats, LateRepeats, Storage.Backed, Storage.BackedBut, Storage.WholeOnceStored, Grown;
      storage.files.NothingAsked(storage.files.ops);
      if phase == Scheduler.Paused || phase == Scheduler.Queued || piece >= storage.geometry.pieceCount || |data| == 0 {
        return;
      }
      ghost var o0 := storage.files.ops;
      var ok := StoreBlock(piece, offset, data);
      ghost var o1 := storage.files.ops;
      if !ok {
        return;
      }
      BlockStored(piece, offset, pauses);
      storage.files.SoundJoins(o0, o1, storage.files.ops);
      CommitFailedSince(piece, o0, o1);
    }

    /** The rest of on_peer_block, once the block has been stored. */
    method BlockStored(piece: nat, offset: nat, pauses: (nat, nat))
      requires Valid() && Integrity() && piece < storage.geometry.pieceCount && (writer.running ==> !writer.exited)
      modifies this, picker, writer, storage`buffers, storage.files
      ensures Valid() && Integrity() && old(storage.files.ops) <= storage.files.ops && shadowed == old(shadowed)
      ensures writer.running == old(writer.running) && (writer.running ==> !writer.exited)
      ensures damaged == old(damaged) || (damaged == old(damaged) + {piece} && CommitFailed(piece, old(storage.files.ops)))
      ensures storage.files.Sound(old(storage.files.ops), storage.files.ops) ==>
                var (t, full) := Receive(picker.geometry, old(picker.S()), piece, offset);
                if !full then
                  && picker.S() == t && writer.Outstanding() == old(writer.Outstanding()) && phase == old(phase)
                  && (piece !in writer.Outstanding() ==> storage.View(piece) == old(storage.View(piece)))
                else if writer.running && WhollyBuffered(old(storage.buffers), piece) then
                  && picker.S() == t && writer.Outstanding() == old(writer.Outstanding()) + [piece] && phase == old(phase)
                  && |writer.jobs| > 0 && writer.jobs[|writer.jobs| - 1] == Job(piece, old(storage.View(piece)))
                else
                  && Checked(t, piece) && phase == (if picker.have[piece] && Full(picker.have) then Scheduler.Seeding else old(phase))
                  && writer.Outstanding() == old(writer.Outstanding())
                  && (picker.have[piece] ==> storage.sha1(old(storage.View(piece))) == storage.hashes[piece])
                  && (old(storage.Backed(piece)) ==> (picker.have[piece] <==> storage.sha1(old(storage.View(piece))) == storage.hashes[piece]))
      ensures writer.Outstanding() == old(writer.Outstanding()) ==>
                forall q :: 0 <= q < storage.geometry.pieceCount && q != piece && q !in writer.Outstanding() ==>
                  storage.View(q) == old(storage.View(q)) && storage.OnCard(q) == old(storage.OnCard(q))
    {
      hide Inv, Awaited, Good, SteadyIn, Storage.Valid, ReportPieces, JobPieces, HandPieces, PieceWriter.Valid, PieceWriter.Outstanding, PieceWriter.InHands, Receive, Settled, Storage.View, Storage.OnCard, Files.Sound, WhollyBuffered, CommitFailed, Checked, Full, Completed, Verified, Storage.Backed;
      ghost var o1 := storage.files.ops;
      WriterRuns(pauses.0);
      ghost var o2 := storage.files.ops;
      AwaitedThroughReceive(picker.geometry, picker.S(), piece, offset, writer.Outstanding(), storage.geometry.pieceCount);
      var full := picker.OnBlockReceived(piece, offset);
      if full {
        HandOver(piece, pauses.1);
        storage.files.SoundJoins(o1, o2, storage.files.ops);
        CommitFailedSince(piece, o1, o2);
      }
    }

    lemma CommitFailedSince(piece: nat, o0: nat, o1: nat)
      requires o0 <= o1 <= storage.files.ops
      ensures CommitFailed(piece, o1) ==> CommitFailed(piece, o0)
    {
    }

    // --- requests and peers: they touch the picker alone -----------------------------------

    /** request_blocks, for a peer that may be asked max more blocks. */
    method RequestBlocks(peer: seq<bool>, max: nat, now: nat) returns (out: seq<BlockRequest>)
      requires Valid() && Integrity()
      modifies picker`progress, picker`pending, picker`pickCursor
      ensures Valid() && Integrity() && |out| <= max
      ensures PickRules.Requested(picker.geometry, old(picker.S()), picker.S(), PickRules.KeysOf(out), now)
    {
      hide Inv, Awaited, SteadyIn, Completed, Storage.Valid, PieceWriter.Valid, PieceWriter.Outstanding, PieceWriter.InHands, PickRules.Requested, PickRules.RequestOk, Good;
      ghost var s, begun := picker.S(), [];
      out, begun := picker.Pick(peer, max, now);
      OtherStepsKeep(picker.geometry, s, PickerRuns.Asked(peer, PickRules.Endgame(picker.geometry, s), out, now), picker.S(),
                     writer.Outstanding(), storage.geometry.pieceCount);
    }

    /** A request lost to a choke; requests begin where a block begins. */
    method DropRequest(piece: nat, offset: nat)
      requires Valid() && Integrity() && offset < TWO32 && offset % BLOCK == 0
      modifies picker
      ensures Valid() && Integrity() && picker.S() == Drop(picker.geometry, old(picker.S()), piece, offset)
    {
      hide Inv, Awaited, SteadyIn, Completed, Storage.Valid, PieceWriter.Valid, PieceWriter.Outstanding, PieceWriter.InHands, Drop, Good;
      ghost var s := picker.S();
      DropInv(picker.geometry, s, piece, offset);
      picker.OnRequestDropped(piece, offset);
      OtherStepsKeep(picker.geometry, s, PickerRuns.Dropped(piece, offset), picker.S(), writer.Outstanding(), storage.geometry.pieceCount);
    }

    /** expire_requests of a tick. */
    method ExpireRequests(now: nat, timeout: nat)
      requires Valid() && Integrity()
      modifies picker
      ensures Valid() && Integrity() && Released(old(picker.S()), picker.S(), PickerState.Expired(old(picker.pending), now, timeout))
    {
      hide Inv, Awaited, SteadyIn, Completed, Storage.Valid, PieceWriter.Valid, PieceWriter.Outstanding, PieceWriter.InHands, Released, Good;
      ghost var s := picker.S();
      var freed := picker.ExpireRequests(now, timeout);
      OtherStepsKeep(picker.geometry, s, PickerRuns.Expired(PickerState.Expired(s.pending, now, timeout)), picker.S(), writer.Outstanding(), storage.geometry.pieceCount);
    }

    /** A peer's pieces come to be known of, or go with it. */
    method PeerPieces(pieces: seq<bool>, joins: bool)
      requires Valid() && Integrity()
      modifies picker`availability
      ensures Valid() && Integrity() && picker.S() == old(picker.S()).(availability := picker.availability)
    {
      hide Inv, Awaited, SteadyIn, Completed, Storage.Valid, PieceWriter.Valid, PieceWriter.Outstanding, PieceWriter.InHands, Good;
      ghost var s := picker.S();
      if joins {
        picker.PeerAdded(pieces);
      } else {
        picker.PeerRemoved(pieces);
      }
      OtherStepsKeep(picker.geometry, s, PickerRuns.PeersChanged, picker.S(), writer.Outstanding(), storage.geometry.pieceCount);
    }

    /** PieceWriter::stop, up to the join. */
    method Stop()
      requires Valid() && Integrity()
      modifies writer`running
      ensures Valid() && Integrity() && !writer.running
    {
      hide Inv, Awaited, SteadyIn, Sound, Storage.Valid, PieceWriter.Outstanding;
      writer.RequestStop();
    }

    /**
     * Closing the store writes out whatever buffers remain. On a card that works, a piece ends up
     * good exactly when what the store presented of it is right. Completed pieces that are neither
     * damaged nor shadowed stay good whatever the card does.
     */
    method Close()
      requires Valid() && Integrity()
      modifies this`damaged, this`shadowed, storage`buffers, storage.files
      ensures Valid() && Integrity() && old(storage.files.ops) <= storage.files.ops && storage.buffers == []
      ensures storage.files.Sound(old(storage.files.ops), storage.files.ops) ==>
                forall p :: 0 <= p < storage.geometry.pieceCount ==> (Good(p) <==> old(storage.sha1(storage.View(p))) == storage.hashes[p])
      ensures damaged == old(damaged) + old(shadowed) && shadowed == {}
      ensures forall p :: 0 <= p < storage.geometry.pieceCount && p !in damaged && Completed(picker.have, writer.results, p) ==>
                storage.OnCard(p) == old(storage.OnCard(p))
    {
      hide Inv, BuffersOk, ViewOf, PieceSlice, SizeOfPiece, Contiguous, FileAgrees, Files.Valid, Files.Sound, Awaited, PieceWriter.Valid, PieceWriter.Outstanding, SteadyIn, Completed, Between, PieceWriter.InHands, BufferOf, Find;
      SteadyShows();
      storage.Close();
      damaged, shadowed := damaged + shadowed, {};
      forall p | 0 <= p < storage.geometry.pieceCount && p !in damaged && Completed(picker.have, writer.results, p)
        ensures storage.OnCard(p) == old(storage.OnCard(p)) && Good(p)
      {
        NothingNew(old(storage.OnCard(p)), storage.OnCard(p));
      }
      EmptySteady(storage, {}, picker.have, writer.results, writer.InHands(), storage.files.flat);
    }

    /** What is presented of a completed piece is what is on the card, and so has the right hash. */
    lemma SteadyShows()
      requires Valid() && Sound(writer.results) && Steady(writer.results)
      ensures forall p :: 0 <= p < storage.geometry.pieceCount && p !in damaged && p !in shadowed && Completed(picker.have, writer.results, p) ==>
                storage.View(p) == storage.OnCard(p) && storage.sha1(storage.View(p)) == storage.hashes[p]
    {
      hide Inv, BuffersOk, ViewOf, PieceSlice, SizeOfPiece, Contiguous, FileAgrees, Files.Valid, PieceWriter.Valid, Completed, Overlay, Find, PieceWriter.InHands;
      forall p | 0 <= p < storage.geometry.pieceCount && p !in damaged && p !in shadowed && Completed(picker.have, writer.results, p)
        ensures storage.View(p) == storage.OnCard(p) && Good(p)
      {
        assert PieceSteady(storage, picker.have, writer.results, writer.InHands(), storage.buffers, storage.files.flat, p);
        ViewIs(storage.geometry, storage.files.flat, storage.buffers, p);
      }
    }
  }

  // --- whole runs ----------------------------------------------------------------------------

  /** What can happen next: a block comes, the writer thread gets a turn, the engine does one of its chores. */
  datatype Turn =
    | Block(piece: nat, offset: nat, data: seq<byte>, pauses: (nat, nat))
    | WriterTurn
    | CollectTurn
    | StopTurn
    | AskTurn(peer: seq<bool>, max: nat, now: nat)
    | DropTurn(piece: nat, offset: nat)
    | ExpireTurn(now: nat, timeout: nat)
    | PeerTurn(pieces: seq<bool>, joins: bool)

  /** Only requests that were made are lost, and those begin where a block begins. */
  predicate Possible(turn: Turn)
  {
    turn.DropTurn? ==> turn.offset < TWO32 && turn.offset % BLOCK == 0
  }

  /** The pieces that blocks were received for. */
  ghost function Named(turns: seq<Turn>): set<nat>
  {
    set t | t in turns && t.Block? :: t.piece
  }

  /** Integrity, of a state as values. */
  ghost predicate Sane(s: Storage, a: Snap)
  {
    && Shaped(s, a.flat) && Inv(s.geometry, a.picker) && |a.picker.have| == s.geometry.pieceCount && BuffersOk(s.geometry, a.bufs)
    && (forall p :: 0 <= p < s.geometry.pieceCount && p !in a.damaged && Completed(a.picker.have, a.results, p) ==> GoodIn(s, a.flat, p))
    && SteadyIn(s, a.shadowed, a.picker.have, a.results, a.hands, a.bufs, a.flat)
    && Awaited(a.picker, a.outstanding, s.geometry.pieceCount)
  }

  ghost predicate GoodIn(s: Storage, flat: seq<byte>, p: nat)
    requires Shaped(s, flat) && p < s.geometry.pieceCount
  {
    s.sha1(PieceSlice(s.geometry, flat, p)) == s.hashes[p]
  }

  /** What the picker and the writer are told of a block that was stored. */
  ghost predicate BlockTold(s: Storage, a: Snap, piece: nat, offset: nat, len: nat, b: Snap)
    requires Shaped(s, a.flat) && Inv(s.geometry, a.picker) && piece < s.geometry.pieceCount && Inv(s.geometry, b.picker)
  {
    var (t, full) := Receive(s.geometry, a.picker, piece, offset);
    if !full then
      b.picker == t && b.outstanding == a.outstanding && b.phase == a.phase
    else if a.running && s.WholeOnceStored(a.bufs, piece, offset, len) then
      b.picker == t && b.outstanding == a.outstanding + [piece] && b.phase == a.phase
    else
      && Inv(s.geometry, t) && piece < |b.picker.have| && b.picker == Verified(s.geometry, t, piece, b.picker.have[piece])
      && b.outstanding == a.outstanding && b.phase == if b.picker.have[piece] && Full(b.picker.have) then Scheduler.Seeding else a.phase
  }

  /** A block harms at most the piece it names, and that only if it repeats other bytes or the card fails the commit. */
  ghost predicate BlockStep(s: Storage, a: Snap, piece: nat, offset: nat, data: seq<byte>, b: Snap)
    requires Sane(s, a) && Sane(s, b)
  {
    && (b.damaged == a.damaged ||
        (b.damaged == a.damaged + {piece} && (RepeatsIn(s, a.picker.have, a.results, a.flat, piece, offset, data) ==> CommitLost(s, a, piece, b))))
    && b.shadowed == (if ConsidersIn(s, a.phase, piece, data) && !LateRepeatsIn(s, a.picker.have, a.results, a.hands, a.flat, piece, offset, data)
                      then a.shadowed + {piece} else a.shadowed)
    && b.running == a.running
    && if !ConsidersIn(s, a.phase, piece, data) then b == a
       else if !s.Fits(piece, offset, |data|) then b == a.(phase := Scheduler.Failed, ops := b.ops)
       else s.files.Sound(a.ops, b.ops) ==> BlockTold(s, a, piece, offset, |data|, b)
  }

  ghost predicate CommitLost(s: Storage, a: Snap, piece: nat, b: Snap)
  {
    b.phase == Scheduler.Failed && piece < |b.picker.have| && b.picker.have[piece] && !s.files.Sound(a.ops, b.ops)
  }

  /** The writer finishes its oldest job: the report is exact, and the other pieces on the card stay as they are. */
  ghost predicate WriterStepped(s: Storage, a: Snap, b: Snap)
    requires Shaped(s, a.flat) && Shaped(s, b.flat)
  {
    && |a.hands| > 0 && a.hands[0].piece < s.geometry.pieceCount
    && var j := a.hands[0];
       var outcome := if !s.HashMatches(j.piece, j.data) then HashFailed else if s.files.Sound(a.ops, b.ops) then Written else WriteFailed;
    && b == a.(flat := b.flat, ops := b.ops, hands := a.hands[1..], results := a.results + [Report(j.piece, outcome)])
    && (outcome == Written ==> PieceSlice(s.geometry, b.flat, j.piece) == j.data)
    && forall q :: 0 <= q < s.geometry.pieceCount && q != j.piece ==> PieceSlice(s.geometry, b.flat, q) == PieceSlice(s.geometry, a.flat, q)
  }

  /** The engine hears of every report: it holds the pieces written, and has one answer fewer to wait for each. */
  ghost predicate CollectStep(a: Snap, b: Snap)
  {
    && b == a.(picker := b.picker, bufs := b.bufs, phase := b.phase, results := [], outstanding := b.outstanding)
    && a.outstanding == ReportPieces(a.results) + b.outstanding
    && HeldAfter(a.picker.have, a.results, b.picker.have) && PhaseAfter(a.phase, a.results, b.picker.have, b.phase)
  }

  ghost predicate AskStep(g: Geometry, a: Snap, max: nat, now: nat, b: Snap)
    requires Metainfo.Valid(g)
  {
    && b == a.(picker := b.picker)
    && exists out: seq<BlockRequest> :: |out| <= max && PickRules.Requested(g, a.picker, b.picker, PickRules.KeysOf(out), now)
  }

  ghost predicate StepOk(s: Storage, a: Snap, turn: Turn, b: Snap)
  {
    && Sane(s, a) && Sane(s, b) && a.ops <= b.ops
    && match turn {
         case Block(piece, offset, data, pauses) => BlockStep(s, a, piece, offset, data, b)
         case WriterTurn => b == a || WriterStepped(s, a, b)
         case CollectTurn => CollectStep(a, b)
         case StopTurn => b == a.(running := false)
         case AskTurn(peer, max, now) => AskStep(s.geometry, a, max, now, b)
         case DropTurn(piece, offset) => b == a.(picker := Drop(s.geometry, a.picker, piece, offset))
         case ExpireTurn(now, timeout) => b == a.(picker := b.picker) && Released(a.picker, b.picker, PickerState.Expired(a.picker.pending, now, timeout))
         case PeerTurn(pieces, joins) => b == a.(picker := a.picker.(availability := b.picker.availability))
       }
  }

  /** The states met, one before each turn and one at the end. */
  ghost predicate IsRun(s: Storage, trace: seq<Snap>, turns: seq<Turn>)
  {
    && |trace| == |turns| + 1 && Sane(s, trace[0])
    && forall i :: 0 <= i < |turns| ==> StepOk(s, trace[i], turns[i], trace[i + 1])
  }

  /** If the turn brings a block, it repeats its piece as far as that is completed. */
  ghost predicate RepeatsAt(s: Storage, a: Snap, turn: Turn)
  {
    Shaped(s, a.flat) && (turn.Block? ==> RepeatsIn(s, a.picker.have, a.results, a.flat, turn.piece, turn.offset, turn.data))
  }

  ghost predicate LateRepeatsAt(s: Storage, a: Snap, turn: Turn)
  {
    Shaped(s, a.flat) && (turn.Block? ==> LateRepeatsIn(s, a.picker.have, a.results, a.hands, a.flat, turn.piece, turn.offset, turn.data))
  }

  /** Every block for the piece repeats it once it is completed, and the card works whenever one comes. */
  ghost predicate Gentle(s: Storage, trace: seq<Snap>, turns: seq<Turn>, p: nat)
    requires |trace| == |turns| + 1
  {
    forall i :: 0 <= i < |turns| && turns[i].Block? && turns[i].piece == p ==>
      RepeatsAt(s, trace[i], turns[i]) && s.files.Sound(trace[i].ops, trace[i + 1].ops)
  }

  /** The same for every piece and a card that works throughout. */
  ghost predicate AllGentle(s: Storage, trace: seq<Snap>, turns: seq<Turn>)
    requires |trace| == |turns| + 1
  {
    (forall i :: 0 <= i < |turns| ==> RepeatsAt(s, trace[i], turns[i])) && s.files.Sound(trace[0].ops, trace[|turns|].ops)
  }

  /** Only a block for the piece can harm it, and not one that repeats it while the card works. */
  lemma StepHarm(s: Storage, a: Snap, turn: Turn, b: Snap, p: nat)
    requires StepOk(s, a, turn, b)
    ensures p !in a.damaged && p in b.damaged ==> turn.Block? && turn.piece == p && !(RepeatsAt(s, a, turn) && s.files.Sound(a.ops, b.ops))
    ensures p !in a.shadowed && p in b.shadowed ==> turn.Block? && turn.piece == p && !LateRepeatsAt(s, a, turn)
  {
    hide Completed, SteadyIn, Inv, BuffersOk, BlockTold, HeldAfter, PhaseAfter, Released, Drop, RepeatsIn, LateRepeatsIn, Awaited, Files.Sound, PieceSlice, ReportPieces, PickRules.Requested;
  }

  /** A piece to which no block did harm is never damaged: whatever else happened, once held it is on the card, and right. */
  lemma {:induction false} HeldIsGood(s: Storage, trace: seq<Snap>, turns: seq<Turn>, p: nat, k: nat)
    requires IsRun(s, trace, turns) && k <= |turns| && p < s.geometry.pieceCount
    requires Gentle(s, trace, turns, p) && p !in trace[0].damaged
    ensures Sane(s, trace[k]) && p !in trace[k].damaged
    ensures Completed(trace[k].picker.have, trace[k].results, p) ==> GoodIn(s, trace[k].flat, p)
  {
    hide StepOk, Completed, SteadyIn, Inv, BuffersOk, GoodIn, Awaited, Files.Sound, Shaped, RepeatsAt;
    SaneAt(s, trace, turns, k);
    if k > 0 {
      HeldIsGood(s, trace, turns, p, k - 1);
      assert StepOk(s, trace[k - 1], turns[k - 1], trace[k]);
      StepHarm(s, trace[k - 1], turns[k - 1], trace[k], p);
    }
  }

  lemma {:induction false} OpsGrow(s: Storage, trace: seq<Snap>, turns: seq<Turn>, i: nat, k: nat)
    requires IsRun(s, trace, turns) && i <= k <= |turns|
    ensures trace[i].ops <= trace[k].ops
    decreases k - i
  {
    hide Sane, BlockStep, WriterStepped, CollectStep, AskStep, Released, Drop;
    if i < k {
      OpsGrow(s, trace, turns, i, k - 1);
      assert StepOk(s, trace[k - 1], turns[k - 1], trace[k]);
    }
  }

  /**
   * The promise of the engine, for every run: if blocks that come for completed pieces repeat them
   * and the card works, then at every moment every piece held is on the card with the right hash.
   * False blocks for pieces that are not completed are allowed without limit.
   */
  lemma EveryHeldPieceGood(s: Storage, trace: seq<Snap>, turns: seq<Turn>, k: nat)
    requires IsRun(s, trace, turns) && k <= |turns| && AllGentle(s, trace, turns) && trace[0].damaged == {}
    ensures Sane(s, trace[k])
    ensures forall p :: 0 <= p < s.geometry.pieceCount && trace[k].picker.have[p] ==> GoodIn(s, trace[k].flat, p)
  {
    hide StepOk, RepeatsAt, SteadyIn, Inv, BuffersOk, Awaited, GoodIn, Shaped;
    forall i | 0 <= i < |turns|
      ensures s.files.Sound(trace[i].ops, trace[i + 1].ops)
    {
      OpsGrow(s, trace, turns, 0, i);
      OpsGrow(s, trace, turns, i, i + 1);
      OpsGrow(s, trace, turns, i + 1, |turns|);
    }
    SaneAt(s, trace, turns, k);
    forall p | 0 <= p < s.geometry.pieceCount && trace[k].picker.have[p]
      ensures GoodIn(s, trace[k].flat, p)
    {
      HeldIsGood(s, trace, turns, p, k);
      assert Completed(trace[k].picker.have, trace[k].results, p);
    }
  }

  lemma SaneAt(s: Storage, trace: seq<Snap>, turns: seq<Turn>, k: nat)
    requires IsRun(s, trace, turns) && k <= |turns|
    ensures Sane(s, trace[k])
  {
    hide Sane, BlockStep, WriterStepped, CollectStep, AskStep, Released, Drop;
    if k > 0 {
      assert StepOk(s, trace[k - 1], turns[k - 1], trace[k]);
    }
  }

  /** A piece whose late blocks also repeat what the writer is going to write is shown as it is on the card. */
  lemma {:induction false} HeldIsShown(s: Storage, trace: seq<Snap>, turns: seq<Turn>, p: nat, k: nat)
    requires IsRun(s, trace, turns) && k <= |turns| && p < s.geometry.pieceCount && p !in trace[0].shadowed
    requires forall i :: 0 <= i < |turns| && turns[i].Block? && turns[i].piece == p ==> LateRepeatsAt(s, trace[i], turns[i])
    ensures Sane(s, trace[k]) && p !in trace[k].shadowed
    ensures Completed(trace[k].picker.have, trace[k].results, p) ==> ViewOf(s.geometry, trace[k].flat, trace[k].bufs, p) == PieceSlice(s.geometry, trace[k].flat, p)
  {
    hide StepOk, Sane, LateRepeatsAt, Completed, ViewOf, PieceSlice;
    SaneAt(s, trace, turns, k);
    if k > 0 {
      HeldIsShown(s, trace, turns, p, k - 1);
      assert StepOk(s, trace[k - 1], turns[k - 1], trace[k]);
      StepHarm(s, trace[k - 1], turns[k - 1], trace[k], p);
    }
    if Completed(trace[k].picker.have, trace[k].results, p) {
      ShownAsIs(s, trace[k], p);
    }
  }

  lemma ShownAsIs(s: Storage, a: Snap, p: nat)
    requires Sane(s, a) && p < s.geometry.pieceCount && p !in a.shadowed && Completed(a.picker.have, a.results, p)
    ensures ViewOf(s.geometry, a.flat, a.bufs, p) == PieceSlice(s.geometry, a.flat, p)
  {
    hide Inv, BuffersOk, ViewOf, PieceSlice, SizeOfPiece, Contiguous, Completed, Overlay, Find, Awaited;
    assert PieceSteady(s, a.picker.have, a.results, a.hands, a.bufs, a.flat, p);
    ViewIs(s.geometry, a.flat, a.bufs, p);
  }

  /** Harm comes only to pieces that blocks came for. */
  lemma {:induction false} HarmIsNamed(s: Storage, trace: seq<Snap>, turns: seq<Turn>, p: nat, k: nat)
    requires IsRun(s, trace, turns) && k <= |turns| && p !in Named(turns) && p !in trace[0].damaged && p !in trace[0].shadowed
    ensures p !in trace[k].damaged && p !in trace[k].shadowed
  {
    hide StepOk, Sane, RepeatsAt, LateRepeatsAt, Files.Sound;
    if k > 0 {
      HarmIsNamed(s, trace, turns, p, k - 1);
      assert StepOk(s, trace[k - 1], turns[k - 1], trace[k]);
      StepHarm(s, trace[k - 1], turns[k - 1], trace[k], p);
      assert turns[k - 1] in turns;
    }
  }

  // --- honest peers ----------------------------------------------------------------------------

  /** Every block for the piece is true, and cut where a block or the piece ends. */
  ghost predicate Honest(turns: seq<Turn>, p: nat, c: seq<byte>)
  {
    forall i :: 0 <= i < |turns| && turns[i].Block? && turns[i].piece == p && turns[i].offset + |turns[i].data| <= |c| ==>
      LateBlockRepeats(c, turns[i].offset, turns[i].data)
  }

  /** No second content with the hash of the piece is on the card or with the writer. */
  ghost predicate NoOther(s: Storage, a: Snap, p: nat, c: seq<byte>)
    requires p < s.geometry.pieceCount
  {
    && Shaped(s, a.flat) && (GoodIn(s, a.flat, p) ==> PieceSlice(s.geometry, a.flat, p) == c)
    && forall j :: j in a.hands && j.piece == p && s.HashMatches(p, j.data) ==> j.data == c
  }

  /**
   * A piece about which nobody lies comes to no harm on a card that works, and once held it is
   * stored and shown as what was sent, unless the run turned up a second content with its hash.
   */
  lemma {:induction false} OneContent(s: Storage, trace: seq<Snap>, turns: seq<Turn>, p: nat, c: seq<byte>, k: nat)
    requires IsRun(s, trace, turns) && k <= |turns| && p < s.geometry.pieceCount && p !in trace[0].damaged && p !in trace[0].shadowed
    requires |c| == SizeOfPiece(s.geometry, p) && Honest(turns, p, c) && forall i :: 0 <= i <= |turns| ==> NoOther(s, trace[i], p, c)
    requires forall i :: 0 <= i < |turns| && turns[i].Block? && turns[i].piece == p ==> s.files.Sound(trace[i].ops, trace[i + 1].ops)
    ensures p !in trace[k].damaged && p !in trace[k].shadowed && Shaped(s, trace[k].flat) && BuffersOk(s.geometry, trace[k].bufs)
    ensures Completed(trace[k].picker.have, trace[k].results, p) ==>
              PieceSlice(s.geometry, trace[k].flat, p) == c && ViewOf(s.geometry, trace[k].flat, trace[k].bufs, p) == c
  {
    hide StepOk, Completed, SteadyIn, Inv, BuffersOk, GoodIn, RepeatsIn, LateRepeatsIn, Awaited, Files.Sound, ViewOf, PieceSlice, SizeOfPiece, Contiguous, Metainfo.Valid, LateBlockRepeats;
    SaneAt(s, trace, turns, k);
    if k > 0 {
      OneContent(s, trace, turns, p, c, k - 1);
      assert StepOk(s, trace[k - 1], turns[k - 1], trace[k]);
      StepHarm(s, trace[k - 1], turns[k - 1], trace[k], p);
      if turns[k - 1].Block? && turns[k - 1].piece == p {
        SaneAt(s, trace, turns, k - 1);
        HonestRepeats(s, trace[k - 1], p, c, turns[k - 1].offset, turns[k - 1].data);
      }
    }
    if Completed(trace[k].picker.have, trace[k].results, p) {
      ShownAsIs(s, trace[k], p);
    }
  }

  /** A true block repeats a completed piece, and any job with the right hash. */
  lemma HonestRepeats(s: Storage, a: Snap, p: nat, c: seq<byte>, offset: nat, data: seq<byte>)
    requires Sane(s, a) && p < s.geometry.pieceCount && p !in a.damaged && NoOther(s, a, p, c) && |c| == SizeOfPiece(s.geometry, p)
    requires offset + |data| <= |c| ==> LateBlockRepeats(c, offset, data)
    ensures RepeatsIn(s, a.picker.have, a.results, a.flat, p, offset, data)
    ensures LateRepeatsIn(s, a.picker.have, a.results, a.hands, a.flat, p, offset, data)
  {
    hide Inv, BuffersOk, PieceSlice, SizeOfPiece, Contiguous, Awaited, SteadyIn, Completed, BlockShaped, GoodIn;
  }

  // --- the engine makes such runs -----------------------------------------------------------------

  lemma TorrentIsSane(t: Torrent)
    requires t.Valid() && t.Integrity()
    ensures Sane(t.storage, t.Now())
  {
    hide Inv, BuffersOk, PieceSlice, SizeOfPiece, Contiguous, FileAgrees, Completed, SteadyIn, Awaited, PieceWriter.Valid, PieceWriter.Outstanding, PieceWriter.InHands, Files.Valid;
    forall p | 0 <= p < t.storage.geometry.pieceCount && p !in t.damaged && Completed(t.picker.have, t.writer.results, p)
      ensures GoodIn(t.storage, t.storage.files.flat, p)
    {
      assert t.Good(p);
    }
  }

  method TakeBlock(t: Torrent, piece: nat, offset: nat, data: seq<byte>, pauses: (nat, nat))
    requires t.Valid() && t.Integrity() && (t.writer.running ==> !t.writer.exited)
    modifies t, t.picker, t.writer, t.storage`buffers, t.storage.files
    ensures t.Valid() && t.Integrity() && (t.writer.running ==> !t.writer.exited)
    ensures StepOk(t.storage, old(t.Now()), Block(piece, offset, data, pauses), t.Now())
  {
    hide Inv, BuffersOk, PieceSlice, SizeOfPiece, Contiguous, Completed, SteadyIn, Awaited, PieceWriter.Valid, PieceWriter.Outstanding, PieceWriter.InHands, Files.Valid, Files.Sound, Receive, Verified, Full, RepeatsIn, LateRepeatsIn, Storage.Fits, Storage.WholeOnceStored, BlockShaped, Splice, Storage.View, Storage.OnCard, Storage.BackedBut, Sane, Torrent.Integrity, Storage.Valid, Metainfo.Valid;
    TorrentIsSane(t);
    t.OnPeerBlock(piece, offset, data, pauses);
    TorrentIsSane(t);
  }

  method TakeWriterTurn(t: Torrent)
    requires t.Valid() && t.Integrity() && (t.writer.running ==> !t.writer.exited)
    modifies t.writer, t.storage.files
    ensures t.Valid() && t.Integrity() && (t.writer.running ==> !t.writer.exited)
    ensures StepOk(t.storage, old(t.Now()), WriterTurn, t.Now())
  {
    hide Inv, BuffersOk, PieceSlice, SizeOfPiece, Contiguous, Completed, SteadyIn, Awaited, PieceWriter.Valid, Files.Valid, Files.Sound, Storage.HashMatches, Storage.View, Sane, Torrent.Sound;
    TorrentIsSane(t);
    if !t.writer.exited && (!t.writer.hand.Idle? || !t.writer.running || |t.writer.jobs| > 0) {
      ghost var flat0 := t.storage.files.flat;
      if t.writer.hand.Holding? {
        t.HandAwaited();
        assert t.writer.InHands()[0] == t.writer.hand.job;
      }
      t.WriterStep();
      forall q | 0 <= q < t.storage.geometry.pieceCount && (old(t.writer.hand.Idle?) || q != old(t.writer.hand).job.piece)
        ensures PieceSlice(t.storage.geometry, t.storage.files.flat, q) == PieceSlice(t.storage.geometry, flat0, q)
      {
        assert t.storage.OnCard(q) == old(t.storage.OnCard(q));
      }
    }
    TorrentIsSane(t);
  }

  /** The turns that touch neither the card nor the buffers. */
  method TakeChore(t: Torrent, turn: Turn)
    requires t.Valid() && t.Integrity() && (t.writer.running ==> !t.writer.exited) && Possible(turn) && !turn.Block? && !turn.WriterTurn?
    modifies t, t.picker, t.writer, t.storage`buffers, t.storage.files
    ensures t.Valid() && t.Integrity() && (t.writer.running ==> !t.writer.exited)
    ensures StepOk(t.storage, old(t.Now()), turn, t.Now())
  {
    hide Inv, BuffersOk, PieceSlice, SizeOfPiece, Contiguous, Completed, SteadyIn, Awaited, PieceWriter.Valid, Files.Valid, Sane, Torrent.Integrity, Metainfo.Valid, Released, Drop, PickRules.Requested, Storage.Valid, PhaseAfter, ReportPieces, JobPieces, HandPieces;
    TorrentIsSane(t);
    match turn {
      case CollectTurn =>
        t.CollectWrittenPieces();
      case StopTurn =>
        t.Stop();
      case AskTurn(peer, max, now) =>
        var out := t.RequestBlocks(peer, max, now);
      case DropTurn(piece, offset) =>
        t.DropRequest(piece, offset);
      case ExpireTurn(now, timeout) =>
        t.ExpireRequests(now, timeout);
      case PeerTurn(pieces, joins) =>
        t.PeerPieces(pieces, joins);
    }
    TorrentIsSane(t);
  }

  method TakeTurn(t: Torrent, turn: Turn)
    requires t.Valid() && t.Integrity() && (t.writer.running ==> !t.writer.exited) && Possible(turn)
    modifies t, t.picker, t.writer, t.storage`buffers, t.storage.files
    ensures t.Valid() && t.Integrity() && (t.writer.running ==> !t.writer.exited)
    ensures StepOk(t.storage, old(t.Now()), turn, t.Now())
  {
    hide StepOk, Torrent.Valid, Torrent.Integrity, Torrent.Now;
    match turn {
      case Block(piece, offset, data, pauses) =>
        TakeBlock(t, piece, offset, data, pauses);
      case WriterTurn =>
        TakeWriterTurn(t);
      case _ =>
        TakeChore(t, turn);
    }
  }

  /**
   * Every interleaving of blocks, true or false, with the writer thread and the engine's chores, on
   * any card: each turn is a step as above, and integrity stands at the end. So every piece held is
   * good, if no late block changed a completed piece and the card worked.
   */
  method Run(t: Torrent, turns: seq<Turn>) returns (ghost trace: seq<Snap>)
    requires t.Valid() && t.Integrity() && (t.writer.running ==> !t.writer.exited)
    requires forall turn :: turn in turns ==> Possible(turn)
    modifies t, t.picker, t.writer, t.storage`buffers, t.storage.files
    ensures t.Valid() && t.Integrity() && (t.writer.running ==> !t.writer.exited)
    ensures IsRun(t.storage, trace, turns) && trace[0] == old(t.Now()) && trace[|turns|] == t.Now()
    ensures old(t.damaged) == {} && AllGentle(t.storage, trace, turns) ==>
              forall p :: 0 <= p < t.storage.geometry.pieceCount && t.picker.have[p] ==> t.Good(p)
  {
    hide Torrent.Valid, Torrent.Integrity, StepOk, Sane, AllGentle;
    TorrentIsSane(t);
    trace := [t.Now()];
    for i := 0 to |turns|
      invariant t.Valid() && t.Integrity() && (t.writer.running ==> !t.writer.exited)
      invariant IsRun(t.storage, trace, turns[..i]) && trace[0] == old(t.Now()) && trace[i] == t.Now()
    {
      TakeTurn(t, turns[i]);
      RunGrows(t.storage, trace, turns, i, t.Now());
      trace := trace + [t.Now()];
    }
    assert turns[..|turns|] == turns;
    if old(t.damaged) == {} && AllGentle(t.storage, trace, turns) {
      EveryHeldPieceGood(t.storage, trace, turns, |turns|);
      GoodNow(t);
    }
  }

  lemma RunGrows(s: Storage, trace: seq<Snap>, turns: seq<Turn>, i: nat, b: Snap)
    requires i < |turns| && IsRun(s, trace, turns[..i]) && StepOk(s, trace[i], turns[i], b)
    ensures IsRun(s, trace + [b], turns[..i + 1])
  {
    hide StepOk, Sane;
    var longer := trace + [b];
    forall k | 0 <= k < i + 1
      ensures StepOk(s, longer[k], turns[..i + 1][k], longer[k + 1])
    {
      assert k < i ==> StepOk(s, trace[k], turns[..i][k], trace[k + 1]);
    }
  }

  lemma GoodNow(t: Torrent)
    requires t.Valid() && forall p :: 0 <= p < t.storage.geometry.pieceCount && t.picker.have[p] ==> GoodIn(t.storage, t.storage.files.flat, p)
    ensures forall p :: 0 <= p < t.storage.geometry.pieceCount && t.picker.have[p] ==> t.Good(p)
  {
    hide Inv, BuffersOk, PieceSlice;
  }

  lemma NothingNew(s: seq<byte>, t: seq<byte>)
    ensures Between(s, t, s) ==> t == s
  {
  }

  lemma EmptyCard(store: Storage)
    requires store.Valid() && store.geometry == ONE_BYTE && store.files.contents == [[]]
    ensures store.OnCard(0) == [0] && SizeOfPiece(store.geometry, 0) == 1
  {
    hide BuffersOk;
    assert FileAgrees(store.geometry.files[0], store.files.contents[0], store.files.flat);
    assert store.files.flat[0..1] == Padded([], 1) == [0];
  }

  method StoreByte(t: Torrent)
    requires t.Valid() && t.Integrity() && t.writer.results == [] && t.writer.InHands() == []
    requires t.storage.geometry == ONE_BYTE && t.storage.buffers == [] && t.storage.OnCard(0) == [0]
    requires t.storage.hashes == [[1]] && (forall d :: t.storage.sha1(d) == d) && t.picker.have == [false]
    modifies t, t.storage`buffers, t.storage.files
    ensures t.Valid() && t.Sound([]) && t.Steady([]) && t.storage.OnCard(0) == [0] && t.storage.View(0) == [1]
    ensures t.writer.results == [] && t.writer.InHands() == []
  {
    hide BuffersOk, FileAgrees, SteadyIn, Inv, BufferWrite, OthersKept, Completed, Awaited;
    ghost var b, n;
    var ok;
    ok, b, n := t.storage.WriteBlock(0, 0, [1]);
    NothingCompleted(t);
  }

  lemma NothingCompleted(t: Torrent)
    requires t.Valid() && t.picker.have == [false] && t.writer.InHands() == []
    ensures t.Sound([]) && t.Steady([])
  {
    hide Inv, BuffersOk, PieceSlice, Contiguous, Agrees;
  }

  const ONE_BYTE: Geometry := Geometry(1, 1, [FileEntry(0, 1)], 1)

  lemma OneByteIsValid()
    ensures Metainfo.Valid(ONE_BYTE) && |ONE_BYTE.files| == 1
  {
  }

  method OneByteStore() returns (store: Storage)
    ensures fresh(store) && fresh(store.files) && store.Valid() && store.geometry == ONE_BYTE && store.buffers == [] && store.OnCard(0) == [0]
    ensures store.hashes == [[1]] && (forall d :: store.sha1(d) == d) && forall n :: store.files.Refuses(n)
  {
    hide Metainfo.Valid, BuffersOk, FileAgrees;
    OneByteIsValid();
    var files := new Files(ONE_BYTE, [[]], _ => false, _ => 0);
    store := new Storage(files, [[1]], d => d);
    EmptyCard(store);
  }

  /** A torrent of one byte, whose value is 1, over an empty file on a card that takes nothing. */
  method OneByteOnDeadCard() returns (t: Torrent)
    ensures fresh(t) && fresh(t.storage) && fresh(t.storage.files) && fresh(t.picker)
    ensures t.Valid() && t.Integrity() && t.writer.results == [] && t.writer.InHands() == []
    ensures t.storage.geometry == ONE_BYTE && t.storage.buffers == [] && t.storage.OnCard(0) == [0]
    ensures t.storage.hashes == [[1]] && t.picker.have == [false] && (forall d :: t.storage.sha1(d) == d) && forall n :: t.storage.files.Refuses(n)
  {
    hide Metainfo.Valid, BuffersOk, ViewOf, FileAgrees, SteadyIn, Inv, Completed, Awaited, Storage.OnCard;
    OneByteIsValid();
    var store := OneByteStore();
    var picker := new PiecePicker.Picker(ONE_BYTE);
    var writer := new PieceWriter();
    t := new Torrent(store, picker, writer);
  }

  /** There the byte is stored in memory, its hash is right, its commit fails, and the piece is held without it. */
  method CommitCanLose() returns (t: Torrent)
    ensures t.Valid() && t.picker.have[0] && !t.Good(0)
  {
    hide BuffersOk, ViewOf, FileAgrees, SteadyIn, Inv, Shape, BufferWrite, Overlay, OthersKept, Completed, Storage.Bufferable, Awaited, PieceSlice, Storage.View, Storage.Valid, PieceWriter.Valid, PieceWriter.InHands;
    t := OneByteOnDeadCard();
    StoreByte(t);
    var ok := t.CommitHeld(0, []);
  }

  // --- completed pieces ----------------------------------------------------------------------

  lemma CompletedSnoc(have: seq<bool>, before: seq<Report>, r: Report, p: nat)
    ensures Completed(have, before + [r], p) <==> Completed(have, before, p) || (r.outcome == Written && r.piece == p)
  {
    if Completed(have, before, p) && !(p < |have| && have[p]) {
      var q :| q in before && q.outcome == Written && q.piece == p;
      assert q in before + [r];
    }
    assert r in before + [r];
  }

  lemma NotCompleted(have: seq<bool>, reports: seq<Report>, p: nat)
    requires (p < |have| ==> !have[p]) && forall r :: r in reports ==> r.piece != p
    ensures !Completed(have, reports, p)
  {
  }

  lemma CompletedBefore(have0: seq<bool>, before: seq<Report>, reports: seq<Report>, piece: nat, p: nat)
    requires piece < |have0| && Completed(have0, before, piece) && forall r :: r in reports ==> r in before
    ensures Completed(have0[piece := true], reports, p) ==> Completed(have0, before, p)
  {
  }

  lemma CompletedElsewhere(have: seq<bool>, piece: nat, reports: seq<Report>, p: nat)
    requires piece < |have| && p != piece
    ensures Completed(have[piece := true], reports, p) ==> Completed(have, reports, p)
  {
  }

  // --- buffers over completed pieces ------------------------------------------------------------

  /** A block of c itself, ending where a block or c ends. */
  ghost predicate LateBlockRepeats(c: seq<byte>, offset: nat, data: seq<byte>)
  {
    offset + |data| <= |c| && BlockShaped(offset, |data|, |c|) && data == c[offset..offset + |data|]
  }

  function TargetOf(b: Option<PieceBuffer>, piece: nat, size: nat): PieceBuffer
  {
    if b.Some? then b.value else FreshBuffer(piece, size)
  }

  /** A change to one piece leaves the others steady. */
  lemma SteadyStep(s: Storage, exempt0: set<nat>, have0: seq<bool>, reports0: seq<Report>, hands0: seq<Job>, bufs0: seq<PieceBuffer>, flat0: seq<byte>,
                   exempt1: set<nat>, have1: seq<bool>, reports1: seq<Report>, hands1: seq<Job>, bufs1: seq<PieceBuffer>, flat1: seq<byte>, piece: nat)
    requires Shaped(s, flat0) && Shaped(s, flat1) && piece < s.geometry.pieceCount && exempt0 <= exempt1
    requires SteadyIn(s, exempt0, have0, reports0, hands0, bufs0, flat0) && OthersKept(bufs0, bufs1, piece)
    requires forall q :: 0 <= q < s.geometry.pieceCount && q != piece ==> PieceSlice(s.geometry, flat1, q) == PieceSlice(s.geometry, flat0, q)
    requires forall q :: 0 <= q < s.geometry.pieceCount && q != piece && Completed(have1, reports1, q) ==> Completed(have0, reports0, q)
    requires forall j :: j in hands1 && j.piece != piece ==> j in hands0
    requires piece !in exempt1 ==> PieceSteady(s, have1, reports1, hands1, bufs1, flat1, piece)
    ensures SteadyIn(s, exempt1, have1, reports1, hands1, bufs1, flat1)
  {
    hide Completed, Agrees, BufferOf, PieceSlice, SizeOfPiece, Contiguous, Storage.HashMatches;
    forall q | 0 <= q < s.geometry.pieceCount && q != piece && q !in exempt1
      ensures PieceSteady(s, have1, reports1, hands1, bufs1, flat1, q)
    {
      assert PieceSteady(s, have0, reports0, hands0, bufs0, flat0, q);
      assert BufferOf(bufs1, q) == BufferOf(bufs0, q);
    }
  }

  lemma SteadyAt(s: Storage, exempt: set<nat>, have: seq<bool>, reports: seq<Report>, hands: seq<Job>, bufs: seq<PieceBuffer>, flat: seq<byte>, p: nat)
    requires Shaped(s, flat) && p < s.geometry.pieceCount && SteadyIn(s, exempt, have, reports, hands, bufs, flat)
    ensures p !in exempt ==> PieceSteady(s, have, reports, hands, bufs, flat, p)
  {
    hide PieceSteady;
  }

  lemma WorkSteady(s: Storage, exempt: set<nat>, have: seq<bool>, before: seq<Report>, r: Report, hands: seq<Job>, bufs: seq<PieceBuffer>,
                   flat0: seq<byte>, flat1: seq<byte>)
    requires Shaped(s, flat0) && Shaped(s, flat1) && r.piece < s.geometry.pieceCount
    requires SteadyIn(s, exempt, have, before, hands, bufs, flat0)
    requires |hands| > 0 && hands[0].piece == r.piece && forall j :: j in hands[1..] ==> j.piece != r.piece
    requires !Completed(have, before, r.piece)
    requires r.outcome == Written ==> s.HashMatches(r.piece, hands[0].data) && PieceSlice(s.geometry, flat1, r.piece) == hands[0].data
    requires forall q :: 0 <= q < s.geometry.pieceCount && q != r.piece ==> PieceSlice(s.geometry, flat1, q) == PieceSlice(s.geometry, flat0, q)
    ensures SteadyIn(s, exempt, have, before + [r], hands[1..], bufs, flat1)
  {
    hide Completed, Agrees, BufferOf, PieceSlice, SizeOfPiece, Contiguous, SteadyIn, Storage.HashMatches;
    SteadyAt(s, exempt, have, before, hands, bufs, flat0, r.piece);
    forall q | 0 <= q < s.geometry.pieceCount
      ensures Completed(have, before + [r], q) <==> Completed(have, before, q) || (r.outcome == Written && r.piece == q)
    {
      CompletedSnoc(have, before, r, q);
    }
    AllKept(bufs, r.piece);
    SteadyStep(s, exempt, have, before, hands, bufs, flat0, exempt, have, before + [r], hands[1..], bufs, flat1, r.piece);
  }

  /** A piece the writer does not have, not completed or without a buffer. */
  lemma NoBufferSteady(s: Storage, exempt: set<nat>, have0: seq<bool>, reports: seq<Report>, hands: seq<Job>, bufs0: seq<PieceBuffer>, flat0: seq<byte>,
                       have1: seq<bool>, bufs1: seq<PieceBuffer>, flat1: seq<byte>, piece: nat)
    requires Shaped(s, flat0) && Shaped(s, flat1) && piece < s.geometry.pieceCount && piece < |have0|
    requires SteadyIn(s, exempt, have0, reports, hands, bufs0, flat0) && OthersKept(bufs0, bufs1, piece)
    requires forall q :: 0 <= q < s.geometry.pieceCount && q != piece ==> PieceSlice(s.geometry, flat1, q) == PieceSlice(s.geometry, flat0, q)
    requires have1 == have0 || have1 == have0[piece := true]
    requires Find(bufs1, piece) < 0 || !Completed(have1, reports, piece)
    requires forall j :: j in hands ==> j.piece != piece
    ensures SteadyIn(s, exempt, have1, reports, hands, bufs1, flat1)
  {
    hide Completed, PieceSlice, SizeOfPiece, Contiguous, SteadyIn, Find, Storage.HashMatches;
    forall q | 0 <= q < s.geometry.pieceCount && q != piece && Completed(have1, reports, q)
      ensures Completed(have0, reports, q)
    {
      CompletedElsewhere(have0, piece, reports, q);
    }
    SteadyStep(s, exempt, have0, reports, hands, bufs0, flat0, exempt, have1, reports, hands, bufs1, flat1, piece);
  }

  lemma FewerSteady(s: Storage, exempt: set<nat>, have0: seq<bool>, before: seq<Report>, have1: seq<bool>, reports: seq<Report>, hands: seq<Job>,
                    bufs: seq<PieceBuffer>, flat: seq<byte>)
    requires Shaped(s, flat) && SteadyIn(s, exempt, have0, before, hands, bufs, flat)
    requires forall p :: 0 <= p < s.geometry.pieceCount && Completed(have1, reports, p) ==> Completed(have0, before, p)
    ensures SteadyIn(s, exempt, have1, reports, hands, bufs, flat)
  {
    hide Completed, Agrees, BufferOf, PieceSlice, SizeOfPiece, Contiguous, Storage.HashMatches;
    forall p | 0 <= p < s.geometry.pieceCount && p !in exempt
      ensures PieceSteady(s, have1, reports, hands, bufs, flat, p)
    {
      assert PieceSteady(s, have0, before, hands, bufs, flat, p);
    }
  }

  lemma QueuedSteady(s: Storage, exempt: set<nat>, have: seq<bool>, reports: seq<Report>, hands: seq<Job>, bufs: seq<PieceBuffer>, flat: seq<byte>, j: Job)
    requires Shaped(s, flat) && SteadyIn(s, exempt, have, reports, hands, bufs, flat) && Find(bufs, j.piece) < 0
    ensures SteadyIn(s, exempt, have, reports, hands + [j], bufs, flat)
  {
    hide Completed, PieceSlice, SizeOfPiece, Contiguous, Find, Overlay, Storage.HashMatches;
    forall p | 0 <= p < s.geometry.pieceCount && p !in exempt
      ensures PieceSteady(s, have, reports, hands + [j], bufs, flat, p)
    {
      assert PieceSteady(s, have, reports, hands, bufs, flat, p);
    }
  }

  lemma EmptySteady(s: Storage, exempt: set<nat>, have: seq<bool>, reports: seq<Report>, hands: seq<Job>, flat: seq<byte>)
    requires Shaped(s, flat)
    ensures SteadyIn(s, exempt, have, reports, hands, [], flat)
  {
    hide Completed, PieceSlice, SizeOfPiece, Contiguous, Overlay, Storage.HashMatches;
    forall p: nat
      ensures BufferOf([], p).None?
    {
    }
  }

  /** A repeated block in a buffer hides nothing new. */
  lemma LateBufferAgrees(b: Option<PieceBuffer>, piece: nat, c: seq<byte>, offset: nat, data: seq<byte>)
    requires Agrees(b, c) && |data| > 0 && offset % BLOCK == 0 && LateBlockRepeats(c, offset, data)
    requires Shape(TargetOf(b, piece, |c|), |c|)
    ensures Agrees(Some(BufferWrite(TargetOf(b, piece, |c|), offset, data)), c)
  {
    var t := TargetOf(b, piece, |c|);
    if b.None? {
      FreshIsTransparent(piece, |c|, c);
    }
    ShapedWriteRefines(c, t, offset, data);
    BufferWriteShape(t, offset, data, |c|);
    hide Overlay, FreshBuffer, BufferWrite, BlockShaped;
    assert Splice(c, offset, data) == c;
  }

  /** A late block stored: in the buffer, or on the card (there, as much of it as the card took). */
  lemma StoredSteady(s: Storage, exempt0: set<nat>, exempt1: set<nat>, have: seq<bool>, reports: seq<Report>, hands: seq<Job>,
                     bufs0: seq<PieceBuffer>, flat0: seq<byte>, bufs1: seq<PieceBuffer>, flat1: seq<byte>,
                     piece: nat, offset: nat, data: seq<byte>, n: nat, target: PieceBuffer, fits: bool)
    requires Shaped(s, flat0) && Shaped(s, flat1) && piece < s.geometry.pieceCount && exempt0 <= exempt1
    requires SteadyIn(s, exempt0, have, reports, hands, bufs0, flat0)
    requires |data| > 0 && n <= |data| && OthersKept(bufs0, bufs1, piece) && (fits <==> offset + |data| <= SizeOfPiece(s.geometry, piece))
    requires forall q :: 0 <= q < s.geometry.pieceCount && q != piece ==> PieceSlice(s.geometry, flat1, q) == PieceSlice(s.geometry, flat0, q)
    requires target == TargetOf(BufferOf(bufs0, piece), piece, SizeOfPiece(s.geometry, piece))
    requires !fits ==> bufs1 == bufs0 && flat1 == flat0
    requires fits ==>
          (bufs1 == bufs0 && PieceSlice(s.geometry, flat1, piece) == Splice(PieceSlice(s.geometry, flat0, piece), offset, data[..n]))
          || (PieceSlice(s.geometry, flat1, piece) == PieceSlice(s.geometry, flat0, piece) && offset % BLOCK == 0
              && Shape(target, SizeOfPiece(s.geometry, piece)) && BufferOf(bufs1, piece) == Some(BufferWrite(target, offset, data)))
    requires piece !in exempt1 && fits && Completed(have, reports, piece) ==> LateBlockRepeats(PieceSlice(s.geometry, flat0, piece), offset, data)
    requires piece !in exempt1 && fits ==> forall j :: j in hands && j.piece == piece && s.HashMatches(piece, j.data) ==> LateBlockRepeats(j.data, offset, data)
    ensures SteadyIn(s, exempt1, have, reports, hands, bufs1, flat1)
  {
    hide Completed, Agrees, BufferOf, PieceSlice, Contiguous, SteadyIn, Shape, BufferWrite, TargetOf, OthersKept, BlockShaped;
    SteadyAt(s, exempt0, have, reports, hands, bufs0, flat0, piece);
    var c := PieceSlice(s.geometry, flat0, piece);
    if piece !in exempt1 && fits {
      if bufs1 == bufs0 && PieceSlice(s.geometry, flat1, piece) == Splice(c, offset, data[..n]) {
        if Completed(have, reports, piece) {
          RepeatIsNoChange(c, offset, data, n);
        }
      } else {
        if Completed(have, reports, piece) {
          LateBufferAgrees(BufferOf(bufs0, piece), piece, c, offset, data);
        }
        forall j | j in hands && j.piece == piece && s.HashMatches(piece, j.data)
          ensures Agrees(BufferOf(bufs1, piece), j.data)
        {
          LateBufferAgrees(BufferOf(bufs0, piece), piece, j.data, offset, data);
        }
      }
    }
    hide SizeOfPiece, Storage.HashMatches;
    SteadyStep(s, exempt0, have, reports, hands, bufs0, flat0, exempt1, have, reports, hands, bufs1, flat1, piece);
  }

  /** Writing again a prefix of the bytes that are there changes nothing. */
  lemma RepeatIsNoChange(c: seq<byte>, offset: nat, data: seq<byte>, n: nat)
    requires offset + |data| <= |c| && n <= |data| && data == c[offset..offset + |data|]
    ensures Splice(c, offset, data[..n]) == c
  {
  }

  // --- what the reports do to the phase ------------------------------------------------------------

  ghost predicate Has(rs: seq<Report>, outcome: Outcome)
  {
    exists r :: r in rs && r.outcome == outcome
  }

  /** The phase changes only to Failed, for a write that failed, and to Seeding, once every piece is held. */
  ghost predicate PhaseAfter(phase0: Scheduler.Phase, rs: seq<Report>, have: seq<bool>, phase: Scheduler.Phase)
  {
    && (phase == phase0 || (phase == Scheduler.Failed && Has(rs, WriteFailed)) || (phase == Scheduler.Seeding && Full(have)))
    && (Has(rs, WriteFailed) && !Full(have) ==> phase == Scheduler.Failed)
    && (Has(rs, Written) && Full(have) && !Has(rs, WriteFailed) ==> phase == Scheduler.Seeding)
  }

  lemma PhaseUnchanged(phase0: Scheduler.Phase, out: seq<Report>, have: seq<bool>)
    ensures PhaseAfter(phase0, out[..0], have, phase0)
  {
  }

  lemma PhaseOneMore(phase0: Scheduler.Phase, have0: seq<bool>, have1: seq<bool>, phase: Scheduler.Phase, out: seq<Report>, i: nat)
    requires i < |out| && PhaseAfter(phase0, out[..i], have0, phase) && out[i].piece < |have0|
    requires have1 == if out[i].outcome == Written then have0[out[i].piece := true] else have0
    ensures PhaseAfter(phase0, out[..i + 1], have1, if out[i].outcome == WriteFailed then Scheduler.Failed
                                                    else if out[i].outcome == Written && Full(have1) then Scheduler.Seeding else phase)
  {
    hide Full;
    var a, b := out[..i], out[..i + 1];
    assert b == a + [out[i]];
    HasSnoc(a, out[i], WriteFailed);
    HasSnoc(a, out[i], Written);
    if Full(have0) {
      FullStays(have0, out[i].piece);
    }
  }

  lemma HasSnoc(a: seq<Report>, r: Report, o: Outcome)
    ensures Has(a + [r], o) <==> Has(a, o) || r.outcome == o
  {
    if Has(a, o) {
      var q :| q in a && q.outcome == o;
      assert q in a + [r];
    }
    assert r in a + [r];
  }

  lemma FullStays(have: seq<bool>, piece: nat)
    requires piece < |have| && Full(have)
    ensures Full(have[piece := true])
  {
  }

  /** A block of another piece leaves the awaited pieces settled; a full piece is not awaited yet. */
  lemma {:induction false} AwaitedThroughReceive(g: Geometry, s: State, piece: nat, offset: nat, awaited: seq<nat>, n: nat)
    requires Inv(g, s) && Awaited(s, awaited, n)
    ensures var (t, full) := Receive(g, s, piece, offset);
            && Awaited(t, awaited, n) && t.have == s.have
            && (full ==> Settled(t, piece) && piece !in awaited && piece < |t.have| && !t.have[piece])
  {
    FullIff(g, s, piece, offset);
    hide Inv, Settled;
    forall p | p in awaited
      ensures Settled(Receive(g, s, piece, offset).0, p)
    {
      ReceiveKeepsSettled(g, s, piece, offset, p);
    }
  }

  lemma {:induction false} AwaitedSnoc(s: State, awaited: seq<nat>, piece: nat, n: nat)
    requires Awaited(s, awaited, n) && piece < n && Settled(s, piece) && piece !in awaited && piece < |s.have| && !s.have[piece]
    ensures Awaited(s, awaited + [piece], n)
  {
    hide Settled;
  }

  lemma {:induction false} HeldShape(g: Geometry, s: State, piece: nat)
    requires Inv(g, s) && piece < g.pieceCount
    ensures var t := Verified(g, s, piece, true); t.have == s.have[piece := true]
  {
    StateShape(g, s);
    hide Inv;
  }

  lemma {:induction false} HaveAfterVerified(g: Geometry, s: State, piece: nat)
    requires Inv(g, s) && piece < g.pieceCount
    ensures |s.have| == g.pieceCount
    ensures Verified(g, s, piece, true).have == s.have[piece := true] && Verified(g, s, piece, false).have == s.have
  {
    StateShape(g, s);
    hide Inv;
  }

  /** The oldest awaited piece, and the others. */
  lemma {:induction false} NextReport(s: State, out: seq<Report>, i: nat, rest: seq<nat>, n: nat)
    requires i < |out| && Awaited(s, ReportPieces(out[i..]) + rest, n)
    ensures out[i].piece < n && out[i].piece !in ReportPieces(out[i + 1..]) + rest && Awaited(s, ReportPieces(out[i + 1..]) + rest, n)
    ensures forall r :: r in out[i + 1..] ==> r.piece != out[i].piece
  {
    var tail := ReportPieces(out[i + 1..]) + rest;
    assert ReportPieces(out[i..]) + rest == [out[i].piece] + tail;
    AwaitedTail(s, out[i].piece, tail, n);
    hide Settled, Awaited;
    forall r | r in out[i + 1..]
      ensures r.piece in tail
    {
      var k :| 0 <= k < |out[i + 1..]| && out[i + 1..][k] == r;
      assert tail[k] == r.piece;
    }
  }

  lemma {:induction false} AwaitedTail(s: State, p: nat, tail: seq<nat>, n: nat)
    requires Awaited(s, [p] + tail, n)
    ensures p < n && p !in tail && Awaited(s, tail, n) && Settled(s, p)
  {
    hide Settled;
    var all := [p] + tail;
    assert all[0] == p && forall k :: 0 <= k < |tail| ==> all[k + 1] == tail[k];
    assert p in all && forall q :: q in tail ==> q in all;
  }

  /** The pieces held once the reports rs have been handled. */
  ghost predicate HeldAfter(have0: seq<bool>, rs: seq<Report>, have: seq<bool>)
  {
    |have| == |have0| && forall p :: 0 <= p < |have| ==>
      (have[p] <==> have0[p] || exists r :: r in rs && r.piece == p && r.outcome == Written)
  }

  lemma NothingHeldYet(have0: seq<bool>, out: seq<Report>)
    ensures HeldAfter(have0, out[..0], have0)
  {
  }

  lemma AllHeld(have0: seq<bool>, out: seq<Report>, have: seq<bool>)
    requires HeldAfter(have0, out[..|out|], have)
    ensures |have| == |have0| && forall p :: 0 <= p < |have| ==>
              (have[p] <==> have0[p] || exists r :: r in out && r.piece == p && r.outcome == Written)
  {
    assert out[..|out|] == out;
  }

  lemma HeldOneMore(have0: seq<bool>, have: seq<bool>, out: seq<Report>, i: nat)
    requires i < |out| && HeldAfter(have0, out[..i], have) && out[i].piece < |have|
    ensures HeldAfter(have0, out[..i + 1], if out[i].outcome == Written then have[out[i].piece := true] else have)
  {
    assert out[..i + 1] == out[..i] + [out[i]];
  }

  lemma {:induction false} VerifiedShape(g: Geometry, s: State, piece: nat, ok: bool, awaited: seq<nat>, n: nat)
    requires Inv(g, s) && piece < g.pieceCount && piece !in awaited && Awaited(s, awaited, n)
    ensures Awaited(Verified(g, s, piece, ok), awaited, n)
  {
    HaveAfterVerified(g, s, piece);
    hide Inv, Settled, Verified;
    forall p | p in awaited
      ensures Settled(Verified(g, s, piece, ok), p)
    {
      VerifiedKeepsSettled(g, s, piece, ok, p);
    }
  }

  /** A block put into a fresh buffer over a finished piece is harmless exactly when it repeats the piece. */
  lemma LateBlockHarmlessIff(base: seq<byte>, index: nat, offset: nat, data: seq<byte>)
    requires |data| > 0 && offset + |data| <= |base| && BlockShaped(offset, |data|, |base|)
    ensures Shape(FreshBuffer(index, |base|), |base|) && |BufferWrite(FreshBuffer(index, |base|), offset, data).data| == |base|
    ensures Overlay(base, BufferWrite(FreshBuffer(index, |base|), offset, data)) == base <==> data == base[offset..offset + |data|]
  {
    var b := FreshBuffer(index, |base|);
    FreshIsTransparent(index, |base|, base);
    ShapedWriteRefines(base, b, offset, data);
    hide Overlay, FreshBuffer, BufferWrite, Shape, BlockShaped;
    var r := Splice(base, offset, data);
    assert r[offset..offset + |data|] == data;
    if data == base[offset..offset + |data|] {
      assert r == base;
    }
  }

  /** Picking, dropping, expiring and peers coming or going leave the held and the awaited pieces alone. */
  lemma {:induction false} OtherStepsKeep(g: Geometry, s: State, e: PickerRuns.Event, t: State, awaited: seq<nat>, n: nat)
    requires Inv(g, s) && PickerRuns.Step(g, s, e, t) && Awaited(s, awaited, n)
    requires e.Dropped? || e.Expired? || e.Asked? || e.PeersChanged?
    ensures t.have == s.have && Awaited(t, awaited, n)
  {
    forall p | p in awaited
      ensures Settled(t, p)
    {
      PickerRuns.StepKeepsSettled(g, s, e, t, p);
    }
    hide Inv, Settled;
  }
}
