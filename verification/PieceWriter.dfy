/** The queue between the engine thread and the writer thread; each method is one critical section. */
module WriterQueue {
  import opened Bytes
  import opened Card
  import opened Metainfo
  import opened PieceCache

  const QUEUE_BUDGET: nat := 96 * 1024 * 1024

  datatype Job = Job(piece: nat, data: seq<byte>)
  datatype Outcome = Written | HashFailed | WriteFailed
  datatype Report = Report(piece: nat, outcome: Outcome)
  datatype InHand = Idle | Holding(job: Job)

  function Sizes(jobs: seq<Job>): nat
  {
    if |jobs| == 0 then 0 else |jobs[0].data| + Sizes(jobs[1..])
  }

  lemma {:induction false} SizesSnoc(jobs: seq<Job>, j: Job)
    ensures Sizes(jobs + [j]) == Sizes(jobs) + |j.data|
  {
    if |jobs| == 0 {
      assert (jobs + [j])[1..] == [];
    } else {
      assert (jobs + [j])[1..] == jobs[1..] + [j];
      SizesSnoc(jobs[1..], j);
    }
  }

  function JobPieces(jobs: seq<Job>): (r: seq<nat>)
    ensures |r| == |jobs| && forall i :: 0 <= i < |jobs| ==> r[i] == jobs[i].piece
  {
    seq(|jobs|, i requires 0 <= i < |jobs| => jobs[i].piece)
  }

  function ReportPieces(rs: seq<Report>): (r: seq<nat>)
    ensures |r| == |rs| && forall i :: 0 <= i < |rs| ==> r[i] == rs[i].piece
  {
    seq(|rs|, i requires 0 <= i < |rs| => rs[i].piece)
  }

  function HandPieces(h: InHand): seq<nat>
  {
    if h.Holding? then [h.job.piece] else []
  }

  lemma Popped(a: seq<nat>, jobs: seq<Job>)
    requires |jobs| > 0
    ensures a + HandPieces(Idle) + JobPieces(jobs) == a + HandPieces(Holding(jobs[0])) + JobPieces(jobs[1..])
  {
  }

  lemma Pushed(taken: seq<nat>, a: seq<nat>, jobs: seq<Job>, j: Job)
    ensures a + JobPieces(jobs + [j]) == a + JobPieces(jobs) + [j.piece]
    ensures taken + (a + JobPieces(jobs + [j])) == taken + (a + JobPieces(jobs)) + [j.piece]
  {
    assert JobPieces(jobs + [j]) == JobPieces(jobs) + [j.piece];
  }

  lemma Reported(rs: seq<Report>, r: Report, c: seq<nat>)
    ensures ReportPieces(rs + [r]) + HandPieces(Idle) + c == ReportPieces(rs) + [r.piece] + c
  {
    assert ReportPieces(rs + [r]) == ReportPieces(rs) + [r.piece];
  }

  lemma TakenOver(t: seq<nat>, a: seq<nat>, b: seq<nat>, c: seq<nat>)
    ensures t + (a + b + c) == (t + a) + ([] + b + c) && a + b + c == a + ([] + b + c)
  {
  }

  class PieceWriter {
    var running: bool
    var exited: bool  // no writer thread: not started, or its loop has returned
    var jobs: seq<Job>
    var queuedBytes: nat
    var hand: InHand  // the job the writer thread has popped and not reported yet
    var results: seq<Report>
    ghost var accepted: seq<nat>  // every piece ever queued, in order
    ghost var taken: seq<nat>     // every piece whose result the engine has taken, in order

    /** Pieces queued whose result has not been taken, oldest first. */
    ghost function Outstanding(): seq<nat>
      reads this
    {
      ReportPieces(results) + HandPieces(hand) + JobPieces(jobs)
    }

    /** The jobs the engine has given away and the writer has not finished, oldest first. */
    ghost function InHands(): seq<Job>
      reads this
    {
      (if hand.Holding? then [hand.job] else []) + jobs
    }

    /**
     * First in, first out with exactly one result each, an exact byte count within the budget (a
     * single larger piece aside), and nothing left once the loop has returned.
     */
    ghost predicate Valid()
      reads this
    {
      && queuedBytes == Sizes(jobs) && (queuedBytes <= QUEUE_BUDGET || |jobs| == 1)
      && (exited ==> !running && jobs == [] && hand == Idle)
      && accepted == taken + Outstanding()
    }

    constructor ()
      ensures Valid() && !running && Outstanding() == [] && results == [] && accepted == []
    {
      running, exited, jobs, queuedBytes, hand, results := false, true, [], 0, Idle, [];
      accepted, taken := [], [];
    }

    method Start()
      requires Valid() && (!running ==> exited)
      modifies this`running, this`exited
      ensures Valid() && running && Outstanding() == old(Outstanding())
    {
      if running {
        return;
      }
      running, exited := true, false;
    }

    /** What submit waits for. */
    predicate HasRoom(size: nat)
      reads this
    {
      !running || queuedBytes + size <= QUEUE_BUDGET || |jobs| == 0
    }

    /** submit, from the moment its wait is over. */
    method Submit(piece: nat, data: seq<byte>)
      requires Valid() && HasRoom(|data|)
      modifies this`jobs, this`queuedBytes, this`accepted
      ensures Valid()
      ensures running ==> Outstanding() == old(Outstanding()) + [piece] && accepted == old(accepted) + [piece]
      ensures running ==> jobs == old(jobs) + [Job(piece, data)] && InHands() == old(InHands()) + [Job(piece, data)]
      ensures !running ==> jobs == old(jobs) && accepted == old(accepted) && Outstanding() == old(Outstanding())
    {
      if !running {
        return;
      }
      SizesSnoc(jobs, Job(piece, data));
      Pushed(taken, ReportPieces(results) + HandPieces(hand), jobs, Job(piece, data));
      hide JobPieces, ReportPieces, HandPieces;
      queuedBytes := queuedBytes + |data|;
      jobs := jobs + [Job(piece, data)];
      accepted := accepted + [piece];
    }

    /** The top of the writer's loop, from the moment its wait is over: takes a job or returns. */
    method Next()
      requires Valid() && !exited && hand == Idle && (!running || |jobs| > 0)
      modifies this`exited, this`jobs, this`queuedBytes, this`hand
      ensures Valid() && Outstanding() == old(Outstanding()) && InHands() == old(InHands())
      ensures old(|jobs|) > 0 ==> hand == Holding(old(jobs)[0]) && jobs == old(jobs)[1..] && !exited
      ensures old(|jobs|) == 0 ==> exited && hand == Idle && jobs == []
    {
      if |jobs| == 0 {
        exited := true;
        return;
      }
      assert hand == Idle;
      hand := Holding(jobs[0]);
      queuedBytes := queuedBytes - |jobs[0].data|;
      Popped(ReportPieces(results), jobs);
      assert Sizes(jobs) == |jobs[0].data| + Sizes(jobs[1..]);
      hide JobPieces, ReportPieces, HandPieces;
      jobs := jobs[1..];
    }

    /** The rest of the loop: hash, write if the hash is right, report. */
    method Work(storage: Storage)
      requires Valid() && hand.Holding? && storage.Valid() && hand.job.piece < storage.geometry.pieceCount
      modifies this`hand, this`results, storage.files
      ensures Valid() && storage.Valid() && Outstanding() == old(Outstanding()) && hand == Idle && InHands() == old(InHands())[1..]
      ensures old(storage.files.ops) <= storage.files.ops && Grown(old(storage.files.contents), storage.files.contents)
      ensures |results| == |old(results)| + 1 && results[..|old(results)|] == old(results)
      ensures var r, j := results[|old(results)|], old(hand).job;
              && r == Report(j.piece, if !storage.HashMatches(j.piece, j.data) then HashFailed
                                      else if storage.files.Sound(old(storage.files.ops), storage.files.ops) then Written else WriteFailed)
              && (r.outcome == HashFailed ==> storage.files.flat == old(storage.files.flat) && storage.files.ops == old(storage.files.ops))
              && (r.outcome == Written ==> storage.OnCard(j.piece) == j.data)
              && forall q :: 0 <= q < storage.geometry.pieceCount && q != j.piece ==> storage.OnCard(q) == old(storage.OnCard(q))
    {
      hide BuffersOk, ViewOf, PieceSlice, Contiguous, FileAgrees, Files.Valid, Sizes, ReportPieces, JobPieces, Files.Sound, Grown;
      GrownTrivially(storage.files.contents);
      var job := hand.job;
      var report := Report(job.piece, HashFailed);
      if storage.HashMatches(job.piece, job.data) {
        var ok := storage.WritePiece(job.piece, job.data);
        report := Report(job.piece, if ok then Written else WriteFailed);
      }
      Reported(results, report, JobPieces(jobs));
      hand := Idle;
      results := results + [report];
    }

    /** take_results */
    method TakeResults() returns (out: seq<Report>)
      requires Valid()
      modifies this`results, this`taken
      ensures Valid() && out == old(results) && results == [] && InHands() == old(InHands())
      ensures old(Outstanding()) == ReportPieces(out) + Outstanding() && taken == old(taken) + ReportPieces(out)
    {
      TakenOver(taken, ReportPieces(results), HandPieces(hand), JobPieces(jobs));
      assert ReportPieces([]) == [];
      hide JobPieces, ReportPieces, HandPieces;
      out, results := results, [];
      taken := taken + ReportPieces(out);
    }

    /** stop, up to the join. */
    method RequestStop()
      requires Valid()
      modifies this`running
      ensures Valid() && !running && Outstanding() == old(Outstanding())
    {
      running := false;
    }

    /** stop, after the join: its branch for jobs left over is never taken. */
    method LeftOver() returns (lost: nat)
      requires Valid() && exited
      ensures lost == 0 && queuedBytes == 0
    {
      lost := |jobs|;
    }
  }
}
