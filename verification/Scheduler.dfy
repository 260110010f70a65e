/** Who may download: the user's pause, the queue's hold, and the limit on downloads at a time. */
module Scheduler {

  datatype Phase = FetchingMetadata | Checking | Downloading | Seeding | Queued | Paused | Failed

  /** A torrent as far as scheduling goes. */
  datatype Torrent = Torrent(phase: Phase, userPaused: bool, queued: bool, hasMeta: bool, checked: bool, complete: bool)

  /** Only what pulls on the network takes a slot. */
  predicate HoldsSlot(t: Torrent)
  {
    t.phase == Downloading || t.phase == FetchingMetadata
  }

  /** What a torrent does when nothing holds it back. */
  function Running(t: Torrent): Phase
  {
    if !t.hasMeta then FetchingMetadata
    else if !t.checked then Checking
    else if t.complete then Seeding
    else Downloading
  }

  /** apply_gate */
  function Gate(t: Torrent): Torrent
  {
    if t.phase == Failed then t
    else if t.userPaused then t.(phase := Paused)
    else if t.phase == Checking then t
    else if t.queued then t.(phase := Queued)
    else if t.phase != Paused && t.phase != Queued then t
    else t.(phase := Running(t))
  }

  function SetPaused(t: Torrent, paused: bool): Torrent
  {
    Gate(t.(userPaused := paused))
  }

  function SetQueued(t: Torrent, queued: bool): Torrent
  {
    Gate(t.(queued := queued))
  }

  /** A torrent the user paused pulls nothing, only a torrent the queue holds is Queued, and no holder is put aside. */
  predicate TorrentOk(t: Torrent)
  {
    && (t.userPaused ==> t.phase == Paused || t.phase == Failed || t.phase == Seeding)
    && (t.phase == Queued ==> t.queued && !t.userPaused)
    && (HoldsSlot(t) ==> !t.queued)
    && (t.phase == Paused ==> t.userPaused)
  }

  /** The user's pause stops the torrent. */
  predicate PauseHonoured(t: Torrent)
  {
    t.userPaused ==> t.phase == Paused || t.phase == Failed
  }

  /** The last piece is in: finish_piece announces it without asking the gate. */
  function Completed(t: Torrent): Torrent
  {
    t.(phase := Seeding, complete := true)
  }

  /** The phases in which a block, or a report of the writer, can complete the torrent. */
  predicate CanComplete(t: Torrent)
  {
    t.hasMeta && t.checked && (t.phase == Downloading || t.phase == Seeding || t.phase == Failed)
  }

  /** The one way past the user's pause: a torrent paused while Failed whose last piece then comes in. */
  lemma CompletionHonoursPauseIff(t: Torrent)
    requires TorrentOk(t) && CanComplete(t)
    ensures TorrentOk(Completed(t)) && (PauseHonoured(Completed(t)) <==> !t.userPaused)
    ensures t.userPaused && PauseHonoured(t) ==> t.phase == Failed
  {
  }

  lemma PausedWhileFailed()
    ensures var t := SetPaused(Torrent(Failed, false, false, true, true, false), true);
            TorrentOk(t) && PauseHonoured(t) && CanComplete(t) && !PauseHonoured(Completed(t))
  {
  }

  lemma SwitchesKeepOk(t: Torrent, on: bool)
    requires TorrentOk(t)
    ensures TorrentOk(SetPaused(t, on)) && TorrentOk(SetQueued(t, on))
    ensures PauseHonoured(SetPaused(t, on)) && PauseHonoured(SetQueued(t, on))
  {
    if t.phase == Paused {} else if t.phase == Queued {} else {}
  }

  /** Resuming a torrent the queue had put aside gives it back to the queue; it never starts past the others. */
  lemma ResumeReturnsToQueue(t: Torrent)
    requires TorrentOk(t) && t.phase != Failed && t.phase != Checking
    ensures SetPaused(SetPaused(t, true), false).phase == if t.queued then Queued else Running(t)
    ensures t.queued ==> !HoldsSlot(SetPaused(SetPaused(t, true), false))
  {
  }

  /** Let go on, a torrent does what it still lacks: it takes a slot exactly if its metadata or some piece is missing. */
  lemma GoesOn(t: Torrent)
    requires TorrentOk(t) && t.phase != Failed && t.phase != Checking && !t.queued
    ensures var r := SetPaused(SetPaused(t, true), false);
            && (r.phase == FetchingMetadata <==> !t.hasMeta) && (r.phase == Checking <==> t.hasMeta && !t.checked)
            && (r.phase == Downloading <==> t.hasMeta && t.checked && !t.complete) && (r.phase == Seeding <==> t.hasMeta && t.checked && t.complete)
            && (HoldsSlot(r) <==> !t.hasMeta || (t.checked && !t.complete))
  {
  }

  /** So does one that the queue promotes. */
  lemma PromotedGoesOn(t: Torrent)
    requires TorrentOk(t) && t.phase == Queued
    ensures var r := SetQueued(t, false);
            && (r.phase == Downloading <==> t.hasMeta && t.checked && !t.complete) && (r.phase == Seeding <==> t.hasMeta && t.checked && t.complete)
            && (HoldsSlot(r) <==> !t.hasMeta || (t.checked && !t.complete))
  {
  }

  // --- counting -------------------------------------------------------------------------------

  function Active(ts: seq<Torrent>): nat
  {
    if |ts| == 0 then 0 else Active(ts[..|ts| - 1]) + (if HoldsSlot(ts[|ts| - 1]) then 1 else 0)
  }

  lemma {:induction false} ActiveUpdate(ts: seq<Torrent>, i: nat, t: Torrent)
    requires i < |ts|
    ensures Active(ts[i := t]) == Active(ts) - (if HoldsSlot(ts[i]) then 1 else 0) + (if HoldsSlot(t) then 1 else 0)
  {
    hide HoldsSlot;
    var n := |ts| - 1;
    if i == n {
      assert ts[i := t][..n] == ts[..n];
    } else {
      assert ts[i := t][..n] == ts[..n][i := t];
      ActiveUpdate(ts[..n], i, t);
    }
  }

  lemma {:induction false} ActiveNone(ts: seq<Torrent>)
    requires forall i :: 0 <= i < |ts| ==> !HoldsSlot(ts[i])
    ensures Active(ts) == 0
  {
    if |ts| > 0 {
      ActiveNone(ts[..|ts| - 1]);
    }
  }

  // --- what one call does -------------------------------------------------------------------------

  /** The waiters before k are let go, in their order; nothing else changes. */
  ghost predicate Promoted(before: seq<Torrent>, after: seq<Torrent>, k: nat)
  {
    |after| == |before| && forall i :: 0 <= i < |before| ==>
      after[i] == if i < k && before[i].phase == Queued then SetQueued(before[i], false) else before[i]
  }

  /** The holders from k on are put aside; nothing else changes. */
  ghost predicate Demoted(before: seq<Torrent>, after: seq<Torrent>, k: int)
  {
    |after| == |before| && forall i :: 0 <= i < |before| ==>
      after[i] == if i >= k && HoldsSlot(before[i]) then SetQueued(before[i], true) else before[i]
  }

  ghost predicate NoneWaits(ts: seq<Torrent>)
  {
    forall i :: 0 <= i < |ts| ==> ts[i].phase != Queued
  }

  /** The limit is kept, and is reached unless nobody waits. */
  ghost predicate Settled(ts: seq<Torrent>, limit: int)
  {
    if limit <= 0 then NoneWaits(ts) else Active(ts) <= limit && (Active(ts) == limit || NoneWaits(ts))
  }

  class Session {
    var torrents: seq<Torrent>

    ghost predicate Valid()
      reads this
    {
      forall i :: 0 <= i < |torrents| ==> TorrentOk(torrents[i])
    }

    constructor ()
      ensures Valid() && torrents == []
    {
      torrents := [];
    }

    method Add(hasMeta: bool)
      requires Valid()
      modifies this
      ensures Valid() && torrents == old(torrents) + [Torrent(if hasMeta then Checking else FetchingMetadata, false, false, hasMeta, false, false)]
    {
      torrents := torrents + [Torrent(if hasMeta then Checking else FetchingMetadata, false, false, hasMeta, false, false)];
    }

    method PauseOrResume(i: nat, paused: bool)
      requires Valid() && i < |torrents|
      modifies this
      ensures Valid() && torrents == old(torrents)[i := SetPaused(old(torrents)[i], paused)]
    {
      SwitchesKeepOk(torrents[i], paused);
      torrents := torrents[i := SetPaused(torrents[i], paused)];
    }

    /** The metadata is whole: the check comes next, also for a torrent the queue holds, unless the user paused. */
    method MetadataDone(i: nat)
      requires Valid() && i < |torrents| && torrents[i].phase == FetchingMetadata
      modifies this
      ensures Valid() && torrents == old(torrents)[i := old(torrents)[i].(hasMeta := true, phase := Checking)]
    {
      torrents := torrents[i := Gate(torrents[i].(hasMeta := true, phase := Checking))];
    }

    /** The check is over: the torrent goes on unless the queue has put it aside meanwhile. */
    method CheckDone(i: nat, complete: bool)
      requires Valid() && i < |torrents| && torrents[i].phase == Checking
      modifies this
      ensures Valid() && torrents == old(torrents)[i := old(torrents)[i].(checked := true, complete := complete,
                phase := if old(torrents)[i].queued then Queued else if complete then Seeding else Downloading)]
    {
      var t := torrents[i].(checked := true, complete := complete, phase := if complete then Seeding else Downloading);
      torrents := torrents[i := Gate(t)];
    }

    /** The end of finish_piece for the last piece. */
    method Complete(i: nat)
      requires Valid() && i < |torrents| && CanComplete(torrents[i])
      modifies this
      ensures Valid() && torrents == old(torrents)[i := Completed(old(torrents)[i])]
      ensures PauseHonoured(torrents[i]) <==> !old(torrents)[i].userPaused
    {
      CompletionHonoursPauseIff(torrents[i]);
      torrents := torrents[i := Completed(torrents[i])];
    }

    /** A write failed, or the store could not be opened: the slot is given back and no switch brings it to life. */
    method Fail(i: nat)
      requires Valid() && i < |torrents|
      modifies this
      ensures Valid() && torrents == old(torrents)[i := old(torrents)[i].(phase := Failed)]
      ensures !HoldsSlot(torrents[i]) && forall on :: SetPaused(torrents[i], on).phase == Failed && SetQueued(torrents[i], on).phase == Failed
    {
      torrents := torrents[i := torrents[i].(phase := Failed)];
    }

    /** update_queue */
    method UpdateQueue(limit: int) returns (ghost k: int)
      requires Valid()
      modifies this
      ensures Valid() && Settled(torrents, limit)
      ensures old(Settled(torrents, limit)) ==> torrents == old(torrents)
      ensures limit <= 0 ==> Promoted(old(torrents), torrents, |torrents|)
      ensures limit > 0 && Active(old(torrents)) < limit ==> 0 <= k <= |torrents| && Promoted(old(torrents), torrents, k)
      ensures limit > 0 && Active(old(torrents)) < limit && Active(torrents) < limit ==> k == |torrents|
      ensures limit > 0 && Active(old(torrents)) >= limit ==> Demoted(old(torrents), torrents, k) && Active(torrents) == limit
    {
      hide TorrentOk, SetQueued, Active;
      ghost var before := torrents;
      if limit <= 0 {
        k := ReleaseAll();
        return;
      }
      var active := CountActive();
      var promotedTo;
      active, promotedTo := PromoteWaiters(active, limit);
      k := promotedTo;
      if active > limit {
        k := DemoteHolders(active, limit);
      } else if Active(before) >= limit {
        k := |torrents|;
        NothingDemoted(before);
      }
    }

    method CountActive() returns (active: nat)
      ensures active == Active(torrents)
    {
      active := 0;
      assert torrents[..0] == [];
      for i := 0 to |torrents|
        invariant active == Active(torrents[..i])
      {
        assert torrents[..i + 1][..i] == torrents[..i];
        if HoldsSlot(torrents[i]) {
          active := active + 1;
        }
      }
      assert torrents[..|torrents|] == torrents;
    }

    /** Without a limit nobody waits. */
    method ReleaseAll() returns (ghost k: int)
      requires Valid()
      modifies this
      ensures Valid() && NoneWaits(torrents) && Promoted(old(torrents), torrents, |torrents|)
      ensures old(NoneWaits(torrents)) ==> torrents == old(torrents)
    {
      k := |torrents|;
      for i := 0 to |torrents|
        invariant |torrents| == |old(torrents)| && Valid() && Promoted(old(torrents), torrents, i)
        invariant forall j :: 0 <= j < i ==> torrents[j].phase != Queued
      {
        if torrents[i].phase == Queued {
          SwitchesKeepOk(torrents[i], false);
          torrents := torrents[i := SetQueued(torrents[i], false)];
        }
      }
    }

    /** The second loop: the earliest waiters first. */
    method PromoteWaiters(active0: nat, limit: nat) returns (active: nat, k: nat)
      requires Valid() && active0 == Active(torrents)
      modifies this
      ensures Valid() && active == Active(torrents) && k <= |torrents| && Promoted(old(torrents), torrents, k)
      ensures active0 >= limit ==> torrents == old(torrents) && k == 0
      ensures active0 < limit ==> active <= limit && (active < limit ==> k == |torrents| && NoneWaits(torrents))
      ensures old(NoneWaits(torrents)) ==> torrents == old(torrents)
    {
      hide Active;
      active, k := active0, 0;
      while k < |torrents| && active < limit
        invariant |torrents| == |old(torrents)| && k <= |torrents| && Valid() && Promoted(old(torrents), torrents, k)
        invariant active == Active(torrents) && (active0 < limit ==> active <= limit)
        invariant active0 >= limit ==> active == active0 && k == 0
        invariant k == 0 || old(NoneWaits(torrents)) ==> torrents == old(torrents)
        invariant forall j :: 0 <= j < k ==> torrents[j].phase != Queued
      {
        if torrents[k].phase == Queued && !torrents[k].userPaused {
          var t := SetQueued(torrents[k], false);
          SwitchesKeepOk(torrents[k], false);
          ActiveUpdate(torrents, k, t);
          torrents := torrents[k := t];
          if HoldsSlot(t) {
            active := active + 1;
          }
        }
        k := k + 1;
      }
    }

    /** The third loop: the latest holders first. */
    method DemoteHolders(active0: nat, limit: nat) returns (k: int)
      requires Valid() && active0 == Active(torrents) && active0 > limit
      modifies this
      ensures Valid() && Active(torrents) == limit && Demoted(old(torrents), torrents, k)
    {
      hide Active;
      var active := active0;
      k := |torrents|;
      while k > 0 && active > limit
        invariant |torrents| == |old(torrents)| && 0 <= k <= |torrents| && Valid() && Demoted(old(torrents), torrents, k)
        invariant active == Active(torrents) && active >= limit
        invariant forall j :: k <= j < |torrents| ==> !HoldsSlot(torrents[j])
        decreases k
      {
        k := k - 1;
        if HoldsSlot(torrents[k]) {
          var t := SetQueued(torrents[k], true);
          SwitchesKeepOk(torrents[k], true);
          ActiveUpdate(torrents, k, t);
          torrents := torrents[k := t];
          active := active - 1;
        }
      }
      if active > limit {
        ActiveNone(torrents);
      }
    }
  }

  lemma NothingDemoted(ts: seq<Torrent>)
    ensures Demoted(ts, ts, |ts|)
  {
  }
}
