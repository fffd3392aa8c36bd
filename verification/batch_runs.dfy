/** Runs of the batch store that show its limits: what lets a second finalise of one batch in. */
module BatchRuns {
  import opened GoStrings
  import opened BatchStore
  import opened BatchFinalize
  import opened BatchMachine
  import opened Runs

  /** The records a call's writes store. */
  function AllStored(ws: seq<Write>, final: bool): seq<Stored> {
    if ws == [] then [] else StoredBy(ws[0], final) + AllStored(ws[1..], final)
  }

  lemma AllStoredFrom(ws: seq<Write>, n: nat, final: bool)
    requires n < |ws|
    ensures AllStored(ws[n..], final) == StoredBy(ws[n], final) + AllStored(ws[n + 1..], final)
  {
    assert ws[n..][1..] == ws[n + 1..];
  }

  lemma Releases(s: System) returns (t: System)
    requires Inv(s) && Enabled(s, Release)
    ensures Run(Step, s, [Release], t) && Inv(t) && t.holder.None? && t.first == s.first
    ensures var h := s.holder.value;
      && t.disk == Replay(h.start, h.writes) && t.stored == s.stored
      && t.applied == s.applied + if h.wins then [|t.stored|] else []
  {
    t := Next(s, Release);
    StepKeepsInv(s, Release);
    Before(Step, s, Release, t, [], t);
    assert [Release] + [] == [Release];
    assert s.holder.value.writes[..s.holder.value.landed] == s.holder.value.writes;
  }

  lemma Lands(s: System) returns (t: System)
    requires Inv(s) && Enabled(s, Land)
    ensures t == Next(s, Land) && Inv(t) && t.first == s.first && t.applied == s.applied
    ensures var h := s.holder.value;
      t.holder == Some(h.(landed := h.landed + 1)) && t.stored == s.stored + StoredBy(h.writes[h.landed], h.final)
  {
    t := Next(s, Land);
    StepKeepsInv(s, Land);
  }

  /** From s on the holder's writes have all landed, it has answered, and the lock is free. */
  ghost predicate Finished(s: System, h: Holder, t: System) {
    && Inv(t) && t.holder.None? && t.first == s.first
    && t.disk == Replay(h.start, h.writes)
    && h.landed <= |h.writes| && t.stored == s.stored + AllStored(h.writes[h.landed..], h.final)
    && t.applied == s.applied + if h.wins then [|t.stored|] else []
  }

  lemma FinishedBefore(s: System, h: Holder, s': System, t: System)
    requires h.landed < |h.writes| && s'.first == s.first && s'.applied == s.applied
    requires s'.stored == s.stored + StoredBy(h.writes[h.landed], h.final)
    requires Finished(s', h.(landed := h.landed + 1), t)
    ensures Finished(s, h, t)
  {
    AllStoredFrom(h.writes, h.landed, h.final);
  }

  /** The holder of the lock can always run to its end. */
  lemma {:induction false} HolderFinishes(s: System) returns (events: seq<Event>, t: System)
    requires Inv(s) && s.holder.Some?
    ensures Run(Step, s, events, t) && Finished(s, s.holder.value, t)
    decreases |s.holder.value.writes| - s.holder.value.landed
  {
    var h := s.holder.value;
    if h.landed == |h.writes| {
      t := Releases(s);
      events := [Release];
      assert s.stored + [] == s.stored;
    } else {
      var s' := Lands(s);
      events, t := HolderFinishes(s');
      Before(Step, s, Land, s', events, t);
      events := [Land] + events;
      FinishedBefore(s, h, s', t);
    }
  }

  /** A call that is not disturbed. */
  lemma WholeCall(s: System, call: Call, fails: Faults, k: nat) returns (events: seq<Event>, t: System)
    requires Inv(s) && s.holder.None? && Admissible(s.disk, call)
    ensures Run(Step, s, events, t) && Inv(t) && t.holder.None? && t.first == s.first
    ensures t.disk == Replay(s.disk, Plan(s.disk, call, fails, k))
    ensures t.stored == s.stored + AllStored(Plan(s.disk, call, fails, k), call.Finalize?)
    ensures t.applied == s.applied + if Wins(s.disk, call, fails, k) then [|t.stored|] else []
  {
    var e := Begin(call, fails, k);
    var s' := Next(s, e);
    StepKeepsInv(s, e);
    events, t := HolderFinishes(s');
    Before(Step, s, e, s', events, t);
    events := [e] + events;
    assert s'.holder.value.writes[0..] == Plan(s.disk, call, fails, k);
  }

  function NoFaults(): (f: Faults)
    ensures forall i :: !f(i)
  {
    i => false
  }

  lemma {:induction false} StoredLast(ws: seq<Write>, final: bool)
    requires ws != [] && BatchLast(ws) && ws[|ws| - 1].PutBatch?
    ensures AllStored(ws, final) == [Stored(ws[|ws| - 1].meta, final)]
  {
    if |ws| > 1 {
      StoredLast(ws[1..], final);
    }
  }

  /** An open batch can be finalised: with no fault the call answers applied, and the batch and
      its outputs are stored. */
  lemma OpenBatchFinalizes(s: System, b: Id, patch: Patch, okId: Id, errId: Id, now: int)
    returns (events: seq<Event>, t: System)
    requires Inv(s) && s.holder.None? && CheckId(b) == Some(b) && Open(s.disk.batches, b)
    requires Fresh(s.disk, okId) && Fresh(s.disk, errId) && okId != errId
    ensures Run(Step, s, events, t) && t.holder.None?
    ensures t.disk == FinalDisk(s.disk, s.disk.batches[b], patch, okId, errId, now)
    ensures t.stored == s.stored + [Stored(FinalRecord(s.disk.batches[b], patch, okId, errId), true)]
    ensures t.applied == s.applied + [|s.stored| + 1]
  {
    var call := Finalize(b, patch, okId, errId, now, false);
    FinalizeEffect(s.disk, b, patch, okId, errId, now, NoFaults(), 0);
    FinalizeShape(s.disk, call, NoFaults(), 0);
    events, t := WholeCall(s, call, NoFaults(), 0);
    StoredLast(Plan(s.disk, call, NoFaults(), 0), true);
    CountsOne(s, t, Stored(FinalRecord(s.disk.batches[b], patch, okId, errId), true));
  }

  lemma CountsOne(s: System, t: System, x: Stored)
    requires t.stored == s.stored + [x] && t.applied == s.applied + [|t.stored|]
    ensures t.applied == s.applied + [|s.stored| + 1]
  {}

  lemma StoreLands(s: System, meta: Meta) returns (events: seq<Event>, t: System)
    requires Inv(s) && s.holder.None? && CheckId(meta.id).Some? && Admissible(s.disk, StoreBatch(meta))
    ensures Run(Step, s, events, t) && t.holder.None? && t.applied == s.applied
    ensures t.disk == s.disk.(batches := s.disk.batches[meta.id := meta])
    ensures t.stored == s.stored + [Stored(meta, false)]
  {
    var call := StoreBatch(meta);
    events, t := WholeCall(s, call, NoFaults(), 0);
    assert Plan(s.disk, call, NoFaults(), 0) == [PutBatch(meta)];
    OneWrite(s.disk, PutBatch(meta));
    StoredLast([PutBatch(meta)], false);
  }

  /** Two calls, each of which stored one record, the second a finalise that answered applied. */
  lemma OneAfterTheOther(s: System, e1: seq<Event>, s1: System, e2: seq<Event>, u: System, x: Stored, y: Stored)
    requires Run(Step, s, e1, s1) && Run(Step, s1, e2, u)
    requires s1.stored == s.stored + [x] && u.stored == s1.stored + [y] && u.applied == s1.applied + [|s1.stored| + 1]
    ensures Run(Step, s, e1 + e2, u) && u.stored == s.stored + [x, y] && u.applied == s1.applied + [|s.stored| + 2]
  {
    Joined(Step, s, e1, s1, e2, u);
  }

  /** A finalise after whatever has happened up to s1. */
  lemma FinalizeNext(s: System, e1: seq<Event>, s1: System, b: Id, x: Stored, patch: Patch, okId: Id, errId: Id,
                     now: int)
    returns (events: seq<Event>, t: System)
    requires Inv(s) && Run(Step, s, e1, s1) && s1.stored == s.stored + [x]
    requires s1.holder.None? && CheckId(b) == Some(b) && Open(s1.disk.batches, b)
    requires Fresh(s1.disk, okId) && Fresh(s1.disk, errId) && okId != errId
    ensures Run(Step, s, events, t) && t.applied == s1.applied + [|s.stored| + 2]
    ensures t.stored == s.stored + [x, Stored(FinalRecord(s1.disk.batches[b], patch, okId, errId), true)]
  {
    RunKeepsInv(s, e1, s1);
    var e2, u := OpenBatchFinalizes(s1, b, patch, okId, errId, now);
    OneAfterTheOther(s, e1, s1, e2, u, x, Stored(FinalRecord(s1.disk.batches[b], patch, okId, errId), true));
    events, t := e1 + e2, u;
  }

  /** The other half of at-most-once: any save or update that puts an open record over a closed
      one, such as a record read before the batch was finalised, lets one more finalise of the
      batch answer applied. */
  lemma RewindLetsAnotherIn(s: System, stale: Meta, patch: Patch, okId: Id, errId: Id, now: int)
    returns (events: seq<Event>, t: System)
    requires Inv(s) && s.holder.None? && CheckId(stale.id) == Some(stale.id)
    requires ClosedIn(s.disk.batches, stale.id) && StatusAllowsFinalize(stale.status)
    requires Admissible(s.disk, StoreBatch(stale))
    requires Fresh(s.disk, okId) && Fresh(s.disk, errId) && okId != errId
    ensures Run(Step, s, events, t) && t.applied == s.applied + [|s.stored| + 2]
    ensures t.stored == s.stored + [Stored(stale, false), Stored(FinalRecord(stale, patch, okId, errId), true)]
  {
    var e1, s1 := StoreLands(s, stale);
    events, t := FinalizeNext(s, e1, s1, stale.id, Stored(stale, false), patch, okId, errId, now);
  }

  /** What a second finalise needs is there after the first. */
  lemma OpenAfterwards(d: Disk, e: Disk, b: Id, patch: Patch, okId: Id, errId: Id, now: int, okId2: Id, errId2: Id)
    requires b in d.batches && d.batches[b].id == b && StatusAllowsFinalize(patch.status)
    requires e == FinalDisk(d, d.batches[b], patch, okId, errId, now)
    requires Fresh(d, okId2) && Fresh(d, errId2) && okId2 != okId && okId2 != errId && errId2 != okId && errId2 != errId
    ensures Open(e.batches, b) && e.batches[b] == FinalRecord(d.batches[b], patch, okId, errId)
    ensures Fresh(e, okId2) && Fresh(e, errId2)
  {}

  /** A finalise that leaves the batch open, and with it all that another one needs. */
  lemma FinalizedStillOpen(s: System, b: Id, patch: Patch, okId: Id, errId: Id, okId2: Id, errId2: Id, now: int)
    returns (events: seq<Event>, t: System)
    requires Inv(s) && s.holder.None? && CheckId(b) == Some(b) && Open(s.disk.batches, b)
    requires StatusAllowsFinalize(patch.status) && Fresh(s.disk, okId) && Fresh(s.disk, errId) && okId != errId
    requires Fresh(s.disk, okId2) && okId2 != okId && okId2 != errId
    requires Fresh(s.disk, errId2) && errId2 != okId && errId2 != errId
    ensures Run(Step, s, events, t) && t.holder.None? && Open(t.disk.batches, b)
    ensures t.disk.batches[b] == FinalRecord(s.disk.batches[b], patch, okId, errId)
    ensures Fresh(t.disk, okId2) && Fresh(t.disk, errId2)
    ensures t.stored == s.stored + [Stored(FinalRecord(s.disk.batches[b], patch, okId, errId), true)]
    ensures t.applied == s.applied + [|s.stored| + 1]
  {
    events, t := OpenBatchFinalizes(s, b, patch, okId, errId, now);
    OpenAfterwards(s.disk, t.disk, b, patch, okId, errId, now, okId2, errId2);
  }

  lemma TwoAnswers(before: seq<nat>, between: seq<nat>, after: seq<nat>, n: nat)
    requires between == before + [n + 1] && after == between + [n + 2]
    ensures after == before + [n + 1, n + 2]
  {}

  /** And a finalise whose patch leaves the status open does not keep a second one out. */
  lemma OpenPatchAppliesTwice(s: System, b: Id, patch: Patch, okId: Id, errId: Id, okId2: Id, errId2: Id, now: int)
    returns (events: seq<Event>, t: System)
    requires Inv(s) && s.holder.None? && CheckId(b) == Some(b) && Open(s.disk.batches, b)
    requires StatusAllowsFinalize(patch.status) && Fresh(s.disk, okId) && Fresh(s.disk, errId) && okId != errId
    requires Fresh(s.disk, okId2) && okId2 != okId && okId2 != errId
    requires Fresh(s.disk, errId2) && errId2 != okId && errId2 != errId && okId2 != errId2
    ensures Run(Step, s, events, t) && t.applied == s.applied + [|s.stored| + 1, |s.stored| + 2]
    ensures var r := FinalRecord(s.disk.batches[b], patch, okId, errId);
      t.stored == s.stored + [Stored(r, true), Stored(FinalRecord(r, patch, okId2, errId2), true)]
  {
    var e1, s1 := FinalizedStillOpen(s, b, patch, okId, errId, okId2, errId2, now);
    var x := Stored(FinalRecord(s.disk.batches[b], patch, okId, errId), true);
    events, t := FinalizeNext(s, e1, s1, b, x, patch, okId2, errId2, now);
    TwoAnswers(s.applied, s1.applied, t.applied, |s.stored|);
  }
}
