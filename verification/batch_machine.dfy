/** Processes sharing one batch directory: operations one after the other under the write lock,
    each write a step of its own, a crash possible after any of them, and readers, who take no
    lock, seeing the disk at every step. */
module BatchMachine {
  import opened GoStrings
  import opened BatchStore
  import opened BatchFinalize
  import opened Runs

  datatype Call =
    | SaveFile(rec: FileRecord, content: string, newId: Id, now: int)
    | DeleteFile(rawId: string, seen: Reads)
    | StoreBatch(meta: Meta)
    | Finalize(rawId: string, patch: Patch, okId: Id, errId: Id, now: int, bad: bool)

  /** The writes a call lands from disk d when it is not cut short; k counts what its store had
      tried before. */
  function Plan(d: Disk, call: Call, fails: Faults, k: nat): seq<Write> {
    match call
    case SaveFile(rec, content, newId, now) => SaveSteps(Prepared(rec, content, newId, now), content, fails, k).writes
    case DeleteFile(rawId, seen) => DeletePlan(d, rawId, seen, fails, k).writes
    case StoreBatch(meta) => StoreSteps(meta, fails, k).writes
    case Finalize(rawId, patch, okId, errId, now, bad) =>
      FinalizeSteps(d, rawId, patch, okId, errId, now, bad, fails, k).writes
  }

  function Answer(d: Disk, call: Call, fails: Faults, k: nat): Result
    requires call.Finalize?
  {
    FinalizeSteps(d, call.rawId, call.patch, call.okId, call.errId, call.now, call.bad, fails, k).result
  }

  /** The call is a finalise that is going to answer applied. */
  predicate Wins(d: Disk, call: Call, fails: Faults, k: nat) {
    call.Finalize? && Answer(d, call, fails, k).Applied?
  }

  /** What the callers and newID see to: new ids are new, a directory listing is whole, and a
      batch that is saved or updated names only outputs that are stored. */
  ghost predicate Admissible(d: Disk, call: Call) {
    match call
    case SaveFile(rec, content, newId, now) => !Named(d, Prepared(rec, content, newId, now).id)
    case DeleteFile(_, seen) => seen.listing.Some? ==> forall b | b in d.batches :: b in seen.listing.value
    case StoreBatch(meta) => forall f | Outputs(meta, f) :: Whole(d, f)
    case Finalize(_, _, okId, errId, _, _) => Fresh(d, okId) && Fresh(d, errId) && okId != errId
  }

  /** The record names no output, or those already stored for the batch: all that the callers in
      the gateway ever save. */
  predicate SameOrNone(d: Disk, meta: Meta) {
    && (meta.outputFileId == "" || (meta.id in d.batches && meta.outputFileId == d.batches[meta.id].outputFileId))
    && (meta.errorFileId == "" || (meta.id in d.batches && meta.errorFileId == d.batches[meta.id].errorFileId))
  }

  /** The call that holds the lock: the disk it found, whether it is a finalise and is going to
      answer applied, its writes, and how many of them have landed. */
  datatype Holder = Holder(start: Disk, final: bool, wins: bool, writes: seq<Write>, landed: nat)

  /** A batch record that was stored, by a finalise or by a save or update. */
  datatype Stored = Stored(meta: Meta, final: bool)

  /** disk and holder are the system's; first is the disk at the start, stored the batch records
      stored since, and applied says which of them belong to calls that answered applied. */
  datatype System = System(disk: Disk, holder: Option<Holder>, first: Disk, stored: seq<Stored>, applied: seq<nat>)

  datatype Event = Begin(call: Call, fails: Faults, k: nat) | Land | Release | Crash

  ghost predicate Enabled(s: System, e: Event) {
    match e
    case Begin(call, _, _) => s.holder.None? && Admissible(s.disk, call)
    case Land => s.holder.Some? && s.holder.value.landed < |s.holder.value.writes|
    case Release => s.holder.Some? && s.holder.value.landed == |s.holder.value.writes|
    case Crash => s.holder.Some?
  }

  function StoredBy(w: Write, final: bool): seq<Stored> {
    if w.PutBatch? then [Stored(w.meta, final)] else []
  }

  function Next(s: System, e: Event): System
    requires Enabled(s, e)
  {
    match e
    case Begin(call, fails, k) =>
      s.(holder := Some(Holder(s.disk, call.Finalize?, Wins(s.disk, call, fails, k), Plan(s.disk, call, fails, k), 0)))
    case Land =>
      var h := s.holder.value;
      var w := h.writes[h.landed];
      s.(disk := Apply(s.disk, w), holder := Some(h.(landed := h.landed + 1)),
         stored := s.stored + StoredBy(w, h.final))
    case Release =>
      var h := s.holder.value;
      s.(holder := None, applied := s.applied + if h.wins then [|s.stored|] else [])
    case Crash => s.(holder := None)
  }

  ghost predicate Init(s: System) {
    Sound(s.disk) && s.disk == s.first && s.holder.None? && s.stored == [] && s.applied == []
  }

  ghost predicate Step(s: System, e: Event, t: System) {
    Enabled(s, e) && t == Next(s, e)
  }

  // ----- the batch records over time -----

  /** The batch records after a run of stores. */
  function Recorded(base: map<Id, Meta>, stored: seq<Stored>): map<Id, Meta> {
    if stored == [] then base
    else Recorded(base, stored[..|stored| - 1])[stored[|stored| - 1].meta.id := stored[|stored| - 1].meta]
  }

  lemma RecordedSnoc(base: map<Id, Meta>, stored: seq<Stored>, x: Stored)
    ensures Recorded(base, stored + [x]) == Recorded(base, stored)[x.meta.id := x.meta]
  {
    assert (stored + [x])[..|stored|] == stored;
  }

  predicate Open(batches: map<Id, Meta>, id: Id) {
    id in batches && StatusAllowsFinalize(batches[id].status)
  }

  predicate ClosedIn(batches: map<Id, Meta>, id: Id) {
    id in batches && !StatusAllowsFinalize(batches[id].status)
  }

  /** Every finalise stored its record over an open one. */
  ghost predicate FinalsOverOpen(base: map<Id, Meta>, stored: seq<Stored>) {
    forall j | 0 <= j < |stored| && stored[j].final :: Open(Recorded(base, stored[..j]), stored[j].meta.id)
  }

  /** The applied answers belong to finalises' records, each to another one. (An answer is
      noted as how many records had been stored.) */
  predicate AppliedInOrder(stored: seq<Stored>, applied: seq<nat>) {
    && (forall i | 0 <= i < |applied| :: 0 < applied[i] <= |stored| && stored[applied[i] - 1].final)
    && (forall i, j | 0 <= i < j < |applied| :: applied[i] < applied[j])
  }

  ghost predicate HolderInv(s: System, h: Holder) {
    && h.landed <= |h.writes| && s.disk == Replay(h.start, h.writes[..h.landed])
    && Sound(h.start) && Safe(h.start, h.writes) && ShapeOk(h.start, h.writes, h.final, h.wins)
    && (h.wins && h.landed == |h.writes| ==> JustStored(s))
  }

  /** Only a call's last write stores a batch record, a finalise's over an open one, and a
      finalise that is to answer applied has such a write. */
  predicate ShapeOk(start: Disk, writes: seq<Write>, final: bool, wins: bool) {
    && BatchLast(writes)
    && (final && !NoBatch(writes) ==> Open(start.batches, writes[|writes| - 1].meta.id))
    && (wins ==> final && !NoBatch(writes))
  }

  /** The newest record is a finalise's and has not been answered yet. */
  predicate JustStored(s: System) {
    s.stored != [] && s.stored[|s.stored| - 1].final && forall a | a in s.applied :: a < |s.stored|
  }

  ghost predicate Inv(s: System) {
    && Sound(s.disk)
    && s.disk.batches == Recorded(s.first.batches, s.stored)
    && FinalsOverOpen(s.first.batches, s.stored)
    && AppliedInOrder(s.stored, s.applied)
    && (s.holder.Some? ==> HolderInv(s, s.holder.value))
  }

  // ----- the shape of a plan -----

  predicate NoBatch(ws: seq<Write>) {
    forall j | 0 <= j < |ws| :: !ws[j].PutBatch?
  }

  lemma {:induction false} NoBatchKeeps(d: Disk, ws: seq<Write>)
    requires NoBatch(ws)
    ensures Replay(d, ws).batches == d.batches
  {
    if ws != [] {
      NoBatchKeeps(d, ws[..|ws| - 1]);
    }
  }

  lemma {:induction false} RemovalsStoreNoBatch(ids: seq<Id>, fails: Faults, k: nat)
    ensures NoBatch(RemoveAllSteps(ids, fails, k).writes)
  {
    if ids != [] {
      RemovalsStoreNoBatch(ids[..|ids| - 1], fails, k);
    }
  }

  lemma OutputsStoreNoBatch(p: Progress, which: Output, content: string, newId: Id, now: int, fails: Faults)
    requires NoBatch(p.writes)
    ensures NoBatch(OutputSteps(p, which, content, newId, now, fails).writes)
    ensures OutputSteps(p, which, content, newId, now, fails).meta.id == p.meta.id
  {}

  /** Only the last write of a call stores a batch record. */
  predicate BatchLast(ws: seq<Write>) {
    forall j | 0 <= j < |ws| - 1 :: !ws[j].PutBatch?
  }

  lemma ClosingShape(p: Progress, patch: Patch, fails: Faults)
    requires NoBatch(p.writes)
    ensures var f := CloseSteps(p, patch, fails);
      if f.result.Applied? then f.writes == p.writes + [PutBatch(Closed(p.meta, patch))] else NoBatch(f.writes)
  {
    RemovalsStoreNoBatch(p.written, fails, p.next);
    RemovalsStoreNoBatch(p.written, fails, StoreSteps(Closed(p.meta, patch), fails, p.next).next);
  }

  lemma FinalizeShape(d: Disk, call: Call, fails: Faults, k: nat)
    requires call.Finalize?
    ensures var ws := Plan(d, call, fails, k);
      if Wins(d, call, fails, k) then
        && BatchLast(ws) && ws != [] && ws[|ws| - 1] == PutBatch(Answer(d, call, fails, k).meta)
        && CheckId(call.rawId).Some? && Open(d.batches, CheckId(call.rawId).value)
        && ws[|ws| - 1].meta.id == d.batches[CheckId(call.rawId).value].id
        && ws[|ws| - 1].meta.status == call.patch.status
      else NoBatch(ws)
  {
    var id := CheckId(call.rawId);
    if id.Some? && id.value in d.batches {
      var p0 := Progress(d.batches[id.value].(counts := call.patch.counts), [], [], k, true);
      OutputsStoreNoBatch(p0, OkOutput, call.patch.ok, call.okId, call.now, fails);
      var p1 := OutputSteps(p0, OkOutput, call.patch.ok, call.okId, call.now, fails);
      OutputsStoreNoBatch(p1, ErrOutput, call.patch.err, call.errId, call.now, fails);
      var p2 := OutputSteps(p1, ErrOutput, call.patch.err, call.errId, call.now, fails);
      ClosingShape(p2, call.patch, fails);
    }
  }

  lemma PlanShape(d: Disk, call: Call, fails: Faults, k: nat)
    requires Sound(d)
    ensures ShapeOk(d, Plan(d, call, fails, k), call.Finalize?, Wins(d, call, fails, k))
  {
    if call.Finalize? {
      FinalizeShape(d, call, fails, k);
    }
  }

  // ----- every plan is safe -----

  lemma FinalizePlanIsSafe(d: Disk, call: Call, fails: Faults, k: nat)
    requires Sound(d) && call.Finalize? && Admissible(d, call)
    ensures Safe(d, Plan(d, call, fails, k))
  {
    var id := CheckId(call.rawId);
    if !call.bad && id.Some? && Open(d.batches, id.value) {
      FinalizeEffect(d, call.rawId, call.patch, call.okId, call.errId, call.now, fails, k);
    } else {
      FinalizeOnlyOpen(d, call.rawId, call.patch, call.okId, call.errId, call.now, call.bad, fails, k);
    }
  }

  lemma SameOrNoneIsAdmissible(d: Disk, meta: Meta)
    requires Sound(d) && SameOrNone(d, meta)
    ensures Admissible(d, StoreBatch(meta))
  {
    forall f | Outputs(meta, f) ensures Whole(d, f) {
      assert Outputs(d.batches[meta.id], f);
      assert Named(d, f);
    }
  }

  lemma PlanIsSafe(d: Disk, call: Call, fails: Faults, k: nat)
    requires Sound(d) && Admissible(d, call)
    ensures Safe(d, Plan(d, call, fails, k))
  {
    match call {
      case SaveFile(rec, content, newId, now) => SaveIsSafe(d, Prepared(rec, content, newId, now), content, fails, k);
      case DeleteFile(rawId, seen) => DeleteIsSafe(d, rawId, seen, fails, k);
      case StoreBatch(meta) => StoreIsSafe(d, meta, fails, k);
      case Finalize(_, _, _, _, _, _) => FinalizePlanIsSafe(d, call, fails, k);
    }
  }

  // ----- the invariant -----

  /** The next write, and the disk before and after it. */
  lemma LandStep(s: System)
    requires Inv(s) && Enabled(s, Land)
    ensures var h := s.holder.value; var w := h.writes[h.landed];
      && Sound(Apply(s.disk, w))
      && Apply(s.disk, w) == Replay(h.start, h.writes[..h.landed + 1])
      && (forall f | Named(s.disk, f) :: SameFile(s.disk, Apply(s.disk, w), f))
  {
    var h := s.holder.value;
    HarmlessKeepsSound(s.disk, h.writes[h.landed]);
    assert h.writes[..h.landed + 1] == h.writes[..h.landed] + [h.writes[h.landed]];
    ReplaySnoc(h.start, h.writes[..h.landed], h.writes[h.landed]);
  }

  /** A batch record is the last write of its call and is written over the batches the call
      found when it began. */
  lemma LandRecord(h: Holder)
    requires ShapeOk(h.start, h.writes, h.final, h.wins)
    requires h.landed < |h.writes| && h.writes[h.landed].PutBatch?
    ensures Replay(h.start, h.writes[..h.landed]).batches == h.start.batches && h.landed + 1 == |h.writes|
    ensures h.final ==> Open(h.start.batches, h.writes[h.landed].meta.id)
  {
    assert !NoBatch(h.writes);
    NoBatchKeeps(h.start, h.writes[..h.landed]);
  }

  lemma MoreStored(base: map<Id, Meta>, stored: seq<Stored>, x: Stored)
    requires FinalsOverOpen(base, stored) && (x.final ==> Open(Recorded(base, stored), x.meta.id))
    ensures FinalsOverOpen(base, stored + [x])
  {
    assert forall j | 0 <= j <= |stored| :: (stored + [x])[..j] == stored[..j];
    assert stored[..|stored|] == stored;
  }

  lemma AppliedStays(stored: seq<Stored>, more: seq<Stored>, applied: seq<nat>)
    requires AppliedInOrder(stored, applied)
    ensures AppliedInOrder(stored + more, applied)
  {}

  /** What landing stores, and over what. */
  lemma LandStores(s: System)
    requires Inv(s) && Enabled(s, Land)
    ensures var t := Next(s, Land);
      t.disk.batches == Recorded(t.first.batches, t.stored) && FinalsOverOpen(t.first.batches, t.stored)
  {
    var h := s.holder.value;
    var w := h.writes[h.landed];
    if w.PutBatch? {
      LandRecord(h);
    }
    WriteStores(s.first.batches, s.stored, s.disk, w, h.final);
  }

  lemma WriteStores(base: map<Id, Meta>, stored: seq<Stored>, d: Disk, w: Write, final: bool)
    requires d.batches == Recorded(base, stored) && FinalsOverOpen(base, stored)
    requires w.PutBatch? && final ==> Open(d.batches, w.meta.id)
    ensures Apply(d, w).batches == Recorded(base, stored + StoredBy(w, final))
    ensures FinalsOverOpen(base, stored + StoredBy(w, final))
  {
    if w.PutBatch? {
      MoreStored(base, stored, Stored(w.meta, final));
      RecordedSnoc(base, stored, Stored(w.meta, final));
    } else {
      assert stored + [] == stored;
    }
  }

  lemma LandKeepsHolder(s: System)
    requires Inv(s) && Enabled(s, Land)
    ensures var t := Next(s, Land); Sound(t.disk) && HolderInv(t, t.holder.value)
  {
    LandStep(s);
    LandAnswers(s);
  }

  /** When the last write of a finalise that is to answer applied lands, its record is the
      newest. */
  lemma LandAnswers(s: System)
    requires Inv(s) && Enabled(s, Land)
    ensures var t := Next(s, Land);
      t.holder.value.wins && t.holder.value.landed == |t.holder.value.writes| ==> JustStored(t)
  {
    assert forall a | a in s.applied :: a <= |s.stored|;
  }

  /** Nothing recorded is lost. */
  ghost predicate Later(s: System, t: System) {
    s.first == t.first && s.stored <= t.stored && s.applied <= t.applied
  }

  lemma BeginKeepsInv(s: System, call: Call, fails: Faults, k: nat)
    requires Inv(s) && Enabled(s, Begin(call, fails, k))
    ensures Inv(Next(s, Begin(call, fails, k)))
  {
    PlanIsSafe(s.disk, call, fails, k);
    PlanShape(s.disk, call, fails, k);
  }

  lemma LandKeepsInv(s: System)
    requires Inv(s) && Enabled(s, Land)
    ensures Inv(Next(s, Land)) && Later(s, Next(s, Land))
  {
    LandStores(s);
    LandKeepsHolder(s);
    AppliedStays(s.stored, StoredBy(s.holder.value.writes[s.holder.value.landed], s.holder.value.final), s.applied);
  }

  lemma ReleaseKeepsInv(s: System)
    requires Inv(s) && Enabled(s, Release)
    ensures Inv(Next(s, Release)) && Later(s, Next(s, Release))
  {
    if s.holder.value.wins {
      MoreApplied(s.stored, s.applied);
    } else {
      assert s.applied + [] == s.applied;
    }
  }

  lemma MoreApplied(stored: seq<Stored>, applied: seq<nat>)
    requires AppliedInOrder(stored, applied) && (forall a | a in applied :: a < |stored|)
    requires stored != [] && stored[|stored| - 1].final
    ensures AppliedInOrder(stored, applied + [|stored|])
  {
    assert forall i | 0 <= i < |applied| :: applied[i] in applied;
  }

  lemma StepKeepsInv(s: System, e: Event)
    requires Inv(s) && Enabled(s, e)
    ensures Inv(Next(s, e)) && Later(s, Next(s, e))
  {
    match e {
      case Begin(call, fails, k) => BeginKeepsInv(s, call, fails, k);
      case Land => LandKeepsInv(s);
      case Release => ReleaseKeepsInv(s);
      case Crash =>
    }
  }

  lemma InitInv(s: System)
    requires Init(s)
    ensures Inv(s)
  {}

  lemma {:induction false} RunKeepsInv(s: System, events: seq<Event>, t: System)
    requires Inv(s) && Run(Step, s, events, t)
    ensures Inv(t) && Later(s, t)
    decreases |events|
  {
    if events != [] {
      var mid :| Step(s, events[0], mid) && Run(Step, mid, events[1..], t);
      StepKeepsInv(s, events[0]);
      RunKeepsInv(mid, events[1..], t);
    }
  }

  /** At every step of every run, whatever fails and wherever a process dies: each output and
      error file a stored batch names is stored whole, record and content. */
  lemma NamedFilesAreStored(s: System, events: seq<Event>, t: System, b: Id)
    requires Init(s) && Run(Step, s, events, t) && b in t.disk.batches
    ensures var meta := t.disk.batches[b];
      && (meta.outputFileId != "" ==> Whole(t.disk, meta.outputFileId))
      && (meta.errorFileId != "" ==> Whole(t.disk, meta.errorFileId))
  {
    InitInv(s);
    RunKeepsInv(s, events, t);
    var meta := t.disk.batches[b];
    assert meta.outputFileId != "" ==> Outputs(meta, meta.outputFileId) && Named(t.disk, meta.outputFileId);
    assert meta.errorFileId != "" ==> Outputs(meta, meta.errorFileId) && Named(t.disk, meta.errorFileId);
  }

  // ----- at most once -----

  /** A save or update put an open record over a closed one. */
  ghost predicate Rewinds(base: map<Id, Meta>, stored: seq<Stored>, m: nat)
    requires m < |stored|
  {
    && !stored[m].final && ClosedIn(Recorded(base, stored[..m]), stored[m].meta.id)
    && StatusAllowsFinalize(stored[m].meta.status)
  }

  /** Between a moment when a batch is closed and a later one when it is open, a save or update
      rewound it. */
  lemma {:induction false} ReopenedByRewind(base: map<Id, Meta>, stored: seq<Stored>, id: Id, i: nat, j: nat)
    returns (m: nat)
    requires FinalsOverOpen(base, stored) && i <= j <= |stored|
    requires ClosedIn(Recorded(base, stored[..i]), id) && Open(Recorded(base, stored[..j]), id)
    ensures i <= m < j && stored[m].meta.id == id && Rewinds(base, stored, m)
    decreases j - i
  {
    RecordedSnoc(base, stored[..i], stored[i]);
    assert stored[..i + 1] == stored[..i] + [stored[i]];
    if ClosedIn(Recorded(base, stored[..i + 1]), id) {
      m := ReopenedByRewind(base, stored, id, i + 1, j);
    } else {
      m := i;
    }
  }

  /** Two finalises of one batch can both store a record only if the first closed nothing, its
      patch's status being an open one, or a save or update rewound the batch in between. */
  lemma TwoFinalsNeedARewind(base: map<Id, Meta>, stored: seq<Stored>, i: nat, j: nat) returns (m: nat)
    requires FinalsOverOpen(base, stored) && i < j < |stored| && stored[i].final && stored[j].final
    requires stored[i].meta.id == stored[j].meta.id && !StatusAllowsFinalize(stored[i].meta.status)
    ensures i < m < j && stored[m].meta.id == stored[i].meta.id && Rewinds(base, stored, m)
  {
    RecordedSnoc(base, stored[..i], stored[i]);
    assert stored[..i + 1] == stored[..i] + [stored[i]];
    m := ReopenedByRewind(base, stored, stored[i].meta.id, i + 1, j);
  }

  ghost predicate NoRewinds(s: System) {
    forall m: nat | m < |s.stored| :: !Rewinds(s.first.batches, s.stored, m)
  }

  /** Every finalise of the run was asked for a status that closes the batch. */
  ghost predicate ClosingPatches(events: seq<Event>) {
    forall e | e in events && e.Begin? && e.call.Finalize? :: !StatusAllowsFinalize(e.call.patch.status)
  }

  /** Then the records they store are closed. */
  ghost predicate FinalsClosing(s: System) {
    && (forall j | 0 <= j < |s.stored| && s.stored[j].final :: !StatusAllowsFinalize(s.stored[j].meta.status))
    && (s.holder.Some? && s.holder.value.final ==>
          forall w | w in s.holder.value.writes && w.PutBatch? :: !StatusAllowsFinalize(w.meta.status))
  }

  lemma StepKeepsClosing(s: System, e: Event)
    requires FinalsClosing(s) && Enabled(s, e)
    requires e.Begin? && e.call.Finalize? ==> !StatusAllowsFinalize(e.call.patch.status)
    ensures FinalsClosing(Next(s, e))
  {
    if e.Begin? && e.call.Finalize? {
      FinalizeStatus(s.disk, e.call, e.fails, e.k);
    }
  }

  lemma FinalizeStatus(d: Disk, call: Call, fails: Faults, k: nat)
    requires call.Finalize?
    ensures forall w | w in Plan(d, call, fails, k) && w.PutBatch? :: w.meta.status == call.patch.status
  {
    FinalizeShape(d, call, fails, k);
    var ws := Plan(d, call, fails, k);
    forall w | w in ws && w.PutBatch? ensures w.meta.status == call.patch.status {
      var j :| 0 <= j < |ws| && ws[j] == w;
      assert j == |ws| - 1;
    }
  }

  lemma {:induction false} RunKeepsClosing(s: System, events: seq<Event>, t: System)
    requires FinalsClosing(s) && Run(Step, s, events, t) && ClosingPatches(events)
    ensures FinalsClosing(t)
    decreases |events|
  {
    if events != [] {
      var mid :| Step(s, events[0], mid) && Run(Step, mid, events[1..], t);
      assert events[0] in events;
      StepKeepsClosing(s, events[0]);
      RunKeepsClosing(mid, events[1..], t);
    }
  }

  /** Finalise at most once: of all the concurrent calls of a run whose patches close their
      batches, and where no writer rewinds a batch, at most one for each batch answers applied. */
  lemma AppliedAtMostOnce(s: System, events: seq<Event>, t: System, i: nat, j: nat)
    requires Init(s) && Run(Step, s, events, t) && ClosingPatches(events) && NoRewinds(t)
    requires i < j < |t.applied|
    ensures 0 < t.applied[i] <= |t.stored| && 0 < t.applied[j] <= |t.stored|
    ensures t.stored[t.applied[i] - 1].meta.id != t.stored[t.applied[j] - 1].meta.id
  {
    InitInv(s);
    InitClosing(s);
    RunKeepsInv(s, events, t);
    RunKeepsClosing(s, events, t);
    AnswersDiffer(t, i, j);
  }

  lemma InitClosing(s: System)
    requires Init(s)
    ensures FinalsClosing(s)
  {}

  lemma AnswersDiffer(t: System, i: nat, j: nat)
    requires FinalsOverOpen(t.first.batches, t.stored) && AppliedInOrder(t.stored, t.applied)
    requires FinalsClosing(t) && NoRewinds(t) && i < j < |t.applied|
    ensures 0 < t.applied[i] <= |t.stored| && 0 < t.applied[j] <= |t.stored|
    ensures t.stored[t.applied[i] - 1].meta.id != t.stored[t.applied[j] - 1].meta.id
  {
    assert t.applied[i] < t.applied[j];
    FinalsDiffer(t.first.batches, t.stored, t.applied[i] - 1, t.applied[j] - 1);
  }

  lemma FinalsDiffer(base: map<Id, Meta>, stored: seq<Stored>, a: nat, b: nat)
    requires FinalsOverOpen(base, stored) && (forall m: nat | m < |stored| :: !Rewinds(base, stored, m))
    requires a < b < |stored| && stored[a].final && stored[b].final && !StatusAllowsFinalize(stored[a].meta.status)
    ensures stored[a].meta.id != stored[b].meta.id
  {
    if stored[a].meta.id == stored[b].meta.id {
      var m := TwoFinalsNeedARewind(base, stored, a, b);
      assert false;
    }
  }

  /** A terminal status and an open one exclude each other, and all the named ones are either. */
  lemma TerminalIsClosed(st: Status)
    ensures !(Terminal(st) && StatusAllowsFinalize(st))
    ensures Terminal(st) || StatusAllowsFinalize(st) <==> !st.Other?
  {}

  /** Every finalise of the run was asked for a terminal status. */
  ghost predicate TerminalPatches(events: seq<Event>) {
    forall e | e in events && e.Begin? && e.call.Finalize? :: Terminal(e.call.patch.status)
  }

  /** So it is for the terminal statuses, which are what the batches are finalised with. */
  lemma TerminalAtMostOnce(s: System, events: seq<Event>, t: System, i: nat, j: nat)
    requires Init(s) && Run(Step, s, events, t) && TerminalPatches(events) && NoRewinds(t)
    requires i < j < |t.applied|
    ensures 0 < t.applied[i] <= |t.stored| && 0 < t.applied[j] <= |t.stored|
    ensures t.stored[t.applied[i] - 1].meta.id != t.stored[t.applied[j] - 1].meta.id
  {
    forall e | e in events && e.Begin? && e.call.Finalize? ensures !StatusAllowsFinalize(e.call.patch.status) {
      TerminalIsClosed(e.call.patch.status);
    }
    AppliedAtMostOnce(s, events, t, i, j);
  }

  /** No save or update touches a record that is closed. */
  ghost predicate LeftAlone(base: map<Id, Meta>, stored: seq<Stored>) {
    forall m: nat | m < |stored| && !stored[m].final :: !ClosedIn(Recorded(base, stored[..m]), stored[m].meta.id)
  }

  ghost predicate ClosedLeftAlone(s: System) {
    LeftAlone(s.first.batches, s.stored)
  }

  lemma ClosedRecordStays(s: System, t: System, b: Id)
    requires Inv(s) && Inv(t) && Later(s, t) && ClosedLeftAlone(t) && ClosedIn(s.disk.batches, b)
    ensures b in t.disk.batches && t.disk.batches[b] == s.disk.batches[b]
  {
    assert t.stored[..|s.stored|] == s.stored && t.stored[..|t.stored|] == t.stored;
    ClosedStays(t.first.batches, t.stored, b, |s.stored|, |t.stored|);
  }

  lemma {:induction false} ClosedStays(base: map<Id, Meta>, stored: seq<Stored>, b: Id, i: nat, j: nat)
    requires FinalsOverOpen(base, stored) && LeftAlone(base, stored) && i <= j <= |stored|
    requires ClosedIn(Recorded(base, stored[..i]), b)
    ensures var after := Recorded(base, stored[..j]); b in after && after[b] == Recorded(base, stored[..i])[b]
    decreases j - i
  {
    if i < j {
      RecordedSnoc(base, stored[..i], stored[i]);
      assert stored[..i + 1] == stored[..i] + [stored[i]];
      ClosedStays(base, stored, b, i + 1, j);
    }
  }

  /** Where closed records are left alone, a closed batch never changes again, and neither does
      any output it names: who has seen the batch finished can read the files it lists at any
      later time, and always finds the same. */
  lemma {:induction false} ClosedBatchIsFinal(s: System, events: seq<Event>, t: System, b: Id)
    requires Inv(s) && Run(Step, s, events, t) && ClosedLeftAlone(t) && ClosedIn(s.disk.batches, b)
    ensures b in t.disk.batches && t.disk.batches[b] == s.disk.batches[b]
    ensures forall f | Outputs(s.disk.batches[b], f) :: SameFile(s.disk, t.disk, f) && Whole(t.disk, f)
    decreases |events|
  {
    if events == [] {
      assert forall f | Outputs(s.disk.batches[b], f) :: Named(s.disk, f);
    } else {
      var s' :| Step(s, events[0], s') && Run(Step, s', events[1..], t);
      StepKeepsInv(s, events[0]);
      RunKeepsInv(s', events[1..], t);
      LeftAloneBefore(s', t);
      ClosedRecordStays(s, s', b);
      ClosedBatchIsFinal(s', events[1..], t, b);
      StepKeepsNamed(s, events[0]);
      assert forall f | Outputs(s.disk.batches[b], f) :: Named(s.disk, f) && SameFile(s.disk, s'.disk, f);
    }
  }

  lemma StepKeepsNamed(s: System, e: Event)
    requires Inv(s) && Enabled(s, e)
    ensures forall f | Named(s.disk, f) :: SameFile(s.disk, Next(s, e).disk, f)
  {
    if e.Land? {
      LandStep(s);
    }
  }

  lemma LeftAloneBefore(s: System, t: System)
    requires Later(s, t) && ClosedLeftAlone(t)
    ensures ClosedLeftAlone(s)
  {
    forall m: nat | m < |s.stored| && !s.stored[m].final
      ensures !ClosedIn(Recorded(s.first.batches, s.stored[..m]), s.stored[m].meta.id)
    {
      assert t.stored[..m] == s.stored[..m] && t.stored[m] == s.stored[m];
    }
  }

  // ----- content without a record -----

  /** The write neither stores under this id nor removes its content. */
  predicate Spares(w: Write, f: Id) {
    match w
    case PutContent(id, _) => id != f
    case PutFile(rec) => rec.id != f
    case DropContent(id) => id != f
    case _ => true
  }

  predicate AllSpare(ws: seq<Write>, f: Id) {
    forall w | w in ws :: Spares(w, f)
  }

  /** The call is not given this id to store under. */
  predicate Avoids(call: Call, f: Id) {
    match call
    case SaveFile(rec, content, newId, now) => Prepared(rec, content, newId, now).id != f
    case Finalize(_, _, okId, errId, _, _) => okId != f && errId != f
    case _ => true
  }

  lemma {:induction false} RemovalsSpare(ids: seq<Id>, fails: Faults, k: nat, f: Id)
    requires f !in ids
    ensures AllSpare(RemoveAllSteps(ids, fails, k).writes, f)
  {
    if ids != [] {
      RemovalsSpare(ids[..|ids| - 1], fails, k, f);
    }
  }

  lemma OutputSpares(p: Progress, which: Output, content: string, newId: Id, now: int, fails: Faults, f: Id)
    requires AllSpare(p.writes, f) && f !in p.written && newId != f
    ensures var q := OutputSteps(p, which, content, newId, now, fails); AllSpare(q.writes, f) && f !in q.written
  {}

  lemma ClosingSpares(p: Progress, patch: Patch, fails: Faults, f: Id)
    requires AllSpare(p.writes, f) && f !in p.written
    ensures AllSpare(CloseSteps(p, patch, fails).writes, f)
  {
    RemovalsSpare(p.written, fails, p.next, f);
    RemovalsSpare(p.written, fails, StoreSteps(Closed(p.meta, patch), fails, p.next).next, f);
  }

  lemma FinalizeSpares(d: Disk, call: Call, fails: Faults, k: nat, f: Id)
    requires call.Finalize? && Avoids(call, f)
    ensures AllSpare(Plan(d, call, fails, k), f)
  {
    var id := CheckId(call.rawId);
    if id.Some? && id.value in d.batches {
      var p0 := Progress(d.batches[id.value].(counts := call.patch.counts), [], [], k, true);
      OutputSpares(p0, OkOutput, call.patch.ok, call.okId, call.now, fails, f);
      var p1 := OutputSteps(p0, OkOutput, call.patch.ok, call.okId, call.now, fails);
      OutputSpares(p1, ErrOutput, call.patch.err, call.errId, call.now, fails, f);
      var p2 := OutputSteps(p1, ErrOutput, call.patch.err, call.errId, call.now, fails);
      ClosingSpares(p2, call.patch, fails, f);
    }
  }

  lemma PlanSpares(d: Disk, call: Call, fails: Faults, k: nat, f: Id)
    requires f !in d.files && Avoids(call, f)
    ensures AllSpare(Plan(d, call, fails, k), f)
  {
    if call.Finalize? {
      FinalizeSpares(d, call, fails, k, f);
    }
  }

  /** A content whose record is gone, and no writer at work on it. */
  ghost predicate Orphaned(s: System, f: Id, content: string) {
    && f !in s.disk.files && f in s.disk.contents && s.disk.contents[f] == content
    && (s.holder.Some? ==> AllSpare(s.holder.value.writes, f))
  }

  lemma OrphanOutlivesStep(s: System, e: Event, f: Id, content: string)
    requires Orphaned(s, f, content) && Enabled(s, e) && (e.Begin? ==> Avoids(e.call, f))
    ensures Orphaned(Next(s, e), f, content)
  {
    if e.Begin? {
      PlanSpares(s.disk, e.call, e.fails, e.k, f);
    }
    if e.Land? {
      assert s.holder.value.writes[s.holder.value.landed] in s.holder.value.writes;
    }
  }

  /** What a half-failed delete, a failed finalise or a crash leaves under contents stays for good:
      whatever calls follow, as long as none is given its id to store under, it is never removed,
      and every delete of it is answered "not found". */
  lemma {:induction false} OrphanStays(s: System, events: seq<Event>, t: System, f: Id, content: string)
    requires Orphaned(s, f, content) && Run(Step, s, events, t)
    requires forall e | e in events && e.Begin? :: Avoids(e.call, f)
    ensures Orphaned(t, f, content)
    ensures forall rawId, seen, fails, k | CheckId(rawId) == Some(f) ::
      DeletePlan(t.disk, rawId, seen, fails, k) == DeleteSteps([], k, FileNotFound)
    decreases |events|
  {
    if events != [] {
      var mid :| Step(s, events[0], mid) && Run(Step, mid, events[1..], t);
      assert events[0] in events;
      OrphanOutlivesStep(s, events[0], f, content);
      OrphanStays(mid, events[1..], t, f, content);
    }
  }
}
