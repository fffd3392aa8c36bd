/** What the batch store's operations keep: every write of every operation leaves the output
    files a batch names whole, and a failed finalise takes back what it saved. */
module BatchFinalize {
  import opened GoStrings
  import opened BatchStore

  // ----- soundness -----

  /** A file that can be read back: record and content both stored, and of one size. */
  predicate Whole(d: Disk, f: Id) {
    f in d.files && f in d.contents && d.files[f].bytes == |d.contents[f]|
  }

  predicate Outputs(meta: Meta, f: Id) {
    f != "" && (meta.outputFileId == f || meta.errorFileId == f)
  }

  ghost predicate Named(d: Disk, f: Id) {
    exists b :: b in d.batches && Outputs(d.batches[b], f)
  }

  /** Every output or error file a stored batch names can be read. */
  ghost predicate Sound(d: Disk) {
    && (forall b | b in d.batches :: d.batches[b].id == b)
    && (forall f | Named(d, f) :: Whole(d, f))
  }

  /** A write that leaves named files alone, or stores a batch whose files are whole. */
  ghost predicate Harmless(d: Disk, w: Write) {
    match w
    case PutContent(id, _) => !Named(d, id)
    case PutFile(rec) => !Named(d, rec.id)
    case PutBatch(meta) => forall f | Outputs(meta, f) :: Whole(d, f)
    case DropFile(id) => !Named(d, id)
    case DropContent(id) => !Named(d, id)
  }

  /** Every write of the run is harmless where it lands. */
  ghost predicate Safe(d: Disk, ws: seq<Write>) {
    forall j | 0 <= j < |ws| :: Harmless(Replay(d, ws[..j]), ws[j])
  }

  predicate SameFile(d: Disk, e: Disk, f: Id) {
    && (f in d.files <==> f in e.files) && (f in d.files ==> d.files[f] == e.files[f])
    && (f in d.contents <==> f in e.contents) && (f in d.contents ==> d.contents[f] == e.contents[f])
  }

  lemma HarmlessKeepsSound(d: Disk, w: Write)
    requires Sound(d) && Harmless(d, w)
    ensures Sound(Apply(d, w))
    ensures forall f | Named(d, f) :: SameFile(d, Apply(d, w), f)
  {
    var e := Apply(d, w);
    forall f | Named(e, f) ensures Whole(e, f) {
      var b :| b in e.batches && Outputs(e.batches[b], f);
      if w.PutBatch? && b == w.meta.id {
        assert Outputs(w.meta, f);
      } else {
        assert b in d.batches && Outputs(d.batches[b], f);
        assert Named(d, f);
      }
    }
  }

  /** So the disk is sound after any of the writes: whenever a crash comes, and whatever a
      reader, who takes no lock, gets to see. */
  lemma {:induction false} SafeKeepsSound(d: Disk, ws: seq<Write>, j: nat)
    requires Sound(d) && Safe(d, ws) && j <= |ws|
    ensures Sound(Replay(d, ws[..j]))
  {
    if j > 0 {
      SafeKeepsSound(d, ws, j - 1);
      assert ws[..j] == ws[..j - 1] + [ws[j - 1]];
      ReplaySnoc(d, ws[..j - 1], ws[j - 1]);
      HarmlessKeepsSound(Replay(d, ws[..j - 1]), ws[j - 1]);
    }
  }

  lemma SafeAppend(d: Disk, a: seq<Write>, b: seq<Write>)
    requires Safe(d, a) && Safe(Replay(d, a), b)
    ensures Safe(d, a + b)
  {
    var ws := a + b;
    forall j | 0 <= j < |ws| ensures Harmless(Replay(d, ws[..j]), ws[j]) {
      if j < |a| {
        assert ws[..j] == a[..j];
      } else {
        assert ws[..j] == a + b[..j - |a|];
        ReplayAppend(d, a, b[..j - |a|]);
      }
    }
  }

  lemma OneWrite(d: Disk, w: Write)
    ensures Replay(d, [w]) == Apply(d, w)
    ensures Harmless(d, w) ==> Safe(d, [w])
  {
    ReplaySnoc(d, [], w);
    assert [] + [w] == [w] && [w][..0] == [];
  }

  lemma TwoWrites(d: Disk, v: Write, w: Write)
    ensures Replay(d, [v, w]) == Apply(Apply(d, v), w)
    ensures Harmless(d, v) && Harmless(Apply(d, v), w) ==> Safe(d, [v, w])
  {
    OneWrite(d, v);
    OneWrite(Apply(d, v), w);
    ReplaySnoc(d, [v], w);
    assert [v] + [w] == [v, w];
    if Harmless(d, v) && Harmless(Apply(d, v), w) {
      SafeAppend(d, [v], [w]);
    }
  }

  lemma SameNames(d: Disk, e: Disk)
    requires d.batches == e.batches
    ensures forall f :: Named(d, f) <==> Named(e, f)
  {}

  // ----- save, remove, store -----

  /** Saving under an id no batch names as an output. */
  lemma SaveIsSafe(d: Disk, rec: FileRecord, content: string, fails: Faults, k: nat)
    requires !Named(d, rec.id)
    ensures var s := SaveSteps(rec, content, fails, k); var e := Replay(d, s.writes);
      && Safe(d, s.writes) && e.batches == d.batches
      && (s.ok ==> e.files == d.files[rec.id := rec] && e.contents == d.contents[rec.id := content])
      && (!s.ok ==> e.files == d.files &&
                    e.contents == if CheckId(rec.id).None? || fails(k) then d.contents
                                  else d.contents[rec.id := content])
      && (s.ok <==> CheckId(rec.id).Some? && !fails(k) && !fails(k + 1))
  {
    var v, w := PutContent(rec.id, content), PutFile(rec);
    SameNames(d, Apply(d, v));
    OneWrite(d, v);
    TwoWrites(d, v, w);
  }

  /** What was saved can be read back: the content as given, and a record that counts its bytes
      and says what the caller said. */
  lemma SavedFileReadsBack(d: Disk, rec: FileRecord, content: string, newId: Id, now: int, fails: Faults, k: nat)
    requires SaveSteps(Prepared(rec, content, newId, now), content, fails, k).ok
    ensures var id := if rec.id == "" then newId else rec.id;
            var e := Replay(d, SaveSteps(Prepared(rec, content, newId, now), content, fails, k).writes);
      && Whole(e, id) && e.contents[id] == content && e.files[id].id == id
      && e.files[id].filename == rec.filename && e.files[id].purpose == rec.purpose
      && (e.files[id].kind, e.files[id].status, e.files[id].createdAt)
           == (if rec.kind == "" then "file" else rec.kind, if rec.status == "" then "processed" else rec.status,
               if rec.createdAt == 0 then now else rec.createdAt)
      && (forall f | f != id :: SameFile(d, e, f)) && e.batches == d.batches
  {
    var r := Prepared(rec, content, newId, now);
    TwoWrites(d, PutContent(r.id, content), PutFile(r));
  }

  lemma RemoveIsSafe(d: Disk, id: Id, fails: Faults, k: nat)
    requires !Named(d, id)
    ensures var s := RemoveSteps(id, fails, k); var e := Replay(d, s.writes);
      && Safe(d, s.writes) && e.batches == d.batches
      && (s.ok ==> e.files == d.files - {id} && e.contents == d.contents - {id})
      && (forall f | f != id :: SameFile(d, e, f))
  {
    var v, w := DropFile(id), DropContent(id);
    SameNames(d, Apply(d, v));
    OneWrite(d, v);
    TwoWrites(d, v, w);
  }

  /** Removing these ids does this to the disk, all of it when ok. */
  ghost predicate Cleared(d: Disk, e: Disk, gone: set<Id>, ok: bool) {
    && e.batches == d.batches
    && (ok ==> e.files == d.files - gone && e.contents == d.contents - gone)
    && (forall f | f !in gone :: SameFile(d, e, f))
  }

  lemma ClearedMore(d: Disk, e: Disk, gone: set<Id>, ok: bool, id: Id, fails: Faults, k: nat)
    requires Cleared(d, e, gone, ok) && !Named(d, id)
    ensures var s := RemoveSteps(id, fails, k);
      Safe(e, s.writes) && Cleared(d, Replay(e, s.writes), gone + {id}, ok && s.ok)
  {
    SameNames(d, e);
    RemoveIsSafe(e, id, fails, k);
    var e' := Replay(e, RemoveSteps(id, fails, k).writes);
    assert forall f | f !in gone + {id} :: SameFile(d, e, f) && SameFile(e, e', f);
  }

  /** ok says whether all the removals tried worked. */
  ghost predicate AllWorked(fails: Faults, k: nat, next: nat, ok: bool) {
    k <= next && (ok <==> forall i: nat | k <= i < next :: !fails(i))
  }

  lemma RemoveWorks(id: Id, fails: Faults, k: nat)
    ensures var s := RemoveSteps(id, fails, k); AllWorked(fails, k, s.next, s.ok)
  {
    assert fails(k) || !fails(k);
  }

  /** The clean-up reports success exactly when every removal it tried worked. */
  lemma {:induction false} CleanUpReports(ids: seq<Id>, fails: Faults, k: nat)
    ensures var s := RemoveAllSteps(ids, fails, k); AllWorked(fails, k, s.next, s.ok)
  {
    if ids != [] {
      CleanUpReports(ids[..|ids| - 1], fails, k);
      RemoveWorks(ids[|ids| - 1], fails, RemoveAllSteps(ids[..|ids| - 1], fails, k).next);
    }
  }

  lemma {:induction false} RemoveAllIsSafe(d: Disk, ids: seq<Id>, fails: Faults, k: nat) returns (gone: set<Id>)
    requires forall id | id in ids :: !Named(d, id)
    ensures forall f :: f in gone <==> f in ids
    ensures var s := RemoveAllSteps(ids, fails, k);
      Safe(d, s.writes) && Cleared(d, Replay(d, s.writes), gone, s.ok)
  {
    if ids == [] {
      gone := {};
    } else {
      var front, id := ids[..|ids| - 1], ids[|ids| - 1];
      assert ids == front + [id];
      gone := RemoveAllIsSafe(d, front, fails, k);
      var s := RemoveAllSteps(front, fails, k);
      ClearedMore(d, Replay(d, s.writes), gone, s.ok, id, fails, s.next);
      var t := RemoveSteps(id, fails, s.next);
      SafeAppend(d, s.writes, t.writes);
      ReplayAppend(d, s.writes, t.writes);
      gone := gone + {id};
    }
  }

  lemma StoreIsSafe(d: Disk, meta: Meta, fails: Faults, k: nat)
    requires forall f | Outputs(meta, f) :: Whole(d, f)
    ensures var s := StoreSteps(meta, fails, k);
      && Safe(d, s.writes)
      && (s.ok <==> CheckId(meta.id).Some? && !fails(k))
      && Replay(d, s.writes) == if s.ok then d.(batches := d.batches[meta.id := meta]) else d
  {
    OneWrite(d, PutBatch(meta));
  }

  /** That is all a caller of SaveBatch or UpdateBatch has to see to, and no less would do. */
  lemma StoringIsSoundIff(d: Disk, meta: Meta)
    requires Sound(d)
    ensures Sound(Apply(d, PutBatch(meta))) <==> forall f | Outputs(meta, f) :: Whole(d, f)
  {
    var e := Apply(d, PutBatch(meta));
    if forall f | Outputs(meta, f) :: Whole(d, f) {
      HarmlessKeepsSound(d, PutBatch(meta));
    }
    if Sound(e) {
      forall f | Outputs(meta, f) ensures Whole(d, f) {
        assert Outputs(e.batches[meta.id], f);
        assert Named(e, f) && Whole(e, f);
      }
    }
  }

  // ----- delete -----

  /** Given a whole listing, a delete removes only files no batch has as its input, output or error
      file, and refuses only those that one has. */
  lemma DeleteIsSafe(d: Disk, rawId: string, seen: Reads, fails: Faults, k: nat)
    requires seen.listing.Some? ==> forall b | b in d.batches :: b in seen.listing.value
    ensures var s := DeletePlan(d, rawId, seen, fails, k); var e := Replay(d, s.writes);
      && Safe(d, s.writes) && e.batches == d.batches
      && (s.writes != [] ==> CheckId(rawId).Some? && forall b :: !InUseBy(d, b, CheckId(rawId).value))
      && (s.result.Removed? ==> !fails(k) && !fails(k + 1)
                                && CheckId(rawId).value !in e.files && CheckId(rawId).value !in e.contents)
      && (s.result.RemoveFails? ==> fails(k) || fails(k + 1))
      && (s.result.FileInUse? ==> exists b :: InUseBy(d, b, CheckId(rawId).value))
  {
    var id := CheckId(rawId);
    if id.Some? && seen.listing.Some? {
      ScanDecides(d, seen.listing.value, seen.badBatches, id.value);
      if Scan(d, seen.listing.value, seen.badBatches, id.value).Unused? {
        RemoveIsSafe(d, id.value, fails, k);
      }
    }
  }

  /** When everything can be read and nothing fails, a delete succeeds exactly for a stored file
      that no batch has; one that a batch has is refused as in use, and what is refused stays. */
  lemma DeleteIsExact(d: Disk, rawId: string, listing: seq<Id>, fails: Faults, k: nat)
    requires (forall b | b in d.batches :: b in listing) && !fails(k) && !fails(k + 1)
    ensures var s := DeletePlan(d, rawId, Reads(Some(listing), {}, false), fails, k); var id := CheckId(rawId);
      && (s.result.InvalidFileId? <==> id.None?)
      && (s.result.FileNotFound? <==> id.Some? && id.value !in d.files)
      && (s.result.FileInUse? <==> id.Some? && id.value in d.files && exists b :: InUseBy(d, b, id.value))
      && (s.result.Removed? <==> id.Some? && id.value in d.files && forall b :: !InUseBy(d, b, id.value))
      && Replay(d, s.writes) ==
           if s.result.Removed? then Disk(d.files - {id.value}, d.contents - {id.value}, d.batches) else d
  {
    var id := CheckId(rawId);
    if id.Some? {
      ScanDecides(d, listing, {}, id.value);
      TwoWrites(d, DropFile(id.value), DropContent(id.value));
    }
  }

  /** Whatever cannot be read refuses the delete: the file, the listing, or a batch that is reached
      before one that has the file. */
  lemma DeleteFailsClosed(d: Disk, rawId: string, seen: Reads, fails: Faults, k: nat)
    requires CheckId(rawId).Some? && CheckId(rawId).value in d.files
    ensures var s := DeletePlan(d, rawId, seen, fails, k);
      && (s.result.FileUnreadable? <==> seen.badFile)
      && (!seen.badFile && seen.listing.None? ==> s.result.CannotScan?)
      && (seen.listing.Some? && (exists b :: b in seen.listing.value && b in d.batches && b in seen.badBatches) ==>
            s.writes == [] && (s.result.CannotScan? || s.result.FileInUse? || s.result.FileUnreadable?))
  {
    if seen.listing.Some? {
      ScanDecides(d, seen.listing.value, seen.badBatches, CheckId(rawId).value);
    }
  }

  /** A delete that fails half-way cannot be repeated: once the record is gone the next try is
      answered "not found" and the content stays. It can be exactly when the first of the two
      removals was the one that failed. */
  lemma HalfDeletedStays(d: Disk, rawId: string, seen: Reads, fails: Faults, k: nat, again: Reads, fails2: Faults,
                         k2: nat)
    requires DeletePlan(d, rawId, seen, fails, k).result.RemoveFails? && !again.badFile
    ensures var e := Replay(d, DeletePlan(d, rawId, seen, fails, k).writes);
            var s := DeletePlan(e, rawId, again, fails2, k2);
      && e.contents == d.contents
      && (s.result.FileNotFound? <==> !fails(k))
      && (s.result.FileNotFound? ==> s.writes == [])
  {
    OneWrite(d, DropFile(CheckId(rawId).value));
  }

  // ----- finalise -----

  /** An id newID has just drawn. */
  predicate Fresh(d: Disk, id: Id) {
    CheckId(id) == Some(id) && id !in d.files && id !in d.contents
  }

  lemma FreshUnnamed(d: Disk, id: Id)
    requires Sound(d) && Fresh(d, id)
    ensures !Named(d, id)
  {}

  predicate Quiet(fails: Faults, k: nat, n: nat) {
    forall i: nat | k <= i < k + n :: !fails(i)
  }

  function Tries(content: string): nat {
    if content == "" then 0 else 2
  }

  /** Saving one output, from wherever the finalise has come to, is saving its record. */
  lemma OutputIsSave(d: Disk, p: Progress, which: Output, content: string, newId: Id, now: int, fails: Faults)
    requires Safe(d, p.writes) && !Named(Replay(d, p.writes), newId) && p.ok && content != ""
    ensures var q := OutputSteps(p, which, content, newId, now, fails);
            var rec := OutputRecord(p.meta, which, content, newId, now);
            var e := Replay(d, p.writes);
      && rec.id == newId && Safe(d, q.writes)
      && Replay(d, q.writes) == Replay(e, SaveSteps(rec, content, fails, p.next).writes)
  {
    var rec := OutputRecord(p.meta, which, content, newId, now);
    SaveIsSafe(Replay(d, p.writes), rec, content, fails, p.next);
    var s := SaveSteps(rec, content, fails, p.next);
    SafeAppend(d, p.writes, s.writes);
    ReplayAppend(d, p.writes, s.writes);
  }

  /** What it does to the disk. */
  lemma OutputEffect(d: Disk, p: Progress, which: Output, content: string, newId: Id, now: int, fails: Faults)
    requires var e := Replay(d, p.writes); Safe(d, p.writes) && Fresh(e, newId) && !Named(e, newId)
    requires p.ok && content != ""
    ensures var q := OutputSteps(p, which, content, newId, now, fails);
            var e, e' := Replay(d, p.writes), Replay(d, q.writes);
      && Safe(d, q.writes) && e'.batches == e.batches
      && (q.ok <==> !fails(p.next) && !fails(p.next + 1))
      && (q.ok ==>
            && e' == e.(files := e.files[newId := OutputRecord(p.meta, which, content, newId, now)],
                        contents := e.contents[newId := content])
            && q.meta == WithOutput(p.meta, which, newId) && q.written == p.written + [newId] && q.next == p.next + 2)
      && (!q.ok ==>
            && q.written == p.written && e'.files == e.files
            && e'.contents == if fails(p.next) then e.contents else e.contents[newId := content])
  {
    OutputIsSave(d, p, which, content, newId, now, fails);
    SaveIsSafe(Replay(d, p.writes), OutputRecord(p.meta, which, content, newId, now), content, fails, p.next);
  }

  function Text(patch: Patch, which: Output): string {
    if which.OkOutput? then patch.ok else patch.err
  }

  /** The disk with one output saved, where there is one. */
  function Plus(d: Disk, meta: Meta, patch: Patch, which: Output, id: Id, now: int): Disk {
    var content := Text(patch, which);
    if content == "" then d
    else Disk(d.files[id := OutputRecord(meta, which, content, id, now)], d.contents[id := content], d.batches)
  }

  function PlusMeta(meta: Meta, patch: Patch, which: Output, id: Id): Meta {
    if Text(patch, which) == "" then meta else WithOutput(meta, which, id)
  }

  /** The finalise has come to disk e with record m and nothing has failed. */
  ghost predicate Come(d: Disk, p: Progress, e: Disk, m: Meta, written: set<Id>) {
    && p.ok && Safe(d, p.writes) && Replay(d, p.writes) == e && p.meta == m
    && (forall f :: f in p.written <==> f in written)
  }

  /** The save that failed left e as it was, but perhaps for a content without its record. */
  ghost predicate Stuck(d: Disk, q: Progress, e: Disk, written: set<Id>, orphan: Option<(Id, string)>) {
    && !q.ok && Safe(d, q.writes)
    && Replay(d, q.writes) == (if orphan.Some? then e.(contents := e.contents[orphan.value.0 := orphan.value.1]) else e)
    && (forall f :: f in q.written <==> f in written)
  }

  lemma StageDone(d: Disk, p: Progress, e: Disk, m: Meta, written: set<Id>, patch: Patch, which: Output, id: Id,
                  now: int, fails: Faults)
    requires Come(d, p, e, m, written) && Fresh(e, id) && !Named(e, id) && Text(patch, which) != ""
    requires !fails(p.next) && !fails(p.next + 1)
    ensures var q := OutputSteps(p, which, Text(patch, which), id, now, fails);
      && Come(d, q, Plus(e, m, patch, which, id, now), PlusMeta(m, patch, which, id), written + {id})
      && q.next == p.next + 2
  {
    OutputEffect(d, p, which, Text(patch, which), id, now, fails);
  }

  lemma StageFails(d: Disk, p: Progress, e: Disk, m: Meta, written: set<Id>, patch: Patch, which: Output, id: Id,
                   now: int, fails: Faults)
    requires Come(d, p, e, m, written) && Fresh(e, id) && !Named(e, id) && Text(patch, which) != ""
    requires fails(p.next) || fails(p.next + 1)
    ensures Stuck(d, OutputSteps(p, which, Text(patch, which), id, now, fails), e, written,
                  if fails(p.next) then None else Some((id, Text(patch, which))))
  {
    OutputEffect(d, p, which, Text(patch, which), id, now, fails);
  }

  /** One output's stage: what Come becomes. */
  lemma Stage(d: Disk, p: Progress, e: Disk, m: Meta, written: set<Id>, patch: Patch, which: Output, id: Id, now: int,
              fails: Faults)
    requires Come(d, p, e, m, written) && Fresh(e, id) && !Named(e, id)
    ensures var q := OutputSteps(p, which, Text(patch, which), id, now, fails); var n := Tries(Text(patch, which));
      if Quiet(fails, p.next, n) then
        && Come(d, q, Plus(e, m, patch, which, id, now), PlusMeta(m, patch, which, id),
                written + if n == 0 then {} else {id})
        && q.next == p.next + n
      else Stuck(d, q, e, written, if fails(p.next) then None else Some((id, Text(patch, which))))
  {
    FirstFault(fails, p.next);
    if Text(patch, which) == "" {
      assert written + {} == written;
    } else if fails(p.next) || fails(p.next + 1) {
      StageFails(d, p, e, m, written, patch, which, id, now, fails);
    } else {
      StageDone(d, p, e, m, written, patch, which, id, now, fails);
    }
  }

  /** Where both outputs lead, if nothing fails. */
  function PlusBoth(d: Disk, meta: Meta, patch: Patch, okId: Id, errId: Id, now: int): Disk {
    var m := meta.(counts := patch.counts);
    Plus(Plus(d, m, patch, OkOutput, okId, now), PlusMeta(m, patch, OkOutput, okId), patch, ErrOutput, errId, now)
  }

  /** The record a finalise is to store. */
  function FinalRecord(meta: Meta, patch: Patch, okId: Id, errId: Id): Meta {
    meta.(outputFileId := if patch.ok == "" then meta.outputFileId else okId,
          errorFileId := if patch.err == "" then meta.errorFileId else errId,
          counts := patch.counts, status := patch.status, completedAt := patch.completedAt,
          failedAt := patch.failedAt, cancelledAt := patch.cancelledAt)
  }

  /** The first write that fails is the record of an output whose content has landed. */
  predicate RecordFault(patch: Patch, fails: Faults, k: nat) {
    || (patch.ok != "" && !fails(k) && fails(k + 1))
    || (patch.err != "" && Quiet(fails, k, Tries(patch.ok)) && !fails(k + Tries(patch.ok))
          && fails(k + Tries(patch.ok) + 1))
  }

  function Written(patch: Patch, okId: Id, errId: Id): set<Id> {
    (if patch.ok == "" then {} else {okId}) + (if patch.err == "" then {} else {errId})
  }

  function FirstOutput(meta: Meta, patch: Patch, okId: Id, now: int, fails: Faults, k: nat): Progress {
    OutputSteps(Progress(meta.(counts := patch.counts), [], [], k, true), OkOutput, patch.ok, okId, now, fails)
  }

  function PlusFirst(d: Disk, meta: Meta, patch: Patch, okId: Id, now: int): Disk {
    Plus(d, meta.(counts := patch.counts), patch, OkOutput, okId, now)
  }

  function MetaFirst(meta: Meta, patch: Patch, okId: Id): Meta {
    PlusMeta(meta.(counts := patch.counts), patch, OkOutput, okId)
  }

  function MetaBoth(meta: Meta, patch: Patch, okId: Id, errId: Id): Meta {
    PlusMeta(MetaFirst(meta, patch, okId), patch, ErrOutput, errId)
  }

  function WrittenFirst(patch: Patch, okId: Id): set<Id> {
    if patch.ok == "" then {} else {okId}
  }

  lemma FirstOutputEffect(d: Disk, meta: Meta, patch: Patch, okId: Id, now: int, fails: Faults, k: nat)
    requires Sound(d) && Fresh(d, okId)
    ensures var p := FirstOutput(meta, patch, okId, now, fails, k);
      if Quiet(fails, k, Tries(patch.ok)) then
        && Come(d, p, PlusFirst(d, meta, patch, okId, now), MetaFirst(meta, patch, okId), WrittenFirst(patch, okId))
        && p.next == k + Tries(patch.ok)
      else Stuck(d, p, d, {}, if fails(k) then None else Some((okId, patch.ok)))
  {
    FreshUnnamed(d, okId);
    var m := meta.(counts := patch.counts);
    Stage(d, Progress(m, [], [], k, true), d, m, {}, patch, OkOutput, okId, now, fails);
  }

  lemma SecondOutputEffect(d: Disk, p: Progress, meta: Meta, patch: Patch, okId: Id, errId: Id, now: int, fails: Faults)
    requires Sound(d) && Fresh(d, errId) && okId != errId
    requires Come(d, p, PlusFirst(d, meta, patch, okId, now), MetaFirst(meta, patch, okId), WrittenFirst(patch, okId))
    ensures var q := OutputSteps(p, ErrOutput, patch.err, errId, now, fails);
      if Quiet(fails, p.next, Tries(patch.err)) then
        && Come(d, q, PlusBoth(d, meta, patch, okId, errId, now), MetaBoth(meta, patch, okId, errId),
                Written(patch, okId, errId))
        && q.next == p.next + Tries(patch.err)
      else Stuck(d, q, PlusFirst(d, meta, patch, okId, now), WrittenFirst(patch, okId),
                 if fails(p.next) then None else Some((errId, patch.err)))
  {
    FreshUnnamed(d, errId);
    var e := PlusFirst(d, meta, patch, okId, now);
    SameNames(d, e);
    Stage(d, p, e, MetaFirst(meta, patch, okId), WrittenFirst(patch, okId), patch, ErrOutput, errId, now, fails);
  }

  /** What the two saves come to. */
  lemma OutputsEffect(d: Disk, meta: Meta, patch: Patch, okId: Id, errId: Id, now: int, fails: Faults, k: nat)
    requires Sound(d) && Fresh(d, okId) && Fresh(d, errId) && okId != errId
    ensures var p := OutputsSteps(meta, patch, okId, errId, now, fails, k); var mid := k + Tries(patch.ok);
      if !Quiet(fails, k, Tries(patch.ok)) then
        Stuck(d, p, d, {}, if fails(k) then None else Some((okId, patch.ok)))
      else if !Quiet(fails, mid, Tries(patch.err)) then
        Stuck(d, p, PlusFirst(d, meta, patch, okId, now), WrittenFirst(patch, okId),
              if fails(mid) then None else Some((errId, patch.err)))
      else
        && Come(d, p, PlusBoth(d, meta, patch, okId, errId, now), MetaBoth(meta, patch, okId, errId),
                Written(patch, okId, errId))
        && p.next == mid + Tries(patch.err)
  {
    FirstOutputEffect(d, meta, patch, okId, now, fails, k);
    if Quiet(fails, k, Tries(patch.ok)) {
      SecondOutputEffect(d, FirstOutput(meta, patch, okId, now, fails, k), meta, patch, okId, errId, now, fails);
    }
  }

  // ----- the clean-up -----

  function WithOrphan(d: Disk, orphan: Option<(Id, string)>): Disk {
    if orphan.Some? then d.(contents := d.contents[orphan.value.0 := orphan.value.1]) else d
  }

  /** e holds all that d holds, unchanged, and the same batches. */
  ghost predicate NothingLost(d: Disk, e: Disk) {
    && e.batches == d.batches
    && (forall f | f in d.files :: f in e.files && e.files[f] == d.files[f])
    && (forall f | f in d.contents :: f in e.contents && e.contents[f] == d.contents[f])
  }

  /** x differs from d only in the files saved, which are new, and an orphan. */
  ghost predicate Saved(d: Disk, x: Disk, written: set<Id>, orphan: Option<(Id, string)>) {
    && x.batches == d.batches
    && (forall f | f !in written :: SameFile(WithOrphan(d, orphan), x, f))
    && (forall f | f in written :: f !in d.files && f !in d.contents && !Named(d, f))
    && (orphan.Some? ==> orphan.value.0 !in d.contents && orphan.value.0 !in written)
  }

  lemma ClearedIsBack(d: Disk, x: Disk, z: Disk, written: set<Id>, orphan: Option<(Id, string)>, ok: bool)
    requires Saved(d, x, written, orphan) && Cleared(x, z, written, ok)
    ensures NothingLost(d, z)
    ensures ok ==> z == WithOrphan(d, orphan)
  {
    assert forall f | f !in written :: SameFile(WithOrphan(d, orphan), x, f) && SameFile(x, z, f);
    if ok {
      SameMap(z.files, d.files);
      SameMap(z.contents, WithOrphan(d, orphan).contents);
    }
  }

  /** finalizeLocked's fail, after any of its failures. */
  lemma FailEffect(d: Disk, p: Progress, x: Disk, written: set<Id>, orphan: Option<(Id, string)>, fails: Faults)
    requires Safe(d, p.writes) && Replay(d, p.writes) == x && Saved(d, x, written, orphan)
    requires forall f :: f in p.written <==> f in written
    ensures var f := FailSteps(p, fails); var z := Replay(d, f.writes);
      && Safe(d, f.writes) && f.result.NotApplied? && NothingLost(d, z)
      && (f.result.cleanedUp ==> z == WithOrphan(d, orphan))
  {
    SameNames(d, x);
    var gone := RemoveAllIsSafe(x, p.written, fails, p.next);
    assert gone == written;
    var s := RemoveAllSteps(p.written, fails, p.next);
    SafeAppend(d, p.writes, s.writes);
    ReplayAppend(d, p.writes, s.writes);
    ClearedIsBack(d, x, Replay(x, s.writes), written, orphan, s.ok);
  }

  /** The failed save's content, when it landed. */
  function Orphan(patch: Patch, okId: Id, errId: Id, fails: Faults, k: nat): (o: Option<(Id, string)>)
    ensures o.Some? <==> RecordFault(patch, fails, k)
  {
    var mid := k + Tries(patch.ok);
    if !Quiet(fails, k, Tries(patch.ok)) then
      FirstFault(fails, k);
      if fails(k) then None else Some((okId, patch.ok))
    else if !Quiet(fails, mid, Tries(patch.err)) then
      FirstFault(fails, mid);
      if fails(mid) then None else Some((errId, patch.err))
    else
      assert patch.ok != "" ==> !fails(k + 1);
      None
  }

  lemma FirstFault(fails: Faults, k: nat)
    ensures Quiet(fails, k, 2) <==> !fails(k) && !fails(k + 1)
  {}

  lemma SavedFirst(d: Disk, meta: Meta, patch: Patch, okId: Id, now: int)
    requires Sound(d) && Fresh(d, okId)
    ensures Saved(d, PlusFirst(d, meta, patch, okId, now), WrittenFirst(patch, okId), None)
  {
    FreshUnnamed(d, okId);
  }

  lemma SavedWithOrphan(d: Disk, x: Disk, written: set<Id>, id: Id, content: string)
    requires Saved(d, x, written, None) && id !in d.contents && id !in written
    ensures Saved(d, WithOrphan(x, Some((id, content))), written, Some((id, content)))
  {}

  lemma SavedOneMore(d: Disk, x: Disk, written: set<Id>, meta: Meta, patch: Patch, which: Output, id: Id, now: int)
    requires Saved(d, x, written, None) && Fresh(d, id) && !Named(d, id)
    ensures Saved(d, Plus(x, meta, patch, which, id, now), written + if Text(patch, which) == "" then {} else {id},
                  None)
  {}

  lemma SavedBoth(d: Disk, meta: Meta, patch: Patch, okId: Id, errId: Id, now: int)
    requires Sound(d) && Fresh(d, okId) && Fresh(d, errId) && okId != errId
    ensures Saved(d, PlusBoth(d, meta, patch, okId, errId, now), Written(patch, okId, errId), None)
  {
    FreshUnnamed(d, errId);
    SavedFirst(d, meta, patch, okId, now);
    SavedOneMore(d, PlusFirst(d, meta, patch, okId, now), WrittenFirst(patch, okId), MetaFirst(meta, patch, okId),
                 patch, ErrOutput, errId, now);
  }

  /** A finalise undone: nothing but an orphan's content is left of it. */
  ghost predicate Undone(d: Disk, f: Finalized, orphan: Option<(Id, string)>) {
    var z := Replay(d, f.writes);
    && Safe(d, f.writes) && f.result.NotApplied? && NothingLost(d, z)
    && (f.result.cleanedUp ==> z == WithOrphan(d, orphan))
  }

  lemma SaveFailureUndone(d: Disk, meta: Meta, patch: Patch, okId: Id, errId: Id, now: int, fails: Faults, k: nat)
    requires Sound(d) && Fresh(d, okId) && Fresh(d, errId) && okId != errId
    requires !OutputsSteps(meta, patch, okId, errId, now, fails, k).ok
    ensures Undone(d, OpenSteps(meta, patch, okId, errId, now, fails, k), Orphan(patch, okId, errId, fails, k))
  {
    OutputsEffect(d, meta, patch, okId, errId, now, fails, k);
    var p := OutputsSteps(meta, patch, okId, errId, now, fails, k);
    var orphan := Orphan(patch, okId, errId, fails, k);
    if !Quiet(fails, k, Tries(patch.ok)) {
      FailEffect(d, p, WithOrphan(d, orphan), {}, orphan, fails);
    } else {
      SavedFirst(d, meta, patch, okId, now);
      SavedWithOrphan(d, PlusFirst(d, meta, patch, okId, now), WrittenFirst(patch, okId), errId, patch.err);
      FailEffect(d, p, WithOrphan(PlusFirst(d, meta, patch, okId, now), orphan), WrittenFirst(patch, okId), orphan,
                 fails);
    }
  }

  lemma RecordFailureUndone(d: Disk, meta: Meta, patch: Patch, okId: Id, errId: Id, now: int, fails: Faults, k: nat)
    requires Sound(d) && Fresh(d, okId) && Fresh(d, errId) && okId != errId
    requires OutputsSteps(meta, patch, okId, errId, now, fails, k).ok
    requires CheckId(meta.id).None? || fails(k + Tries(patch.ok) + Tries(patch.err))
    ensures Undone(d, OpenSteps(meta, patch, okId, errId, now, fails, k), None)
  {
    OutputsEffect(d, meta, patch, okId, errId, now, fails, k);
    var p := OutputsSteps(meta, patch, okId, errId, now, fails, k);
    SavedBoth(d, meta, patch, okId, errId, now);
    var next := StoreSteps(Closed(p.meta, patch), fails, p.next).next;
    FailEffect(d, p.(next := next), PlusBoth(d, meta, patch, okId, errId, now), Written(patch, okId, errId), None,
               fails);
  }

  /** Both outputs and the record stored. */
  function FinalDisk(d: Disk, meta: Meta, patch: Patch, okId: Id, errId: Id, now: int): Disk {
    var e := PlusBoth(d, meta, patch, okId, errId, now);
    e.(batches := d.batches[meta.id := FinalRecord(meta, patch, okId, errId)])
  }

  /** What there is then: the patch's outputs under their new ids, as files of purpose batch named
      after the batch, next to all there was. */
  lemma FinalDiskSays(d: Disk, meta: Meta, patch: Patch, okId: Id, errId: Id, now: int)
    ensures var e := FinalDisk(d, meta, patch, okId, errId, now);
      var okFile := FileRecord(okId, "file", |patch.ok|, now, meta.id + "_output.jsonl", "batch", "processed");
      var errFile := FileRecord(errId, "file", |patch.err|, now, meta.id + "_error.jsonl", "batch", "processed");
      var files := if patch.ok == "" then d.files else d.files[okId := okFile];
      var contents := if patch.ok == "" then d.contents else d.contents[okId := patch.ok];
      && e.batches == d.batches[meta.id := FinalRecord(meta, patch, okId, errId)]
      && e.files == (if patch.err == "" then files else files[errId := errFile])
      && e.contents == (if patch.err == "" then contents else contents[errId := patch.err])
  {}

  lemma PlusKeepsWhole(d: Disk, meta: Meta, patch: Patch, which: Output, id: Id, now: int)
    ensures forall f | Whole(d, f) && f != id :: Whole(Plus(d, meta, patch, which, id, now), f)
    ensures Text(patch, which) != "" ==> Whole(Plus(d, meta, patch, which, id, now), id)
  {}

  lemma SavedOutputsAreWhole(d: Disk, meta: Meta, patch: Patch, okId: Id, errId: Id, now: int)
    requires Fresh(d, okId) && Fresh(d, errId) && okId != errId
    requires forall f | Outputs(meta, f) :: Whole(d, f)
    ensures forall f | Outputs(MetaBoth(meta, patch, okId, errId), f) ::
      Whole(PlusBoth(d, meta, patch, okId, errId, now), f)
  {
    var e := PlusFirst(d, meta, patch, okId, now);
    PlusKeepsWhole(d, meta.(counts := patch.counts), patch, OkOutput, okId, now);
    PlusKeepsWhole(e, MetaFirst(meta, patch, okId), patch, ErrOutput, errId, now);
    forall f | Outputs(MetaBoth(meta, patch, okId, errId), f)
      ensures Whole(PlusBoth(d, meta, patch, okId, errId, now), f)
    {
      assert Outputs(meta, f) || (f == okId && patch.ok != "") || (f == errId && patch.err != "");
      if Outputs(meta, f) {
        assert Whole(d, f) && Whole(e, f);
      }
    }
  }

  lemma ClosedIsFinal(meta: Meta, patch: Patch, okId: Id, errId: Id)
    ensures Closed(MetaBoth(meta, patch, okId, errId), patch) == FinalRecord(meta, patch, okId, errId)
  {}

  lemma CloseLands(d: Disk, p: Progress, e: Disk, m: Meta, written: set<Id>, patch: Patch, fails: Faults)
    requires Come(d, p, e, m, written) && CheckId(m.id).Some? && !fails(p.next)
    requires forall f | Outputs(m, f) :: Whole(e, f)
    ensures var f := CloseSteps(p, patch, fails);
      Safe(d, f.writes) && f.result == Applied(Closed(m, patch))
      && Replay(d, f.writes) == e.(batches := e.batches[m.id := Closed(m, patch)])
  {
    var closed := Closed(m, patch);
    assert forall f :: Outputs(closed, f) <==> Outputs(m, f);
    StoreIsSafe(e, closed, fails, p.next);
    var s := StoreSteps(closed, fails, p.next);
    SafeAppend(d, p.writes, s.writes);
    ReplayAppend(d, p.writes, s.writes);
  }

  lemma SuccessStands(d: Disk, p: Progress, meta: Meta, patch: Patch, okId: Id, errId: Id, now: int, fails: Faults)
    requires Fresh(d, okId) && Fresh(d, errId) && okId != errId
    requires forall f | Outputs(meta, f) :: Whole(d, f)
    requires Come(d, p, PlusBoth(d, meta, patch, okId, errId, now), MetaBoth(meta, patch, okId, errId),
                  Written(patch, okId, errId))
    requires CheckId(meta.id).Some? && !fails(p.next)
    ensures var f := CloseSteps(p, patch, fails);
      Safe(d, f.writes) && f.result == Applied(FinalRecord(meta, patch, okId, errId))
      && Replay(d, f.writes) == FinalDisk(d, meta, patch, okId, errId, now)
  {
    ClosedIsFinal(meta, patch, okId, errId);
    SavedOutputsAreWhole(d, meta, patch, okId, errId, now);
    CloseLands(d, p, PlusBoth(d, meta, patch, okId, errId, now), MetaBoth(meta, patch, okId, errId),
               Written(patch, okId, errId), patch, fails);
  }

  /** How many renames a finalise needs. */
  function Renames(patch: Patch): nat {
    Tries(patch.ok) + Tries(patch.err) + 1
  }

  /** The finalise of an open batch, whichever of its renames and removals fail. It is applied
      exactly when no rename fails, and then the record names exactly the patch's outputs, which
      are stored; otherwise nothing that was stored is lost, the batch least of all. Every write
      on the way leaves every named file whole. */
  lemma FinalizeEffect(d: Disk, rawId: string, patch: Patch, okId: Id, errId: Id, now: int, fails: Faults, k: nat)
    requires Sound(d) && Fresh(d, okId) && Fresh(d, errId) && okId != errId
    requires var id := CheckId(rawId);
      id.Some? && id.value in d.batches && StatusAllowsFinalize(d.batches[id.value].status)
    ensures var meta := d.batches[CheckId(rawId).value];
            var f := FinalizeSteps(d, rawId, patch, okId, errId, now, false, fails, k);
      && Safe(d, f.writes)
      && (f.result.Applied? <==> Quiet(fails, k, Renames(patch)))
      && (f.result.Applied? ==> f.result.meta == FinalRecord(meta, patch, okId, errId)
                                && Replay(d, f.writes) == FinalDisk(d, meta, patch, okId, errId, now))
      && (!f.result.Applied? ==> Undone(d, f, Orphan(patch, okId, errId, fails, k)))
  {
    var id := CheckId(rawId).value;
    var meta := d.batches[id];
    CheckedTwice(rawId);
    assert forall f | Outputs(meta, f) :: Named(d, f);
    OutputsEffect(d, meta, patch, okId, errId, now, fails, k);
    var p := OutputsSteps(meta, patch, okId, errId, now, fails, k);
    QuietSplits(patch, fails, k);
    if !p.ok {
      SaveFailureUndone(d, meta, patch, okId, errId, now, fails, k);
    } else if fails(k + Tries(patch.ok) + Tries(patch.err)) {
      RecordFailureUndone(d, meta, patch, okId, errId, now, fails, k);
    } else {
      SuccessStands(d, p, meta, patch, okId, errId, now, fails);
    }
  }

  lemma CheckedTwice(rawId: string)
    requires CheckId(rawId).Some?
    ensures CheckId(CheckId(rawId).value) == CheckId(rawId)
  {
    TrimSpaceTrims(rawId);
    TrimmedFixed(TrimSpace(rawId));
  }

  lemma QuietSplits(patch: Patch, fails: Faults, k: nat)
    ensures Quiet(fails, k, Renames(patch)) <==>
      && Quiet(fails, k, Tries(patch.ok)) && Quiet(fails, k + Tries(patch.ok), Tries(patch.err))
      && !fails(k + Tries(patch.ok) + Tries(patch.err))
  {
    var n := k + Tries(patch.ok) + Tries(patch.err);
    assert Quiet(fails, k, Renames(patch)) ==> !fails(n);
  }

  /** Rollback: a failed finalise whose clean-up succeeds leaves batches and file records exactly
      as they were. The contents too, if and only if the write that failed was not the record of
      an output whose content had landed: that content stays, under an id nothing names. */
  lemma RollbackIsExact(d: Disk, rawId: string, patch: Patch, okId: Id, errId: Id, now: int, fails: Faults, k: nat)
    requires Sound(d) && Fresh(d, okId) && Fresh(d, errId) && okId != errId
    requires var id := CheckId(rawId);
      id.Some? && id.value in d.batches && StatusAllowsFinalize(d.batches[id.value].status)
    requires FinalizeSteps(d, rawId, patch, okId, errId, now, false, fails, k).result == NotApplied(true)
    ensures var e := Replay(d, FinalizeSteps(d, rawId, patch, okId, errId, now, false, fails, k).writes);
      && e.batches == d.batches && e.files == d.files
      && (e.contents == d.contents <==> !RecordFault(patch, fails, k))
      && (RecordFault(patch, fails, k) ==>
            exists id :: id in {okId, errId} && id !in d.contents && e.contents.Keys == d.contents.Keys + {id})
  {
    FinalizeEffect(d, rawId, patch, okId, errId, now, fails, k);
    var orphan := Orphan(patch, okId, errId, fails, k);
    var e := WithOrphan(d, orphan);
    if orphan.Some? {
      assert orphan.value.0 in {okId, errId} && orphan.value.0 in e.contents && orphan.value.0 !in d.contents;
      assert e.contents.Keys == d.contents.Keys + {orphan.value.0};
    }
  }

  /** Each of the other answers of a finalise: a bad id, a batch that is missing or cannot be read,
      and one with a status other than validating, in_progress and cancelling, which is answered as
      it stands. None of them writes anything. */
  lemma FinalizeOnlyOpen(d: Disk, rawId: string, patch: Patch, okId: Id, errId: Id, now: int, bad: bool,
                         fails: Faults, k: nat)
    ensures var f := FinalizeSteps(d, rawId, patch, okId, errId, now, bad, fails, k); var id := CheckId(rawId);
      if id.None? then f.result == InvalidId && f.writes == []
      else if id.value !in d.batches then f.result == NotFound && f.writes == []
      else if bad then f.result == Unreadable && f.writes == []
      else if d.batches[id.value].status in {Validating, InProgress, Cancelling} then
        f.result.Applied? || f.result.NotApplied?
      else f.result == Skipped(d.batches[id.value]) && f.writes == []
  {}
}
