/** The batch store on disk (internal/batch/store.go, finalize.go): which renames and removes
    each operation lands, in which order, whichever of them fail. */
module BatchStore {
  import opened GoStrings

  type Id = string

  predicate IdRune(c: char) {
    'a' <= c <= 'z' || 'A' <= c <= 'Z' || '0' <= c <= '9' || c == '_' || c == '-'
  }

  predicate PlainId(id: Id) {
    id != "" && forall i | 0 <= i < |id| :: IdRune(id[i])
  }

  /** checkID: the trimmed id, when it is one path segment. */
  function CheckId(id: string): (r: Option<Id>)
    ensures r.Some? ==> PlainId(r.value) && Trimmed(r.value)
  {
    TrimSpaceTrims(id);
    var t := TrimSpace(id);
    if PlainId(t) then Some(t) else None
  }

  /** The text is this plain id with blanks around it. */
  ghost predicate Pads(id: string, plain: Id) {
    && plain != ""
    && (forall c | c in plain :: 'a' <= c <= 'z' || 'A' <= c <= 'Z' || '0' <= c <= '9' || c in "_-")
    && exists a, b :: AllSpace(a) && AllSpace(b) && id == a + plain + b
  }

  lemma PlainIdIff(id: Id)
    ensures PlainId(id) <==>
      id != "" && forall c | c in id :: 'a' <= c <= 'z' || 'A' <= c <= 'Z' || '0' <= c <= '9' || c in "_-"
    ensures PlainId(id) ==> Trimmed(id)
  {
    if PlainId(id) {
      forall c | c in id ensures IdRune(c) {
        var i :| 0 <= i < |id| && id[i] == c;
      }
    } else if id != "" {
      var i :| 0 <= i < |id| && !IdRune(id[i]);
      assert id[i] in id;
    }
  }

  /** Exactly the plain ids are accepted, with any blanks around them, and those come off. */
  lemma CheckedIdIff(id: string)
    ensures forall plain :: CheckId(id) == Some(plain) <==> Pads(id, plain)
    ensures CheckId(id).None? <==> forall plain :: !Pads(id, plain)
  {
    var a, b := TrimSpaceSplits(id);
    PlainIdIff(TrimSpace(id));
    assert CheckId(id).Some? ==> Pads(id, TrimSpace(id));
    forall plain | Pads(id, plain) ensures CheckId(id) == Some(plain) {
      PlainIdIff(plain);
      var x, y :| AllSpace(x) && AllSpace(y) && id == x + plain + y;
      TrimPadded(x, plain, y);
    }
  }

  datatype FileRecord = FileRecord(id: Id, kind: string, bytes: nat, createdAt: int, filename: string,
                                   purpose: string, status: string)

  datatype Status =
    | Validating
    | InProgress
    | Completed
    | Failed
    | Cancelling
    | Cancelled
    | Expired
    | Other(name: string)

  predicate StatusAllowsFinalize(st: Status) {
    st.Validating? || st.InProgress? || st.Cancelling?
  }

  /** Status.Terminal. */
  predicate Terminal(st: Status) {
    st.Completed? || st.Failed? || st.Cancelled? || st.Expired?
  }

  datatype Counts = Counts(total: int, completed: int, failed: int)

  /** A batch record; rest stands for the fields the store only carries along. */
  datatype Meta = Meta(id: Id, kind: string, inputFileId: Id, outputFileId: Id, errorFileId: Id, status: Status,
                       counts: Counts, createdAt: int, completedAt: int, failedAt: int, cancelledAt: int, rest: string)

  datatype Patch = Patch(ok: string, err: string, counts: Counts, status: Status, completedAt: int, failedAt: int,
                         cancelledAt: int)

  /** The three directories under the store's root, by file name. */
  datatype Disk = Disk(files: map<Id, FileRecord>, contents: map<Id, string>, batches: map<Id, Meta>)

  /** One atomic rename or remove. Removing what is not there changes nothing and is no error. */
  datatype Write =
    | PutContent(id: Id, content: string)
    | PutFile(rec: FileRecord)
    | PutBatch(meta: Meta)
    | DropFile(id: Id)
    | DropContent(id: Id)

  function Apply(d: Disk, w: Write): Disk {
    match w
    case PutContent(id, content) => d.(contents := d.contents[id := content])
    case PutFile(rec) => d.(files := d.files[rec.id := rec])
    case PutBatch(meta) => d.(batches := d.batches[meta.id := meta])
    case DropFile(id) => d.(files := d.files - {id})
    case DropContent(id) => d.(contents := d.contents - {id})
  }

  function Replay(d: Disk, ws: seq<Write>): Disk {
    if ws == [] then d else Apply(Replay(d, ws[..|ws| - 1]), ws[|ws| - 1])
  }

  lemma ReplaySnoc(d: Disk, ws: seq<Write>, w: Write)
    ensures Replay(d, ws + [w]) == Apply(Replay(d, ws), w)
  {
    assert (ws + [w])[..|ws|] == ws;
  }

  lemma {:induction false} ReplayAppend(d: Disk, a: seq<Write>, b: seq<Write>)
    ensures Replay(d, a + b) == Replay(Replay(d, a), b)
  {
    if b == [] {
      assert a + b == a;
    } else {
      var front, w := b[..|b| - 1], b[|b| - 1];
      ReplayAppend(d, a, front);
      assert a + b == (a + front) + [w];
      ReplaySnoc(d, a + front, w);
    }
  }

  // ----- what each operation lands -----

  /** Which of a store's renames and removes fail, counted from its first. */
  type Faults = nat -> bool

  /** The writes an operation lands, the number of the next one to try, and whether it was
      completed. */
  datatype Steps = Steps(writes: seq<Write>, next: nat, ok: bool)

  /** prepareFileRecordLocked: id and times of its own when the record has none. */
  function Prepared(rec: FileRecord, content: string, newId: Id, now: int): FileRecord {
    FileRecord(if rec.id == "" then newId else rec.id,
               if rec.kind == "" then "file" else rec.kind,
               |content|,
               if rec.createdAt == 0 then now else rec.createdAt,
               rec.filename, rec.purpose,
               if rec.status == "" then "processed" else rec.status)
  }

  /** Content first, then the record: saveFileUnlocked. */
  function SaveSteps(rec: FileRecord, content: string, fails: Faults, k: nat): Steps {
    if CheckId(rec.id).None? then Steps([], k, false)
    else if fails(k) then Steps([], k + 1, false)
    else if fails(k + 1) then Steps([PutContent(rec.id, content)], k + 2, false)
    else Steps([PutContent(rec.id, content), PutFile(rec)], k + 2, true)
  }

  /** The record first, then the content: removeFileUnlocked. */
  function RemoveSteps(id: Id, fails: Faults, k: nat): Steps {
    if fails(k) then Steps([], k + 1, false)
    else if fails(k + 1) then Steps([DropFile(id)], k + 2, false)
    else Steps([DropFile(id), DropContent(id)], k + 2, true)
  }

  /** The clean-up tries every file, whether or not an earlier one failed. */
  function RemoveAllSteps(ids: seq<Id>, fails: Faults, k: nat): Steps {
    if ids == [] then Steps([], k, true)
    else
      var front := RemoveAllSteps(ids[..|ids| - 1], fails, k);
      var last := RemoveSteps(ids[|ids| - 1], fails, front.next);
      Steps(front.writes + last.writes, last.next, front.ok && last.ok)
  }

  function StoreSteps(meta: Meta, fails: Faults, k: nat): Steps {
    if CheckId(meta.id).None? then Steps([], k, false)
    else if fails(k) then Steps([], k + 1, false)
    else Steps([PutBatch(meta)], k + 1, true)
  }

  /** How far a finalise has come: the record so far, what has landed, the files saved whole. */
  datatype Progress = Progress(meta: Meta, writes: seq<Write>, written: seq<Id>, next: nat, ok: bool)

  datatype Output = OkOutput | ErrOutput

  function OutputRecord(meta: Meta, which: Output, content: string, newId: Id, now: int): FileRecord {
    var name := if which.OkOutput? then "_output.jsonl" else "_error.jsonl";
    Prepared(FileRecord("", "", 0, 0, meta.id + name, "batch", ""), content, newId, now)
  }

  function WithOutput(meta: Meta, which: Output, id: Id): Meta {
    if which.OkOutput? then meta.(outputFileId := id) else meta.(errorFileId := id)
  }

  /** Saving one output: nothing to do when it is empty or an earlier one failed. */
  function OutputSteps(p: Progress, which: Output, content: string, newId: Id, now: int, fails: Faults): Progress {
    if !p.ok || content == "" then p
    else
      var s := SaveSteps(OutputRecord(p.meta, which, content, newId, now), content, fails, p.next);
      Progress(WithOutput(p.meta, which, if s.ok then newId else ""), p.writes + s.writes,
               p.written + if s.ok then [newId] else [], s.next, s.ok)
  }

  function Closed(meta: Meta, patch: Patch): Meta {
    meta.(status := patch.status, completedAt := patch.completedAt, failedAt := patch.failedAt,
          cancelledAt := patch.cancelledAt)
  }

  /** What TryFinalizeBatch answers. A failure says whether the clean-up worked. */
  datatype Result =
    | Applied(meta: Meta)
    | Skipped(meta: Meta)
    | NotApplied(cleanedUp: bool)
    | NotFound
    | Unreadable
    | InvalidId

  datatype Finalized = Finalized(writes: seq<Write>, next: nat, result: Result)

  function FailSteps(p: Progress, fails: Faults): Finalized {
    var r := RemoveAllSteps(p.written, fails, p.next);
    Finalized(p.writes + r.writes, r.next, NotApplied(r.ok))
  }

  /** Both outputs, for a batch that is open. */
  function OutputsSteps(meta: Meta, patch: Patch, okId: Id, errId: Id, now: int, fails: Faults, k: nat): Progress {
    var p0 := Progress(meta.(counts := patch.counts), [], [], k, true);
    var p1 := OutputSteps(p0, OkOutput, patch.ok, okId, now, fails);
    OutputSteps(p1, ErrOutput, patch.err, errId, now, fails)
  }

  /** The record last; any failure before it takes the saved files back. */
  function CloseSteps(p: Progress, patch: Patch, fails: Faults): Finalized {
    if !p.ok then FailSteps(p, fails)
    else
      var closed := Closed(p.meta, patch);
      var s := StoreSteps(closed, fails, p.next);
      if s.ok then Finalized(p.writes + s.writes, s.next, Applied(closed))
      else FailSteps(p.(next := s.next), fails)
  }

  function OpenSteps(meta: Meta, patch: Patch, okId: Id, errId: Id, now: int, fails: Faults, k: nat): Finalized {
    CloseSteps(OutputsSteps(meta, patch, okId, errId, now, fails, k), patch, fails)
  }

  function FinalizeSteps(d: Disk, rawId: string, patch: Patch, okId: Id, errId: Id, now: int, bad: bool,
                         fails: Faults, k: nat): Finalized {
    var id := CheckId(rawId);
    if id.None? then Finalized([], k, InvalidId)
    else if id.value !in d.batches then Finalized([], k, NotFound)
    else if bad then Finalized([], k, Unreadable)
    else if !StatusAllowsFinalize(d.batches[id.value].status) then Finalized([], k, Skipped(d.batches[id.value]))
    else OpenSteps(d.batches[id.value], patch, okId, errId, now, fails, k)
  }

  predicate Refers(meta: Meta, file: Id) {
    meta.inputFileId == file || meta.outputFileId == file || meta.errorFileId == file
  }

  datatype Scanned = InUse | Unused | ScanFails

  /** fileReferencedByBatchLocked over a directory listing: a batch that is gone is passed over,
      one that cannot be read ends the scan. */
  function Scan(d: Disk, listing: seq<Id>, bad: set<Id>, file: Id): Scanned {
    if listing == [] then Unused
    else if listing[0] !in d.batches then Scan(d, listing[1..], bad, file)
    else if listing[0] in bad then ScanFails
    else if Refers(d.batches[listing[0]], file) then InUse
    else Scan(d, listing[1..], bad, file)
  }

  /** A batch has the file as its input, output or error file. */
  ghost predicate InUseBy(d: Disk, b: Id, f: Id) {
    b in d.batches && f in {d.batches[b].inputFileId, d.batches[b].outputFileId, d.batches[b].errorFileId}
  }

  /** What the scan says of a file that is in use, or of one that is not. */
  lemma {:induction false} ScanDecides(d: Disk, listing: seq<Id>, bad: set<Id>, file: Id)
    ensures var r := Scan(d, listing, bad, file);
      && (r.InUse? ==> exists b :: b in listing && InUseBy(d, b, file))
      && (r.ScanFails? ==> exists b :: b in listing && b in d.batches && b in bad)
      && (r.Unused? ==> forall b | b in listing && b in d.batches :: b !in bad && !InUseBy(d, b, file))
  {
    if listing != [] {
      ScanDecides(d, listing[1..], bad, file);
      assert listing[0] in d.batches && Refers(d.batches[listing[0]], file) ==> InUseBy(d, listing[0], file);
    }
  }

  /** What reading meets during a delete: the listing of the batches (none when the directory
      cannot be read) and the records that cannot be read. */
  datatype Reads = Reads(listing: Option<seq<Id>>, badBatches: set<Id>, badFile: bool)

  datatype Deleted = Removed | RemoveFails | FileNotFound | FileUnreadable | FileInUse | CannotScan | InvalidFileId

  datatype DeleteSteps = DeleteSteps(writes: seq<Write>, next: nat, result: Deleted)

  function DeletePlan(d: Disk, rawId: string, seen: Reads, fails: Faults, k: nat): DeleteSteps {
    var id := CheckId(rawId);
    if id.None? then DeleteSteps([], k, InvalidFileId)
    else if id.value !in d.files then DeleteSteps([], k, FileNotFound)
    else if seen.badFile then DeleteSteps([], k, FileUnreadable)
    else if seen.listing.None? then DeleteSteps([], k, CannotScan)
    else match Scan(d, seen.listing.value, seen.badBatches, id.value)
      case InUse => DeleteSteps([], k, FileInUse)
      case ScanFails => DeleteSteps([], k, CannotScan)
      case Unused =>
        var s := RemoveSteps(id.value, fails, k);
        DeleteSteps(s.writes, s.next, if s.ok then Removed else RemoveFails)
  }

  // ----- the store -----

  /** One process's store; every method but the constructor runs with the write lock held. */
  class DiskStore {
    var disk: Disk
    var tried: nat
    const fails: Faults
    ghost const first: Disk
    ghost var log: seq<Write>

    /** The disk is what the writes that landed made of it. */
    ghost predicate Valid()
      reads this
    {
      disk == Replay(first, log)
    }

    constructor (disk: Disk, fails: Faults)
      ensures Valid() && this.disk == disk && this.fails == fails && tried == 0 && log == []
    {
      this.disk, this.fails, first, tried, log := disk, fails, disk, 0, [];
    }

    /** Exactly these writes have landed, one after the other. */
    twostate predicate Landed(writes: seq<Write>, next: nat)
      reads this
    {
      Valid() && log == old(log) + writes && tried == next
    }

    /** What Landed says of the disk. */
    twostate lemma LandedOnDisk(writes: seq<Write>, next: nat)
      requires old(Valid()) && Landed(writes, next)
      ensures disk == Replay(old(disk), writes)
    {
      ReplayAppend(first, old(log), writes);
    }

    /** One statefile.WriteAtomic or os.Remove. */
    method Attempt(w: Write) returns (ok: bool)
      requires Valid()
      modifies this
      ensures ok == !fails(old(tried))
      ensures Landed(if ok then [w] else [], old(tried) + 1)
    {
      ok := !fails(tried);
      tried := tried + 1;
      if ok {
        ReplaySnoc(first, log, w);
        disk, log := Apply(disk, w), log + [w];
      }
    }

    /** saveFileUnlocked. */
    method SaveFileUnlocked(rec: FileRecord, content: string) returns (ok: bool)
      requires Valid()
      modifies this
      ensures var s := SaveSteps(rec, content, fails, old(tried)); ok == s.ok && Landed(s.writes, s.next)
    {
      if CheckId(rec.id).None? {
        return false;
      }
      ok := Attempt(PutContent(rec.id, content));
      if ok {
        ok := Attempt(PutFile(rec));
      }
    }

    /** SaveFile: the id the file was stored under. */
    method SaveFile(rec: FileRecord, content: string, newId: Id, now: int) returns (id: Option<Id>)
      requires Valid()
      modifies this
      ensures var r := Prepared(rec, content, newId, now);
              var s := SaveSteps(r, content, fails, old(tried));
        id == (if s.ok then Some(r.id) else None) && Landed(s.writes, s.next)
    {
      var r := Prepared(rec, content, newId, now);
      var ok := SaveFileUnlocked(r, content);
      id := if ok then Some(r.id) else None;
    }

    /** removeFileUnlocked. */
    method RemoveFileUnlocked(id: Id) returns (ok: bool)
      requires Valid()
      modifies this
      ensures var s := RemoveSteps(id, fails, old(tried)); ok == s.ok && Landed(s.writes, s.next)
    {
      ok := Attempt(DropFile(id));
      if ok {
        ok := Attempt(DropContent(id));
      }
    }

    /** The scan loop with its early exits. */
    method FileReferencedByBatchLocked(file: Id, listing: seq<Id>, bad: set<Id>) returns (r: Scanned)
      ensures r == Scan(disk, listing, bad, file)
    {
      for i := 0 to |listing|
        invariant Scan(disk, listing, bad, file) == Scan(disk, listing[i..], bad, file)
      {
        var id := listing[i];
        if id !in disk.batches {
          continue;
        }
        if id in bad {
          return ScanFails;
        }
        if Refers(disk.batches[id], file) {
          return InUse;
        }
      }
      r := Unused;
    }

    method DeleteFile(rawId: string, seen: Reads) returns (r: Deleted)
      requires Valid()
      modifies this
      ensures var s := DeletePlan(old(disk), rawId, seen, fails, old(tried)); r == s.result && Landed(s.writes, s.next)
      ensures r.Removed? || r.RemoveFails? ==> CheckId(rawId).Some? && seen.listing.Some?
      ensures r.Removed? || r.RemoveFails? ==>
                forall b | b in seen.listing.value :: !InUseBy(old(disk), b, CheckId(rawId).value)
      ensures r.FileInUse? ==> CheckId(rawId).Some? && exists b :: InUseBy(old(disk), b, CheckId(rawId).value)
    {
      var id := CheckId(rawId);
      if id.None? {
        return InvalidFileId;
      }
      if id.value !in disk.files {
        return FileNotFound;
      }
      if seen.badFile {
        return FileUnreadable;
      }
      if seen.listing.None? {
        return CannotScan;
      }
      var inUse := FileReferencedByBatchLocked(id.value, seen.listing.value, seen.badBatches);
      ScanDecides(disk, seen.listing.value, seen.badBatches, id.value);
      match inUse {
        case InUse => return FileInUse;
        case ScanFails => return CannotScan;
        case Unused =>
          var ok := RemoveFileUnlocked(id.value);
          r := if ok then Removed else RemoveFails;
      }
    }

    /** writeBatchMeta, and with it SaveBatch and UpdateBatch. */
    method WriteBatchMeta(meta: Meta) returns (ok: bool)
      requires Valid()
      modifies this
      ensures var s := StoreSteps(meta, fails, old(tried)); ok == s.ok && Landed(s.writes, s.next)
    {
      if CheckId(meta.id).None? {
        return false;
      }
      ok := Attempt(PutBatch(meta));
    }

    /** finalizeLocked's save closure and the test in front of it; p says how far it has come. */
    method SaveOutput(meta: Meta, which: Output, content: string, newId: Id, now: int, written: seq<Id>,
                      ghost p: Progress, ghost l: seq<Write>)
      returns (meta': Meta, written': seq<Id>, ok: bool, ghost q: Progress)
      requires Valid() && log == l + p.writes
      requires p.ok && p.meta == meta && p.written == written && p.next == tried
      modifies this
      ensures q == OutputSteps(p, which, content, newId, now, fails)
      ensures ok == q.ok && meta' == q.meta && written' == q.written && tried == q.next
      ensures Valid() && log == l + q.writes
    {
      meta', written', ok := meta, written, true;
      q := OutputSteps(p, which, content, newId, now, fails);
      if |content| > 0 {
        ok := SaveFileUnlocked(OutputRecord(meta, which, content, newId, now), content);
        meta' := WithOutput(meta, which, if ok then newId else "");
        if ok {
          written' := written + [newId];
        }
      }
    }

    /** Both outputs, the second only after the first. */
    method SaveOutputs(stored: Meta, patch: Patch, okId: Id, errId: Id, now: int)
      returns (meta: Meta, written: seq<Id>, ok: bool, ghost p: Progress)
      requires Valid()
      modifies this
      ensures p == OutputsSteps(stored, patch, okId, errId, now, fails, old(tried))
      ensures ok == p.ok && meta == p.meta && written == p.written
      ensures Landed(p.writes, p.next)
    {
      meta, written, ok := stored.(counts := patch.counts), [], true;
      p := Progress(meta, [], [], tried, true);
      meta, written, ok, p := SaveOutput(meta, OkOutput, patch.ok, okId, now, written, p, log);
      if ok {
        meta, written, ok, p := SaveOutput(meta, ErrOutput, patch.err, errId, now, written, p, old(log));
      }
    }

    /** finalizeLocked's fail closure: the error is joined with every removal's. */
    method Fail(written: seq<Id>) returns (cleanedUp: bool)
      requires Valid()
      modifies this
      ensures var s := RemoveAllSteps(written, fails, old(tried)); cleanedUp == s.ok && Landed(s.writes, s.next)
    {
      cleanedUp := true;
      ghost var s := Steps([], tried, true);
      for i := 0 to |written|
        invariant s == RemoveAllSteps(written[..i], fails, old(tried))
        invariant cleanedUp == s.ok && Landed(s.writes, s.next)
      {
        assert written[..i + 1][..i] == written[..i];
        s := RemoveAllSteps(written[..i + 1], fails, old(tried));
        var ok := RemoveFileUnlocked(written[i]);
        cleanedUp := cleanedUp && ok;
      }
      assert written[..|written|] == written;
    }

    /** TryFinalizeBatch under the lock. */
    method TryFinalizeBatch(rawId: string, patch: Patch, okId: Id, errId: Id, now: int, bad: bool) returns (r: Result)
      requires Valid()
      modifies this
      ensures var f := FinalizeSteps(old(disk), rawId, patch, okId, errId, now, bad, fails, old(tried));
        r == f.result && Landed(f.writes, f.next)
    {
      var id := CheckId(rawId);
      if id.None? {
        return InvalidId;
      }
      if id.value !in disk.batches {
        return NotFound;
      }
      if bad {
        return Unreadable;
      }
      var meta := disk.batches[id.value];
      if !StatusAllowsFinalize(meta.status) {
        return Skipped(meta);
      }
      r := FinalizeOpen(meta, patch, okId, errId, now);
    }

    method FinalizeOpen(stored: Meta, patch: Patch, okId: Id, errId: Id, now: int) returns (r: Result)
      requires Valid()
      modifies this
      ensures var f := OpenSteps(stored, patch, okId, errId, now, fails, old(tried));
        r == f.result && Landed(f.writes, f.next)
    {
      var meta, written, ok, p := SaveOutputs(stored, patch, okId, errId, now);
      r := CloseBatch(meta, written, ok, patch, p, old(log));
    }

    /** The rest of finalizeLocked, once its outputs are saved or one of them has failed. */
    method CloseBatch(saved: Meta, written: seq<Id>, saveOk: bool, patch: Patch, ghost p: Progress,
                      ghost l: seq<Write>)
      returns (r: Result)
      requires Valid() && log == l + p.writes
      requires saveOk == p.ok && saved == p.meta && written == p.written && tried == p.next
      modifies this
      ensures var f := CloseSteps(p, patch, fails);
        r == f.result && Valid() && log == l + f.writes && tried == f.next
    {
      if !saveOk {
        r := TakeBack(written, p, l);
        return;
      }
      var meta := Closed(saved, patch);
      ghost var s := StoreSteps(meta, fails, tried);
      var ok := WriteBatchMeta(meta);
      if ok {
        r := Applied(meta);
      } else {
        r := TakeBack(written, p.(next := s.next), l);
      }
    }

    /** The answer of a finalise that has failed, after the fail closure. */
    method TakeBack(written: seq<Id>, ghost p: Progress, ghost l: seq<Write>) returns (r: Result)
      requires Valid() && log == l + p.writes && written == p.written && tried == p.next
      modifies this
      ensures var f := FailSteps(p, fails); r == f.result && Valid() && log == l + f.writes && tried == f.next
    {
      var cleanedUp := Fail(written);
      r := NotApplied(cleanedUp);
    }
  }
}
