/** The write-behind inventory cache (internal/gateway/models.go): entries are put in memory
    under one mutex and written to disk by flushes that a second mutex puts in order. */
module InventoryCache {
  import opened GoStrings
  import opened Runs

  type Key = string

  datatype Entry = Entry(at: int, models: seq<string>)

  type Table = map<Key, Entry>

  datatype Put = Put(key: Key, entry: Entry)

  function Replay(base: Table, puts: seq<Put>): Table {
    if puts == [] then base
    else Replay(base, puts[..|puts| - 1])[puts[|puts| - 1].key := puts[|puts| - 1].entry]
  }

  /** A flush: begun is how many puts had happened when it was called. */
  datatype Flusher = Flusher(id: nat, begun: nat)

  /** The flush that holds the write mutex: about to look at dirty, or holding the bytes it
      marshalled (the table after `upTo` puts). */
  datatype Writer = Entered(flusher: Flusher) | Holding(flusher: Flusher, upTo: nat, bytes: Table)

  /** byKey, dirty and disk are the program's; the rest records the run. stored counts the puts
      the disk shows (0 for what the disk held at the start) and snapped those the newest
      marshalled table shows. */
  datatype State = State(
    byKey: Table, dirty: bool, disk: Table, writer: Option<Writer>, waiting: set<Flusher>,
    puts: seq<Put>, base: Table, firstDisk: Table, stored: nat, snapped: nat, lastWriteOk: bool,
    returned: seq<Returned>)

  /** A finished flush and the disk's state when it returned. */
  datatype Returned = Returned(flusher: Flusher, stored: nat, lastWriteOk: bool)

  datatype Event =
    | DoPut(put: Put)
    | CallFlush(id: nat)
    | Enter(flusher: Flusher)
    | Look
    | WriteDisk(ok: bool)

  ghost predicate Enabled(s: State, e: Event) {
    match e
    case DoPut(p) => p.entry.models != []
    case CallFlush(_) => true
    case Enter(f) => s.writer.None? && f in s.waiting
    case Look => s.writer.Some? && s.writer.value.Entered?
    case WriteDisk(_) => s.writer.Some? && s.writer.value.Holding?
  }

  function Finish(s: State, f: Flusher): State {
    s.(writer := None, returned := s.returned + [Returned(f, s.stored, s.lastWriteOk)])
  }

  /** One atomic step: what runs under the cache mutex, or one replacement of the file. */
  function Next(s: State, e: Event): State
    requires Enabled(s, e)
  {
    match e
    case DoPut(p) => s.(byKey := s.byKey[p.key := p.entry], dirty := true, puts := s.puts + [p])
    case CallFlush(id) => s.(waiting := s.waiting + {Flusher(id, |s.puts|)})
    case Enter(f) => s.(writer := Some(Entered(f)), waiting := s.waiting - {f})
    case Look =>
      var f := s.writer.value.flusher;
      if s.dirty then s.(writer := Some(Holding(f, |s.puts|, s.byKey)), dirty := false, snapped := |s.puts|)
      else Finish(s, f)
    case WriteDisk(ok) =>
      var w := s.writer.value;
      if ok then Finish(s.(disk := w.bytes, stored := w.upTo, lastWriteOk := true), w.flusher)
      else Finish(s.(lastWriteOk := false), w.flusher)
  }

  /** A new cache: the disk copy is loaded, or starts empty when it cannot be read. */
  ghost predicate Init(s: State) {
    && s.byKey == s.base && !s.dirty && s.disk == s.firstDisk && s.writer.None? && s.waiting == {}
    && s.puts == [] && s.stored == s.snapped == 0 && s.lastWriteOk && s.returned == []
  }

  ghost predicate Step(s: State, e: Event, t: State) {
    Enabled(s, e) && t == Next(s, e)
  }

  ghost predicate Inv(s: State) {
    && s.stored <= s.snapped <= |s.puts|
    && s.byKey == Replay(s.base, s.puts)
    && s.disk == (if s.stored == 0 then s.firstDisk else Replay(s.base, s.puts[..s.stored]))
    && (s.dirty <==> s.snapped < |s.puts|)
    && (forall f | f in s.waiting :: f.begun <= |s.puts|)
    && (s.writer.Some? ==> s.writer.value.flusher.begun <= |s.puts|)
    && (if s.writer.Some? && s.writer.value.Holding? then
          var w := s.writer.value;
          && w.upTo == s.snapped && w.bytes == Replay(s.base, s.puts[..w.upTo])
          && w.flusher.begun <= w.upTo && s.stored < w.upTo
        else s.lastWriteOk <==> s.stored == s.snapped)
    && (forall r | r in s.returned :: r.lastWriteOk ==> r.flusher.begun <= r.stored)
  }

  /** t comes after s: nothing is forgotten and the disk's put count never goes back. */
  ghost predicate Later(s: State, t: State) {
    && s.base == t.base && s.puts <= t.puts && s.stored <= t.stored && s.returned <= t.returned
    && (t.disk == s.disk || s.stored < t.stored)
  }

  lemma LaterTransitive(s: State, t: State, u: State)
    requires Later(s, t) && Later(t, u)
    ensures Later(s, u)
  {}

  lemma InitInv(s: State)
    requires Init(s)
    ensures Inv(s)
  {}

  lemma StepKeepsInv(s: State, e: Event)
    requires Inv(s) && Enabled(s, e)
    ensures Inv(Next(s, e)) && Later(s, Next(s, e))
  {
    match e
    case DoPut(p) => PutKeepsInv(s, p);
    case Look => LookKeepsInv(s);
    case WriteDisk(ok) => WriteKeepsInv(s, ok);
    case _ =>
  }

  /** The flushes that were called: waiting, at work or returned. */
  ghost predicate Called(s: State, f: Flusher) {
    f in s.waiting || (s.writer.Some? && s.writer.value.flusher == f) || exists r :: r in s.returned && r.flusher == f
  }

  lemma OneMoreReturned(returned: seq<Returned>, last: Returned, f: Flusher)
    ensures (exists r :: r in returned + [last] && r.flusher == f) <==>
              (exists r :: r in returned && r.flusher == f) || last.flusher == f
  {
    assert last in returned + [last];
  }

  /** No call is lost and none comes of itself. */
  lemma CallsStay(s: State, e: Event, f: Flusher)
    requires Enabled(s, e)
    ensures Called(Next(s, e), f) <==> Called(s, f) || (e.CallFlush? && f == Flusher(e.id, |s.puts|))
  {
    match e
    case Look =>
      if !s.dirty {
        OneMoreReturned(s.returned, Returned(s.writer.value.flusher, s.stored, s.lastWriteOk), f);
      }
    case WriteDisk(ok) =>
      var w := s.writer.value;
      OneMoreReturned(s.returned, Returned(w.flusher, if ok then w.upTo else s.stored, ok), f);
    case _ =>
  }

  lemma PutKeepsInv(s: State, p: Put)
    requires Inv(s) && Enabled(s, DoPut(p))
    ensures Inv(Next(s, DoPut(p))) && Later(s, Next(s, DoPut(p)))
  {
    var t := Next(s, DoPut(p));
    assert t.puts[..|s.puts|] == s.puts;
    assert t.puts[..s.stored] == s.puts[..s.stored];
    assert t.puts[..s.snapped] == s.puts[..s.snapped];
  }

  lemma LookKeepsInv(s: State)
    requires Inv(s) && Enabled(s, Look)
    ensures Inv(Next(s, Look)) && Later(s, Next(s, Look))
  {
    assert s.puts[..|s.puts|] == s.puts;
  }

  lemma WriteKeepsInv(s: State, ok: bool)
    requires Inv(s) && Enabled(s, WriteDisk(ok))
    ensures Inv(Next(s, WriteDisk(ok))) && Later(s, Next(s, WriteDisk(ok)))
  {}

  /** Whole runs: the invariant holds at the end, and the disk never went back in put order. */
  lemma {:induction false} RunKeepsInv(s: State, events: seq<Event>, t: State)
    requires Inv(s) && Run(Step, s, events, t)
    ensures Inv(t) && Later(s, t)
    decreases |events|
  {
    if events != [] {
      var s' :| Step(s, events[0], s') && Run(Step, s', events[1..], t);
      StepKeepsInv(s, events[0]);
      RunKeepsInv(s', events[1..], t);
      LaterTransitive(s, s', t);
    }
  }

  /** A table after v puts shows, for the key of an earlier put i, that put or a later one. */
  lemma {:induction false} ShowsPutOrLater(base: Table, puts: seq<Put>, i: nat, v: nat) returns (q: nat)
    requires i < v <= |puts|
    ensures i <= q < v && puts[q].key == puts[i].key
    ensures puts[i].key in Replay(base, puts[..v]) && Replay(base, puts[..v])[puts[i].key] == puts[q].entry
    decreases v
  {
    assert puts[..v][..v - 1] == puts[..v - 1];
    if puts[v - 1].key == puts[i].key {
      q := v - 1;
    } else {
      q := ShowsPutOrLater(base, puts, i, v - 1);
    }
  }

  /** The cache's promise: in every interleaving of puts and flushes whose writes succeed, a
      flush that was called after put i finds, when it has returned, the disk showing that put
      or a later one for its key; this holds too when another flush had cleared dirty. From then
      on, and so in the state t, the disk never loses it. */
  lemma FlushedPutsStay(s: State, events: seq<Event>, t: State, r: Returned, i: nat) returns (q: nat)
    requires Init(s) && Run(Step, s, events, t) && (forall e | e in events :: e.WriteDisk? ==> e.ok)
    requires r in t.returned && i < r.flusher.begun && i < |t.puts|
    ensures i <= q < t.stored <= |t.puts| && t.puts[q].key == t.puts[i].key
    ensures t.puts[i].key in t.disk && t.disk[t.puts[i].key] == t.puts[q].entry
    ensures i < r.stored <= t.stored
  {
    InitInv(s);
    RunKeepsInv(s, events, t);
    GoodWritesStayGood(s, events, t);
    q := ShowsPutOrLater(t.base, t.puts, i, t.stored);
  }

  lemma {:induction false} GoodWritesStayGood(s: State, events: seq<Event>, t: State)
    requires Inv(s) && Run(Step, s, events, t) && s.lastWriteOk && (forall e | e in events :: e.WriteDisk? ==> e.ok)
    requires forall r | r in s.returned :: r.lastWriteOk && r.stored <= s.stored
    ensures t.lastWriteOk && forall r | r in t.returned :: r.lastWriteOk && r.stored <= t.stored
    decreases |events|
  {
    if events != [] {
      assert events[0] in events;
      var mid :| Step(s, events[0], mid) && Run(Step, mid, events[1..], t);
      StepKeepsInv(s, events[0]);
      GoodStep(s, events[0]);
      GoodWritesStayGood(mid, events[1..], t);
    }
  }

  lemma GoodStep(s: State, e: Event)
    requires Inv(s) && Enabled(s, e) && s.lastWriteOk && (e.WriteDisk? ==> e.ok)
    requires forall r | r in s.returned :: r.lastWriteOk && r.stored <= s.stored
    ensures var t := Next(s, e); t.lastWriteOk && forall r | r in t.returned :: r.lastWriteOk && r.stored <= t.stored
  {}

  /** With failing writes the promise is lost, and exactly then: between flushes the disk shows
      everything ever marshalled if and only if the last write succeeded. A failed write clears
      dirty all the same, so no later flush repairs it until the next put. */
  lemma DiskCurrentIffLastWriteOk(s: State, events: seq<Event>, t: State)
    requires Init(s) && Run(Step, s, events, t) && t.writer.None?
    ensures t.stored == t.snapped <==> t.lastWriteOk
    ensures !t.dirty ==> (t.stored == |t.puts| <==> t.lastWriteOk)
  {
    InitInv(s);
    RunKeepsInv(s, events, t);
  }

  /** One failed write, and a later flush returns with the put still missing from the disk. */
  lemma FailedWriteLosesPut(s: State, p: Put) returns (events: seq<Event>, t: State)
    requires Init(s) && p.entry.models != [] && s.disk == s.base && p.key !in s.base
    ensures Run(Step, s, events, t)
    ensures t.returned == s.returned + [Returned(Flusher(0, 1), 0, false), Returned(Flusher(1, 1), 0, false)]
    ensures p.key in t.byKey && p.key !in t.disk && !t.dirty
  {
    var f, g := Flusher(0, 1), Flusher(1, 1);
    var s1 := Next(s, DoPut(p));
    var s2 := Next(s1, CallFlush(0));
    var s3 := Next(s2, Enter(f));
    var s4 := Next(s3, Look);
    var s5 := Next(s4, WriteDisk(false));
    var s6 := Next(s5, CallFlush(1));
    var s7 := Next(s6, Enter(g));
    t := Next(s7, Look);
    Before(Step, s7, Look, t, [], t);
    Before(Step, s6, Enter(g), s7, [Look], t);
    Before(Step, s5, CallFlush(1), s6, [Enter(g)] + [Look], t);
    var late := [CallFlush(1)] + ([Enter(g)] + [Look]);
    Before(Step, s4, WriteDisk(false), s5, late, t);
    Before(Step, s3, Look, s4, [WriteDisk(false)] + late, t);
    Before(Step, s2, Enter(f), s3, [Look] + ([WriteDisk(false)] + late), t);
    Before(Step, s1, CallFlush(0), s2, [Enter(f)] + ([Look] + ([WriteDisk(false)] + late)), t);
    events := [CallFlush(0)] + ([Enter(f)] + ([Look] + ([WriteDisk(false)] + late)));
    Before(Step, s, DoPut(p), s1, events, t);
    events := [DoPut(p)] + events;
  }

  // ----- the cache itself -----

  /** One process's cache and its file. Each method is one section the source runs under a
      mutex, or the whole of an uninterrupted flush. */
  class Cache {
    var byKey: Table
    var dirty: bool
    var ttl: int
    var disk: Table

    /** newModelsInventoryCache; loaded is what the disk copy decodes to. */
    constructor (ttl: int, disk: Table, loaded: Table)
      ensures byKey == loaded && !dirty && this.ttl == ttl && this.disk == disk
    {
      byKey, dirty, this.ttl, this.disk := loaded, false, ttl, disk;
    }

    /** put; an empty inventory is not remembered. */
    method DoPut(key: Key, models: seq<string>, now: int)
      modifies this`byKey, this`dirty
      ensures models == [] ==> byKey == old(byKey) && dirty == old(dirty)
      ensures models != [] ==> byKey == old(byKey)[key := Entry(now, models)] && dirty
    {
      if |models| == 0 {
        return;
      }
      byKey := byKey[key := Entry(now, models)];
      dirty := true;
    }

    /** get: a remembered inventory that has not expired. */
    method Get(key: Key, now: int) returns (found: Option<seq<string>>)
      ensures found.Some? <==> key in byKey && byKey[key].models != [] && now - byKey[key].at <= ttl
      ensures found.Some? ==> found.value == byKey[key].models
    {
      if key !in byKey || |byKey[key].models| == 0 {
        return None;
      }
      if now - byKey[key].at > ttl {
        return None;
      }
      found := Some(byKey[key].models);
    }

    /** The section of flush under the cache mutex: the bytes to write, if any. */
    method Snapshot() returns (bytes: Option<Table>)
      modifies this`dirty
      ensures bytes == (if old(dirty) then Some(byKey) else None) && !dirty
    {
      if !dirty {
        return None;
      }
      bytes := Some(byKey);
      dirty := false;
    }

    /** flush with nothing in between: the machine's steps Enter, Look and WriteDisk in turn. */
    method Flush(writeOk: bool, ghost f: Flusher, ghost s: State) returns (ghost t: State)
      requires s.byKey == byKey && s.dirty == dirty && s.disk == disk
      requires s.writer.None? && f in s.waiting
      modifies this`dirty, this`disk
      ensures t.byKey == byKey && t.dirty == dirty && t.disk == disk && t.writer.None?
      ensures Run(Step, s, [Enter(f), Look] + (if old(dirty) then [WriteDisk(writeOk)] else []), t)
      ensures disk == (if old(dirty) && writeOk then byKey else old(disk)) && !dirty
    {
      ghost var s1 := Next(s, Enter(f));
      ghost var s2 := Next(s1, Look);
      var bytes := Snapshot();
      if bytes.Some? {
        if writeOk {
          disk := bytes.value;
        }
        t := Next(s2, WriteDisk(writeOk));
        Before(Step, s2, WriteDisk(writeOk), t, [], t);
        Before(Step, s1, Look, s2, [WriteDisk(writeOk)], t);
        Before(Step, s, Enter(f), s1, [Look] + [WriteDisk(writeOk)], t);
        assert [Enter(f)] + ([Look] + [WriteDisk(writeOk)]) == [Enter(f), Look] + [WriteDisk(writeOk)];
      } else {
        t := s2;
        Before(Step, s1, Look, t, [], t);
        Before(Step, s, Enter(f), s1, [Look], t);
        assert [Enter(f)] + [Look] == [Enter(f), Look] + [];
      }
    }
  }
}
