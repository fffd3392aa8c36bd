/** Processes sharing one key file: writers in turn under the file lock, readers through each
    process's cache at any time, and processes that die. */
module KeyMachine {
  import opened GoStrings
  import opened KeyStore
  import opened KeyLedger
  import opened Runs

  type Proc = nat

  function Book(m: Ledger, e: Entry): Ledger {
    match e
    case Issue(name, c) => m[name := c]
    case Remove(name) => m - {name}
    case Rehash => m
  }

  function BookAll(m: Ledger, log: seq<Entry>): Ledger {
    if log == [] then m else Book(BookAll(m, log[..|log| - 1]), log[|log| - 1])
  }

  /** The file as one rename left it. Its tag is all a stat can tell: identity, mtime and size. The
      new file is written beside the old one before it takes its place, so the two never share an
      identity, nor a tag; the one before the old one is gone by then, and its tag can come back. */
  datatype Version = Version(tag: nat, file: Option<KeyFile>)

  function KeysIn(v: Version): KeyFile {
    if v.file.Some? then v.file.value else []
  }

  /** The writer that holds the file lock: with the change it is to make, or none, or after the
      rename, or after dropping its cache. */
  datatype Phase = Ready(change: Option<Change>) | Renamed | Dropped

  datatype Holder = Holder(proc: Proc, phase: Phase)

  /** A process's cache; at says which version its file was read from. */
  datatype CacheLine = CacheLine(tag: nat, file: KeyFile, at: nat)

  /** An Authorize call that has seen version `began` in its stat. */
  datatype Call = Call(proc: Proc, token: string, began: nat)

  /** A finished one: the newest version when it read, the version it was answered from, and the
      newest its own process had completely written before. */
  datatype Answer = Answer(call: Call, ended: nat, at: nat, own: nat, verdict: Verdict)

  /** An upgrade a call has asked for: it matched this hash with this secret. */
  datatype Pending = Pending(id: string, legacy: Hash, secret: string)

  /** hist holds every version of the file, the last being the one on disk; log the change that
      made each but the first; own what each process has completely written. */
  datatype State = State(
    hist: seq<Version>, log: seq<Entry>, base: Ledger, holder: Option<Holder>, caches: map<Proc, CacheLine>,
    own: map<Proc, nat>, calls: map<nat, Call>, pending: set<Pending>, answers: seq<Answer>)

  datatype Event =
    | Acquire(proc: Proc, op: Op)
    | Rename(tag: nat)
    | WriteFails
    | DropCache
    | Release
    | Crash(proc: Proc)
    | Stat(id: nat, proc: Proc, token: string)
    | Lookup(id: nat)
    | ReadFails(id: nat)

  function Newest(s: State): Version
    requires s.hist != []
  {
    s.hist[|s.hist| - 1]
  }

  /** New ids are new; an upgrade has been asked for. */
  predicate Admissible(s: State, op: Op)
    requires s.hist != []
  {
    match op
    case Generate(_, random, _) => random.Some? ==> forall r | r in KeysIn(Newest(s)) :: r.id != random.value.id
    case Upgrade(id, legacy, secret) => Pending(id, legacy, secret) in s.pending
    case _ => true
  }

  predicate Enabled(s: State, e: Event) {
    s.hist != [] &&
    match e
    case Acquire(_, op) => s.holder.None? && Admissible(s, op)
    case Rename(tag) =>
      && s.holder.Some? && s.holder.value.phase.Ready? && s.holder.value.phase.change.Some?
      && (Newest(s).file.Some? ==> tag != Newest(s).tag)
    case WriteFails => s.holder.Some? && s.holder.value.phase.Ready? && s.holder.value.phase.change.Some?
    case DropCache => s.holder.Some? && s.holder.value.phase.Renamed?
    case Release =>
      && s.holder.Some?
      && (s.holder.value.phase.Dropped? || (s.holder.value.phase.Ready? && s.holder.value.phase.change.None?))
    case Crash(_) => true
    case Stat(id, _, _) => id !in s.calls
    case Lookup(id) => id in s.calls && s.calls[id].began < |s.hist|
    case ReadFails(id) => id in s.calls
  }

  function OwnOf(own: map<Proc, nat>, p: Proc): nat {
    if p in own then own[p] else 0
  }

  /** The answer, and with it the upgrade it asks for. */
  function Answered(s: State, a: Answer): State {
    s.(answers := s.answers + [a],
       pending := s.pending + if a.verdict.Granted? && a.verdict.rec.hash.Argon?
                              then {Pending(a.verdict.rec.id, a.verdict.rec.hash, a.verdict.rec.hash.secret)} else {})
  }

  /** What the mutex section of readCached finds: the cached line when its tag is the one the
      call's stat saw, and the disk's otherwise. */
  function LineFor(s: State, c: Call): CacheLine
    requires s.hist != [] && c.began < |s.hist|
  {
    var tag := s.hist[c.began].tag;
    if c.proc in s.caches && s.caches[c.proc].tag == tag then s.caches[c.proc]
    else CacheLine(tag, KeysIn(Newest(s)), |s.hist| - 1)
  }

  ghost predicate Step(s: State, e: Event, t: State) {
    Enabled(s, e) && t == Next(s, e)
  }

  function Next(s: State, e: Event): State
    requires Enabled(s, e)
  {
    match e
    case Acquire(p, op) => s.(holder := Some(Holder(p, Ready(ChangeOf(KeysIn(Newest(s)), op)))))
    case Rename(tag) =>
      var h := s.holder.value;
      s.(hist := s.hist + [Version(tag, Some(h.phase.change.value.file))],
         log := s.log + [h.phase.change.value.entry],
         holder := Some(h.(phase := Renamed)))
    case WriteFails => s.(holder := None)
    case DropCache =>
      var h := s.holder.value;
      s.(caches := s.caches - {h.proc}, own := s.own[h.proc := |s.hist| - 1], holder := Some(h.(phase := Dropped)))
    case Release => s.(holder := None)
    case Crash(p) =>
      s.(holder := if s.holder.Some? && s.holder.value.proc == p then None else s.holder,
         caches := s.caches - {p},
         calls := map id | id in s.calls && s.calls[id].proc != p :: s.calls[id])
    case Stat(id, p, token) =>
      var c := Call(p, token, |s.hist| - 1);
      if Newest(s).file.None? then
        Answered(s, Answer(c, |s.hist| - 1, |s.hist| - 1, OwnOf(s.own, p), VerdictOf([], token)))
      else s.(calls := s.calls[id := c])
    case Lookup(id) =>
      var c := s.calls[id];
      var line := LineFor(s, c);
      Answered(s.(caches := s.caches[c.proc := line], calls := s.calls - {id}),
               Answer(c, |s.hist| - 1, line.at, OwnOf(s.own, c.proc), VerdictOf(line.file, c.token)))
    case ReadFails(id) => s.(calls := s.calls - {id})
  }

  ghost predicate Init(s: State) {
    && |s.hist| == 1 && WellKept(KeysIn(s.hist[0])) && Says(KeysIn(s.hist[0]), s.base)
    && s.log == [] && s.holder.None? && s.caches == map[] && s.own == map[]
    && s.calls == map[] && s.pending == {} && s.answers == []
  }

  // ----- the invariant -----

  /** A version is well kept and says what the ledger says after these changes. */
  ghost predicate Agrees(v: Version, base: Ledger, log: seq<Entry>) {
    WellKept(KeysIn(v)) && Says(KeysIn(v), BookAll(base, log))
  }

  /** All of them do, and only the first may be a missing file. */
  ghost predicate Booked(hist: seq<Version>, base: Ledger, log: seq<Entry>) {
    && |hist| == |log| + 1
    && (forall i | 0 < i < |hist| :: hist[i].file.Some?)
    && forall i | 0 <= i < |hist| :: Agrees(hist[i], base, log[..i])
  }

  /** The change the holder of the lock is to make is one the ledger can book. */
  ghost predicate HolderInv(base: Ledger, log: seq<Entry>, holder: Option<Holder>) {
    holder.Some? && holder.value.phase.Ready? && holder.value.phase.change.Some? ==>
      var c := holder.value.phase.change.value;
      WellKept(c.file) && Says(c.file, Book(BookAll(base, log), c.entry))
  }

  /** A stat of version v saw this tag. */
  predicate SeenAs(hist: seq<Version>, v: int, tag: nat) {
    0 <= v < |hist| && hist[v].file.Some? && hist[v].tag == tag
  }

  /** A line's file is that of the version it was read from, which was read no earlier than its
      tag was seen and no earlier than the process's own last write. */
  ghost predicate LineInv(hist: seq<Version>, line: CacheLine, own: nat) {
    && own <= line.at < |hist| && line.file == KeysIn(hist[line.at])
    && exists v :: SeenAs(hist, v, line.tag) && v <= line.at
  }

  /** A call is answered with a version from its own time, or with an older one that a stat
      cannot tell from the one it saw. */
  ghost predicate AnswerInv(hist: seq<Version>, a: Answer) {
    && a.call.began <= a.ended < |hist| && a.own <= a.at <= a.ended
    && a.verdict == VerdictOf(KeysIn(hist[a.at]), a.call.token)
    && (a.at < a.call.began ==> exists v :: SeenAs(hist, v, hist[a.call.began].tag) && v <= a.at)
  }

  predicate PendingInv(p: Pending) {
    p.legacy.Argon? && p.legacy.secret == p.secret
  }

  ghost predicate CachesInv(hist: seq<Version>, caches: map<Proc, CacheLine>, own: map<Proc, nat>) {
    && (forall p | p in own :: own[p] < |hist|)
    && (forall p | p in caches :: LineInv(hist, caches[p], OwnOf(own, p)))
  }

  ghost predicate CallsInv(hist: seq<Version>, calls: map<nat, Call>) {
    forall id | id in calls :: calls[id].began < |hist| && hist[calls[id].began].file.Some?
  }

  /** A new version's tag differs from that of the version it replaces. */
  predicate TagsTurn(hist: seq<Version>) {
    forall i, j | 0 <= i < |hist| && j == i + 1 < |hist| && hist[i].file.Some? :: hist[i].tag != hist[j].tag
  }

  ghost predicate AnswersInv(hist: seq<Version>, answers: seq<Answer>) {
    forall a | a in answers :: AnswerInv(hist, a)
  }

  ghost predicate Inv(s: State) {
    && Booked(s.hist, s.base, s.log) && TagsTurn(s.hist)
    && HolderInv(s.base, s.log, s.holder)
    && CachesInv(s.hist, s.caches, s.own)
    && CallsInv(s.hist, s.calls)
    && (forall p | p in s.pending :: PendingInv(p))
    && AnswersInv(s.hist, s.answers)
  }

  ghost predicate Later(s: State, t: State) {
    s.base == t.base && s.hist <= t.hist && s.log <= t.log && s.answers <= t.answers
  }

  lemma ChangeIsBooked(file: KeyFile, m: Ledger, op: Op)
    requires WellKept(file) && Says(file, m) && ChangeOf(file, op).Some?
    requires op.Generate? && op.random.Some? ==> forall r | r in file :: r.id != op.random.value.id
    requires op.Upgrade? ==> PendingInv(Pending(op.id, op.legacy, op.secret))
    ensures var c := ChangeOf(file, op).value; WellKept(c.file) && Says(c.file, Book(m, c.entry))
  {
    match op {
      case Generate(rawName, random, now) =>
        GenerateSays(file, m, random.value.id, TrimSpace(rawName), random.value.secret, now);
      case Rotate(rawName, newSecret, now) => RotateSays(file, m, TrimSpace(rawName), newSecret.value, now);
      case Delete(rawName) => DeleteSays(file, m, TrimSpace(rawName));
      case Upgrade(id, legacy, secret) => UpgradeSays(file, m, id, legacy, secret);
    }
  }

  lemma AcquireKeepsInv(s: State, p: Proc, op: Op)
    requires Inv(s) && Enabled(s, Acquire(p, op))
    ensures Inv(Next(s, Acquire(p, op)))
  {
    if ChangeOf(KeysIn(Newest(s)), op).Some? {
      ChangeNow(s, op);
    }
  }

  /** The change a writer is about to make of the newest version. */
  lemma ChangeNow(s: State, op: Op)
    requires Booked(s.hist, s.base, s.log) && (forall p | p in s.pending :: PendingInv(p))
    requires Admissible(s, op) && ChangeOf(KeysIn(Newest(s)), op).Some?
    ensures var c := ChangeOf(KeysIn(Newest(s)), op).value;
      WellKept(c.file) && Says(c.file, Book(BookAll(s.base, s.log), c.entry))
  {
    assert s.log[..|s.log|] == s.log;
    assert Agrees(Newest(s), s.base, s.log);
    ChangeIsBooked(KeysIn(Newest(s)), BookAll(s.base, s.log), op);
  }

  /** What was true of the versions so far stays true when there is one more. */
  lemma LineOutlives(hist: seq<Version>, v: Version, line: CacheLine, own: nat)
    requires LineInv(hist, line, own)
    ensures LineInv(hist + [v], line, own)
  {
    var w :| SeenAs(hist, w, line.tag) && w <= line.at;
    assert SeenAs(hist + [v], w, line.tag);
  }

  lemma AnswerOutlives(hist: seq<Version>, v: Version, a: Answer)
    requires AnswerInv(hist, a)
    ensures AnswerInv(hist + [v], a)
  {
    var more := hist + [v];
    assert more[a.at] == hist[a.at] && more[a.call.began] == hist[a.call.began];
    if a.at < a.call.began {
      var w :| SeenAs(hist, w, hist[a.call.began].tag) && w <= a.at;
      assert SeenAs(more, w, more[a.call.began].tag);
    }
  }

  lemma MoreHistory(hist: seq<Version>, v: Version, caches: map<Proc, CacheLine>, own: map<Proc, nat>,
                    calls: map<nat, Call>, answers: seq<Answer>)
    requires CachesInv(hist, caches, own) && CallsInv(hist, calls) && AnswersInv(hist, answers)
    ensures CachesInv(hist + [v], caches, own) && CallsInv(hist + [v], calls) && AnswersInv(hist + [v], answers)
  {
    forall p | p in caches ensures LineInv(hist + [v], caches[p], OwnOf(own, p)) {
      LineOutlives(hist, v, caches[p], OwnOf(own, p));
    }
    forall a | a in answers ensures AnswerInv(hist + [v], a) {
      AnswerOutlives(hist, v, a);
    }
  }

  lemma TagsStillTurn(hist: seq<Version>, v: Version)
    requires TagsTurn(hist) && hist != []
    requires hist[|hist| - 1].file.Some? ==> v.tag != hist[|hist| - 1].tag
    ensures TagsTurn(hist + [v])
  {}

  lemma BookSnoc(base: Ledger, log: seq<Entry>, e: Entry)
    ensures BookAll(base, log + [e]) == Book(BookAll(base, log), e)
  {
    assert (log + [e])[..|log|] == log;
  }

  lemma MoreBooked(hist: seq<Version>, base: Ledger, log: seq<Entry>, v: Version, e: Entry)
    requires Booked(hist, base, log) && v.file.Some? && Agrees(v, base, log + [e])
    ensures Booked(hist + [v], base, log + [e])
  {
    var hist', log' := hist + [v], log + [e];
    assert log'[..|log'|] == log';
    forall i | 0 <= i < |hist'| ensures Agrees(hist'[i], base, log'[..i]) {
      if i < |hist| {
        assert hist'[i] == hist[i] && log'[..i] == log[..i];
        assert Agrees(hist[i], base, log[..i]);
      }
    }
  }

  lemma ChangeAgrees(base: Ledger, log: seq<Entry>, c: Change, tag: nat)
    requires WellKept(c.file) && Says(c.file, Book(BookAll(base, log), c.entry))
    ensures Agrees(Version(tag, Some(c.file)), base, log + [c.entry])
  {
    BookSnoc(base, log, c.entry);
  }

  lemma RenameBooks(hist: seq<Version>, base: Ledger, log: seq<Entry>, c: Change, tag: nat)
    requires Booked(hist, base, log) && WellKept(c.file) && Says(c.file, Book(BookAll(base, log), c.entry))
    ensures Booked(hist + [Version(tag, Some(c.file))], base, log + [c.entry])
  {
    ChangeAgrees(base, log, c, tag);
    MoreBooked(hist, base, log, Version(tag, Some(c.file)), c.entry);
  }

  lemma RenameOutlives(s: State, tag: nat)
    requires Inv(s) && Enabled(s, Rename(tag))
    ensures var t := Next(s, Rename(tag));
      CachesInv(t.hist, t.caches, t.own) && CallsInv(t.hist, t.calls) && AnswersInv(t.hist, t.answers)
  {
    var v := Version(tag, Some(s.holder.value.phase.change.value.file));
    MoreHistory(s.hist, v, s.caches, s.own, s.calls, s.answers);
  }

  lemma RenameKeepsInv(s: State, tag: nat)
    requires Inv(s) && Enabled(s, Rename(tag))
    ensures Inv(Next(s, Rename(tag)))
  {
    var c := s.holder.value.phase.change.value;
    RenameBooks(s.hist, s.base, s.log, c, tag);
    TagsStillTurn(s.hist, Version(tag, Some(c.file)));
    RenameOutlives(s, tag);
  }

  lemma DropKeepsInv(s: State)
    requires Inv(s) && Enabled(s, DropCache)
    ensures Inv(Next(s, DropCache))
  {
    DropCaches(s.hist, s.caches, s.own, s.holder.value.proc);
  }

  /** Without its cache a process may count the newest version as its own. */
  lemma DropCaches(hist: seq<Version>, caches: map<Proc, CacheLine>, own: map<Proc, nat>, p: Proc)
    requires hist != [] && CachesInv(hist, caches, own)
    ensures CachesInv(hist, caches - {p}, own[p := |hist| - 1])
  {
    forall q | q in caches - {p} ensures LineInv(hist, caches[q], OwnOf(own[p := |hist| - 1], q)) {
      assert LineInv(hist, caches[q], OwnOf(own, q));
    }
  }

  lemma CrashKeepsInv(s: State, p: Proc)
    requires Inv(s) && Enabled(s, Crash(p))
    ensures Inv(Next(s, Crash(p)))
  {}

  /** An answer that is right may be given. */
  lemma AnsweredKeepsInv(s: State, a: Answer)
    requires Inv(s) && AnswerInv(s.hist, a)
    ensures Inv(Answered(s, a))
  {
    VerdictIsPending(KeysIn(s.hist[a.at]), a.call.token);
  }

  lemma VerdictIsPending(file: KeyFile, token: string)
    ensures var v := VerdictOf(file, token);
      v.Granted? && v.rec.hash.Argon? ==> PendingInv(Pending(v.rec.id, v.rec.hash, v.rec.hash.secret))
  {}

  lemma StatKeepsInv(s: State, id: nat, p: Proc, token: string)
    requires Inv(s) && Enabled(s, Stat(id, p, token))
    ensures Inv(Next(s, Stat(id, p, token)))
  {
    if Newest(s).file.None? {
      var n := |s.hist| - 1;
      AnsweredKeepsInv(s, Answer(Call(p, token, n), n, n, OwnOf(s.own, p), VerdictOf([], token)));
    }
  }

  lemma LineForIsGood(s: State, c: Call)
    requires CachesInv(s.hist, s.caches, s.own) && c.began < |s.hist| && s.hist[c.began].file.Some?
    ensures LineInv(s.hist, LineFor(s, c), OwnOf(s.own, c.proc)) && LineFor(s, c).tag == s.hist[c.began].tag
  {
    var line := LineFor(s, c);
    if !(c.proc in s.caches && s.caches[c.proc].tag == s.hist[c.began].tag) {
      assert SeenAs(s.hist, c.began, line.tag);
    }
  }

  /** Caching a good line and ending the call. */
  lemma CachedKeepsInv(s: State, id: nat, p: Proc, line: CacheLine)
    requires Inv(s) && LineInv(s.hist, line, OwnOf(s.own, p))
    ensures Inv(s.(caches := s.caches[p := line], calls := s.calls - {id}))
  {}

  lemma LookupKeepsInv(s: State, id: nat)
    requires Inv(s) && Enabled(s, Lookup(id))
    ensures Inv(Next(s, Lookup(id)))
  {
    var c := s.calls[id];
    var line := LineFor(s, c);
    LineForIsGood(s, c);
    CachedKeepsInv(s, id, c.proc, line);
    AnsweredKeepsInv(s.(caches := s.caches[c.proc := line], calls := s.calls - {id}),
                     Answer(c, |s.hist| - 1, line.at, OwnOf(s.own, c.proc), VerdictOf(line.file, c.token)));
  }

  lemma StepIsLater(s: State, e: Event)
    requires Enabled(s, e)
    ensures Later(s, Next(s, e))
  {}

  lemma StepKeepsInv(s: State, e: Event)
    requires Inv(s) && Enabled(s, e)
    ensures Inv(Next(s, e))
  {
    match e {
      case Acquire(p, op) => AcquireKeepsInv(s, p, op);
      case Rename(tag) => RenameKeepsInv(s, tag);
      case WriteFails =>
      case DropCache => DropKeepsInv(s);
      case Release =>
      case Crash(p) => CrashKeepsInv(s, p);
      case Stat(id, p, token) => StatKeepsInv(s, id, p, token);
      case Lookup(id) => LookupKeepsInv(s, id);
      case ReadFails(id) =>
    }
  }

  lemma {:induction false} RunKeepsInv(s: State, events: seq<Event>, t: State)
    requires Inv(s) && Run(Step, s, events, t)
    ensures Inv(t) && Later(s, t)
    decreases |events|
  {
    if events != [] {
      var mid :| Step(s, events[0], mid) && Run(Step, mid, events[1..], t);
      StepKeepsInv(s, events[0]);
      StepIsLater(s, events[0]);
      RunKeepsInv(mid, events[1..], t);
    }
  }

  lemma InitInv(s: State)
    requires Init(s)
    ensures Inv(s)
  {}

  // ----- what the store promises -----

  /** The credentials issued last, at version i. */
  function LedgerAt(s: State, i: nat): Ledger
    requires i <= |s.log|
  {
    BookAll(s.base, s.log[..i])
  }

  predicate IssuedAt(s: State, i: nat, token: string)
    requires i <= |s.log|
  {
    exists n :: n in LedgerAt(s, i) && ParseToken(token) == Some(LedgerAt(s, i)[n])
  }

  /** In every interleaving, at every version of the file: a token is accepted exactly when it is
      the last one issued for a name that is still there, names and ids are unique, and there
      are at most as many keys as are allowed. */
  lemma FileIsTheLedger(s: State, events: seq<Event>, t: State, i: nat, token: string)
    requires Init(s) && Run(Step, s, events, t) && i < |t.hist|
    ensures i <= |t.log| && WellKept(KeysIn(t.hist[i])) && |KeysIn(t.hist[i])| <= 32
    ensures Verified(KeysIn(t.hist[i]), token).Some? <==> IssuedAt(t, i, token)
  {
    InitInv(s);
    RunKeepsInv(s, events, t);
    AcceptedIffInLedger(KeysIn(t.hist[i]), LedgerAt(t, i), token);
  }

  /** A stat sees both and cannot tell them apart. */
  predicate OneTag(v: Version, w: Version) {
    v.file.Some? && w.file.Some? && v.tag == w.tag
  }

  predicate TagsTellApart(hist: seq<Version>) {
    forall i, j {:trigger hist[i], hist[j]} | 0 <= i < j < |hist| :: !OneTag(hist[i], hist[j])
  }

  /** Each call is answered as the file would have answered at some moment between its stat and
      its return, even when the line it was served was newer than its tag: it is granted exactly
      when the token was issued then. */
  lemma AnswersAreOfTheirTime(s: State, events: seq<Event>, t: State, a: Answer)
    requires Init(s) && Run(Step, s, events, t) && TagsTellApart(t.hist) && a in t.answers
    ensures a.call.began <= a.at <= a.ended < |t.hist| == |t.log| + 1
    ensures a.verdict == VerdictOf(KeysIn(t.hist[a.at]), a.call.token)
    ensures a.verdict.Granted? <==> KeysIn(t.hist[a.at]) != [] && IssuedAt(t, a.at, a.call.token)
    ensures a.verdict.Unlocked? <==> KeysIn(t.hist[a.at]) == []
  {
    InitInv(s);
    RunKeepsInv(s, events, t);
    FileIsTheLedger(s, events, t, a.at, a.call.token);
  }

  /** So calls that do not overlap never go back: a later one is answered from the same version
      or a newer one, in whichever process. */
  lemma AnswersNeverGoBack(s: State, events: seq<Event>, t: State, a: Answer, b: Answer)
    requires Init(s) && Run(Step, s, events, t) && TagsTellApart(t.hist) && a in t.answers && b in t.answers
    requires a.ended <= b.call.began
    ensures a.at <= b.at
  {
    AnswersAreOfTheirTime(s, events, t, a);
    AnswersAreOfTheirTime(s, events, t, b);
  }

  /** With tags of any kind, coarse or reused, a process is never served anything older than what
      it has itself written; and an answer older than its call means that a tag the process had
      seen came back, at least two versions later. */
  lemma OwnWritesAreSeen(s: State, events: seq<Event>, t: State, a: Answer)
    requires Init(s) && Run(Step, s, events, t) && a in t.answers
    ensures a.call.began <= a.ended < |t.hist| && a.own <= a.at <= a.ended
    ensures a.verdict == VerdictOf(KeysIn(t.hist[a.at]), a.call.token)
    ensures a.at < a.call.began ==>
              exists v :: SeenAs(t.hist, v, t.hist[a.call.began].tag) && v <= a.at && v + 2 <= a.call.began
  {
    InitInv(s);
    RunKeepsInv(s, events, t);
    if a.at < a.call.began {
      var v :| SeenAs(t.hist, v, t.hist[a.call.began].tag) && v <= a.at;
      assert v + 1 != a.call.began;
    }
  }
}
