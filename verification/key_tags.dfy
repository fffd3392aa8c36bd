/** When a stat cannot tell two versions of the key file apart: exactly which histories of the file
    can be answered from too late. */
module KeyTags {
  import opened GoStrings
  import opened KeyStore
  import opened KeyLedger
  import opened KeyMachine
  import opened Runs

  function At<T>(m: map<nat, T>, k: nat): Option<T> {
    if k in m then Some(m[k]) else None
  }

  ghost predicate SameBut<T>(m: map<nat, T>, n: map<nat, T>, k: nat) {
    forall i: nat | i != k :: (i in m <==> i in n) && (i in m ==> m[i] == n[i])
  }

  // ----- a process nobody mentions -----

  /** Neither a process nor a call of this number takes part in the event. */
  predicate Apart(e: Event, q: nat) {
    match e
    case Acquire(p, _) => p != q
    case Crash(p) => p != q
    case Stat(id, p, _) => id != q && p != q
    case _ => true
  }

  ghost predicate AllApart(events: seq<Event>, q: nat) {
    forall e | e in events :: Apart(e, q)
  }

  lemma {:induction false} FreshNumber(events: seq<Event>) returns (q: nat)
    ensures forall k: nat | k >= q :: AllApart(events, k)
  {
    if events == [] {
      q := 0;
    } else {
      var last := events[|events| - 1];
      q := FreshNumber(events[..|events| - 1]);
      q := q + match last
               case Acquire(p, _) => p + 1
               case Crash(p) => p + 1
               case Stat(id, p, _) => id + p + 1
               case _ => 0;
      forall k: nat | k >= q ensures AllApart(events, k) {
        assert AllApart(events[..|events| - 1], k) && Apart(last, k);
        assert events == events[..|events| - 1] + [last];
      }
    }
  }

  /** Process q holds no lock and has no call under way. */
  ghost predicate Absent(u: State, q: nat) {
    && (u.holder.Some? ==> u.holder.value.proc != q) && q !in u.calls
    && forall id | id in u.calls :: u.calls[id].proc != q
  }

  /** State w is u with one more process q in it: they differ in q's cache line and call, in the
      upgrades asked for and in the answers. */
  ghost predicate Beside(u: State, w: State, q: nat) {
    && w.hist == u.hist && w.log == u.log && w.holder == u.holder && w.base == u.base
    && SameBut(u.caches, w.caches, q) && SameBut(u.calls, w.calls, q)
    && (q in w.calls ==> w.calls[q].proc == q) && u.pending <= w.pending
  }

  ghost predicate Alongside(u: State, w: State, q: nat, call: Option<Call>, line: Option<CacheLine>) {
    Absent(u, q) && Beside(u, w, q) && At(w.calls, q) == call && At(w.caches, q) == line
  }

  /** What a writer does. */
  lemma WriterFollows(u: State, e: Event, w: State, q: nat, call: Option<Call>, line: Option<CacheLine>)
    requires Enabled(u, e) && Alongside(u, w, q, call, line) && Apart(e, q)
    requires !e.Stat? && !e.Lookup? && !e.ReadFails? && !e.Crash?
    ensures Enabled(w, e) && Alongside(Next(u, e), Next(w, e), q, call, line)
  {}

  lemma CrashFollows(u: State, p: Proc, w: State, q: nat, call: Option<Call>, line: Option<CacheLine>)
    requires Alongside(u, w, q, call, line) && p != q && u.hist != []
    ensures Alongside(Next(u, Crash(p)), Next(w, Crash(p)), q, call, line)
  {}

  /** Both give an answer with the same verdict. */
  lemma AnswerFollows(u: State, a: Answer, w: State, b: Answer, q: nat, call: Option<Call>, line: Option<CacheLine>)
    requires Alongside(u, w, q, call, line) && a.verdict == b.verdict
    ensures Alongside(Answered(u, a), Answered(w, b), q, call, line)
  {}

  lemma StatFollows(u: State, id: nat, p: Proc, token: string, w: State, q: nat, call: Option<Call>,
                    line: Option<CacheLine>)
    requires Enabled(u, Stat(id, p, token)) && Alongside(u, w, q, call, line) && id != q && p != q
    ensures var e := Stat(id, p, token); Enabled(w, e) && Alongside(Next(u, e), Next(w, e), q, call, line)
  {
    if Newest(u).file.None? {
      var n := |u.hist| - 1;
      AnswerFollows(u, Answer(Call(p, token, n), n, n, OwnOf(u.own, p), VerdictOf([], token)),
                    w, Answer(Call(p, token, n), n, n, OwnOf(w.own, p), VerdictOf([], token)), q, call, line);
    }
  }

  lemma LineFollows(u: State, id: nat, w: State, q: nat, call: Option<Call>, line: Option<CacheLine>)
    requires Enabled(u, Lookup(id)) && Alongside(u, w, q, call, line)
    ensures Enabled(w, Lookup(id)) && w.calls[id] == u.calls[id] && LineFor(u, u.calls[id]) == LineFor(w, u.calls[id])
    ensures var c := u.calls[id]; var l := LineFor(u, c);
      Alongside(u.(caches := u.caches[c.proc := l], calls := u.calls - {id}),
                w.(caches := w.caches[c.proc := l], calls := w.calls - {id}), q, call, line)
  {}

  lemma LookupFollows(u: State, id: nat, w: State, q: nat, call: Option<Call>, line: Option<CacheLine>)
    requires Enabled(u, Lookup(id)) && Alongside(u, w, q, call, line)
    ensures Enabled(w, Lookup(id)) && Alongside(Next(u, Lookup(id)), Next(w, Lookup(id)), q, call, line)
  {
    var c := u.calls[id];
    var l := LineFor(u, c);
    LineFollows(u, id, w, q, call, line);
    AnswerFollows(u.(caches := u.caches[c.proc := l], calls := u.calls - {id}),
                  Answer(c, |u.hist| - 1, l.at, OwnOf(u.own, c.proc), VerdictOf(l.file, c.token)),
                  w.(caches := w.caches[c.proc := l], calls := w.calls - {id}),
                  Answer(c, |w.hist| - 1, l.at, OwnOf(w.own, c.proc), VerdictOf(l.file, c.token)), q, call, line);
  }

  lemma EndFollows(u: State, id: nat, w: State, q: nat, call: Option<Call>, line: Option<CacheLine>)
    requires Enabled(u, ReadFails(id)) && Alongside(u, w, q, call, line)
    ensures Enabled(w, ReadFails(id)) && Alongside(Next(u, ReadFails(id)), Next(w, ReadFails(id)), q, call, line)
  {}

  /** Whatever the others do, they can do it with q there. */
  lemma StepFollows(u: State, e: Event, w: State, q: nat, call: Option<Call>, line: Option<CacheLine>)
    requires Enabled(u, e) && Alongside(u, w, q, call, line) && Apart(e, q)
    ensures Enabled(w, e) && Alongside(Next(u, e), Next(w, e), q, call, line)
  {
    match e {
      case Crash(p) => CrashFollows(u, p, w, q, call, line);
      case Stat(id, p, token) => StatFollows(u, id, p, token, w, q, call, line);
      case Lookup(id) => LookupFollows(u, id, w, q, call, line);
      case ReadFails(id) => EndFollows(u, id, w, q, call, line);
      case _ => WriterFollows(u, e, w, q, call, line);
    }
  }

  lemma {:induction false} RunFollows(u: State, events: seq<Event>, t: State, w: State, q: nat, call: Option<Call>,
                                      line: Option<CacheLine>) returns (x: State)
    requires Run(Step, u, events, t) && AllApart(events, q) && Alongside(u, w, q, call, line)
    ensures Run(Step, w, events, x) && Alongside(t, x, q, call, line) && w.answers <= x.answers
    decreases |events|
  {
    if events == [] {
      x := w;
    } else {
      var e, rest := events[0], events[1..];
      var mid :| Step(u, e, mid) && Run(Step, mid, rest, t);
      StepFollows(u, e, w, q, call, line);
      StepIsLater(w, e);
      x := RunFollows(mid, rest, t, Next(w, e), q, call, line);
      Before(Step, w, e, Next(w, e), rest, x);
      assert [e] + rest == events;
    }
  }

  /** Every run passes through each length its history has. */
  lemma {:induction false} RunSplits(s: State, events: seq<Event>, t: State, n: nat)
    returns (a: seq<Event>, u: State, b: seq<Event>)
    requires Run(Step, s, events, t) && |s.hist| <= n <= |t.hist|
    ensures events == a + b && Run(Step, s, a, u) && Run(Step, u, b, t) && |u.hist| == n
    decreases |events|
  {
    if |s.hist| == n {
      a, u, b := [], s, events;
    } else {
      var mid :| Step(s, events[0], mid) && Run(Step, mid, events[1..], t);
      OneMore(s, events[0]);
      a, u, b := RunSplits(mid, events[1..], t, n);
      Before(Step, s, events[0], mid, a, u);
      a := [events[0]] + a;
    }
  }

  lemma OneMore(s: State, e: Event)
    requires Enabled(s, e)
    ensures |s.hist| <= |Next(s, e).hist| <= |s.hist| + 1
  {}

  /** The rest of the run, from u to t, in which q takes no part. */
  ghost predicate Ahead(u: State, rest: seq<Event>, t: State, q: nat) {
    Inv(u) && Run(Step, u, rest, t) && AllApart(rest, q) && u.hist <= t.hist
  }

  /** The run up to version n, with q beside it. */
  lemma Advances(u: State, events: seq<Event>, t: State, w: State, q: nat, call: Option<Call>,
                 line: Option<CacheLine>, n: nat)
    returns (e: seq<Event>, u': State, w': State, rest: seq<Event>)
    requires Ahead(u, events, t, q) && Alongside(u, w, q, call, line) && |u.hist| <= n + 1 <= |t.hist|
    ensures Run(Step, w, e, w') && Alongside(u', w', q, call, line)
    ensures Ahead(u', rest, t, q) && |u'.hist| == n + 1
  {
    e, u', rest := RunSplits(u, events, t, n + 1);
    RunKeepsInv(u, e, u');
    RunKeepsInv(u', rest, t);
    w' := RunFollows(u, e, u', w, q, call, line);
  }

  lemma StatBeside(u: State, w: State, q: nat, line: Option<CacheLine>, token: string)
    requires Alongside(u, w, q, None, line) && u.hist != [] && Newest(u).file.Some?
    ensures var e := Stat(q, q, token);
      Enabled(w, e) && Alongside(u, Next(w, e), q, Some(Call(q, token, |u.hist| - 1)), line)
  {}

  /** What a lookup finds while version n is the newest. */
  function LineAt(hist: seq<Version>, c: Call, line: Option<CacheLine>, n: nat): CacheLine
    requires c.began <= n < |hist|
  {
    var tag := hist[c.began].tag;
    if line.Some? && line.value.tag == tag then line.value else CacheLine(tag, KeysIn(hist[n]), n)
  }

  lemma LookupBeside(u: State, w: State, q: nat, c: Call, line: Option<CacheLine>) returns (a: Answer)
    requires Alongside(u, w, q, Some(c), line) && c.began < |u.hist|
    ensures var n := |u.hist| - 1; var l := LineAt(u.hist, c, line, n);
      && Enabled(w, Lookup(q)) && Alongside(u, Next(w, Lookup(q)), q, None, Some(l))
      && a in Next(w, Lookup(q)).answers && a == Answer(c, n, l.at, a.own, VerdictOf(l.file, c.token))
  {
    var l := LineFor(w, c);
    a := Answer(c, |w.hist| - 1, l.at, OwnOf(w.own, c.proc), VerdictOf(l.file, c.token));
    assert Next(w, Lookup(q)).answers == w.answers + [a];
  }

  lemma AndThen(s: State, events: seq<Event>, t: State, e: Event)
    requires Run(Step, s, events, t) && Enabled(t, e)
    ensures Run(Step, s, events + [e], Next(t, e))
  {
    Before(Step, t, e, Next(t, e), [], Next(t, e));
    assert [e] + [] == [e];
    Joined(Step, s, events, t, [e], Next(t, e));
  }

  /** Process q stats version n. */
  lemma StatsAt(u: State, events: seq<Event>, t: State, w: State, q: nat, line: Option<CacheLine>, n: nat,
                token: string)
    returns (e: seq<Event>, u': State, x: State, rest: seq<Event>)
    requires Ahead(u, events, t, q) && Alongside(u, w, q, None, line) && |u.hist| <= n + 1 <= |t.hist|
    requires t.hist[n].file.Some?
    ensures Run(Step, w, e, x) && Alongside(u', x, q, Some(Call(q, token, n)), line)
    ensures Ahead(u', rest, t, q) && |u'.hist| == n + 1
  {
    var w';
    e, u', w', rest := Advances(u, events, t, w, q, None, line, n);
    StatBeside(u', w', q, line, token);
    AndThen(w, e, w', Stat(q, q, token));
    e, x := e + [Stat(q, q, token)], Next(w', Stat(q, q, token));
  }

  /** And its call looks up when version n is the newest. */
  lemma LooksUpAt(u: State, events: seq<Event>, t: State, w: State, q: nat, c: Call, line: Option<CacheLine>, n: nat)
    returns (e: seq<Event>, u': State, x: State, rest: seq<Event>, a: Answer)
    requires Ahead(u, events, t, q) && Alongside(u, w, q, Some(c), line) && |u.hist| <= n + 1 <= |t.hist|
    requires c.began <= n
    ensures Run(Step, w, e, x) && Alongside(u', x, q, None, Some(LineAt(t.hist, c, line, n)))
    ensures Ahead(u', rest, t, q) && |u'.hist| == n + 1 && a in x.answers
    ensures var l := LineAt(t.hist, c, line, n); a == Answer(c, n, l.at, a.own, VerdictOf(l.file, c.token))
  {
    var w';
    e, u', w', rest := Advances(u, events, t, w, q, Some(c), line, n);
    a := LookupBeside(u', w', q, c, line);
    AndThen(w, e, w', Lookup(q));
    e, x := e + [Lookup(q)], Next(w', Lookup(q));
  }

  // ----- exactly when answers can be late -----

  /** Process q stats version v and reads version i, which it then caches under v's tag. */
  lemma ReadsLate(s: State, events: seq<Event>, t: State, q: nat, v: nat, i: nat, token: string)
    returns (e: seq<Event>, u: State, x: State, rest: seq<Event>)
    requires Ahead(s, events, t, q) && Alongside(s, s, q, None, None) && |s.hist| == 1
    requires v <= i < |t.hist| && t.hist[v].file.Some?
    ensures Run(Step, s, e, x)
    ensures Alongside(u, x, q, None, Some(CacheLine(t.hist[v].tag, KeysIn(t.hist[i]), i)))
    ensures Ahead(u, rest, t, q) && |u.hist| == i + 1
  {
    var e1, u1, x1, r1 := StatsAt(s, events, t, s, q, None, v, token);
    var e2, a;
    e2, u, x, rest, a := LooksUpAt(u1, r1, t, x1, q, Call(q, token, v), None, i);
    Joined(Step, s, e1, x1, e2, x);
    e := e1 + e2;
  }

  /** A later call, with version j the newest and of the line's tag, is answered from the line. */
  lemma AnswersFromLine(u: State, events: seq<Event>, t: State, w: State, q: nat, line: CacheLine, j: nat,
                        token: string)
    returns (e: seq<Event>, x: State, a: Answer)
    requires Ahead(u, events, t, q) && Alongside(u, w, q, None, Some(line))
    requires |u.hist| <= j + 1 <= |t.hist| && t.hist[j].file.Some? && t.hist[j].tag == line.tag
    ensures Run(Step, w, e, x) && x.hist == t.hist && x.log == t.log && a in x.answers
    ensures a == Answer(Call(q, token, j), j, line.at, a.own, VerdictOf(line.file, token))
  {
    var e1, u1, x1, r1 := StatsAt(u, events, t, w, q, Some(line), j, token);
    var e2, u2, x2, r2, b := LooksUpAt(u1, r1, t, x1, q, Call(q, token, j), Some(line), j);
    x := RunFollows(u2, r2, t, x2, q, None, Some(line));
    a := b;
    Joined(Step, w, e1, x1, e2, x2);
    Joined(Step, w, e1 + e2, x2, r2, x);
    e := e1 + e2 + r2;
  }

  /** When two versions v and j have one tag, any version from v up to j can be what a call is
      answered with for which j is the newest from start to end: some run with the same history
      has that answer. */
  lemma LateAnswerExists(s: State, events: seq<Event>, t: State, v: nat, i: nat, j: nat, token: string)
    returns (events': seq<Event>, t': State, a: Answer)
    requires Init(s) && Run(Step, s, events, t) && v <= i < j < |t.hist| && OneTag(t.hist[v], t.hist[j])
    ensures Run(Step, s, events', t') && t'.hist == t.hist && t'.log == t.log && a in t'.answers
    ensures a.call.token == token && a.call.began == a.ended == j && a.at == i
    ensures a.verdict == VerdictOf(KeysIn(t.hist[i]), token)
  {
    var q := FreshNumber(events);
    InitIsAhead(s, events, t, q);
    var e1, u, x, rest := ReadsLate(s, events, t, q, v, i, token);
    var e2;
    e2, t', a := AnswersFromLine(u, rest, t, x, q, CacheLine(t.hist[v].tag, KeysIn(t.hist[i]), i), j, token);
    Joined(Step, s, e1, x, e2, t');
    events' := e1 + e2;
  }

  lemma InitIsAhead(s: State, events: seq<Event>, t: State, q: nat)
    requires Init(s) && Run(Step, s, events, t) && AllApart(events, q)
    ensures Ahead(s, events, t, q) && Alongside(s, s, q, None, None) && |s.hist| == 1
  {
    InitInv(s);
    RunKeepsInv(s, events, t);
  }

  ghost predicate InTime(t: State) {
    forall a | a in t.answers :: a.call.began <= a.at <= a.ended
  }

  ghost predicate AlwaysInTime(s: State, hist: seq<Version>) {
    forall events, t | Run(Step, s, events, t) && t.hist == hist :: InTime(t)
  }

  /** Every run with a given history of the file answers each call from a version of the call's own
      time if and only if no two versions a stat can see have one tag. */
  lemma AlwaysInTimeIff(s: State, events: seq<Event>, t: State)
    requires Init(s) && Run(Step, s, events, t)
    ensures AlwaysInTime(s, t.hist) <==> TagsTellApart(t.hist)
  {
    if TagsTellApart(t.hist) {
      forall events', t' | Run(Step, s, events', t') && t'.hist == t.hist ensures InTime(t') {
        forall a | a in t'.answers ensures a.call.began <= a.at <= a.ended {
          AnswersAreOfTheirTime(s, events', t', a);
        }
      }
    } else {
      var i, j :| 0 <= i < j < |t.hist| && OneTag(t.hist[i], t.hist[j]);
      var _, t', a := LateAnswerExists(s, events, t, i, i, j, "");
      assert !InTime(t');
    }
  }

  /** What a caller can see: the verdict is that of some version of the call's own time. */
  ghost predicate Timely(hist: seq<Version>, a: Answer) {
    exists k: nat :: a.call.began <= k <= a.ended < |hist| && a.verdict == VerdictOf(KeysIn(hist[k]), a.call.token)
  }

  ghost predicate AlwaysTimely(s: State, hist: seq<Version>) {
    forall events, t, a | Run(Step, s, events, t) && t.hist == hist && a in t.answers :: Timely(hist, a)
  }

  ghost predicate SameVerdicts(v: Version, w: Version) {
    forall token :: VerdictOf(KeysIn(v), token) == VerdictOf(KeysIn(w), token)
  }

  /** Of two versions with one tag, the first and all between them answer every token as the
      second does. */
  ghost predicate RepeatsAgree(hist: seq<Version>) {
    forall v, i, j | 0 <= v <= i < j < |hist| && OneTag(hist[v], hist[j]) :: SameVerdicts(hist[i], hist[j])
  }

  lemma RepeatsAgreeIsTimely(s: State, events: seq<Event>, t: State, a: Answer)
    requires Init(s) && Run(Step, s, events, t) && RepeatsAgree(t.hist) && a in t.answers
    ensures Timely(t.hist, a)
  {
    InitInv(s);
    RunKeepsInv(s, events, t);
    OwnWritesAreSeen(s, events, t, a);
    if a.at < a.call.began {
      var v :| SeenAs(t.hist, v, t.hist[a.call.began].tag) && v <= a.at;
      assert OneTag(t.hist[v], t.hist[a.call.began]);
      assert SameVerdicts(t.hist[a.at], t.hist[a.call.began]);
    }
  }

  /** Every run with a given history gives only verdicts of the call's own time if and only if
      versions of one tag, and all between them, give the same verdicts. */
  lemma AlwaysTimelyIff(s: State, events: seq<Event>, t: State)
    requires Init(s) && Run(Step, s, events, t)
    ensures AlwaysTimely(s, t.hist) <==> RepeatsAgree(t.hist)
  {
    if RepeatsAgree(t.hist) {
      forall events', t', a | Run(Step, s, events', t') && t'.hist == t.hist && a in t'.answers
        ensures Timely(t.hist, a)
      {
        RepeatsAgreeIsTimely(s, events', t', a);
      }
    } else {
      var v, i, j :| 0 <= v <= i < j < |t.hist| && OneTag(t.hist[v], t.hist[j]) &&
                     !SameVerdicts(t.hist[i], t.hist[j]);
      DifferingRepeat(s, events, t, v, i, j);
    }
  }

  lemma DifferingRepeat(s: State, events: seq<Event>, t: State, v: nat, i: nat, j: nat)
    requires Init(s) && Run(Step, s, events, t) && v <= i < j < |t.hist|
    requires OneTag(t.hist[v], t.hist[j]) && !SameVerdicts(t.hist[i], t.hist[j])
    ensures !AlwaysTimely(s, t.hist)
  {
    var token :| VerdictOf(KeysIn(t.hist[i]), token) != VerdictOf(KeysIn(t.hist[j]), token);
    var events', t', a := LateAnswerExists(s, events, t, v, i, j, token);
    OnlyOneInTime(t.hist, a);
    UntimelyRun(s, events', t', a);
  }

  lemma OnlyOneInTime(hist: seq<Version>, a: Answer)
    requires a.call.began == a.ended < |hist| && a.verdict != VerdictOf(KeysIn(hist[a.ended]), a.call.token)
    ensures !Timely(hist, a)
  {}

  lemma UntimelyRun(s: State, events: seq<Event>, t: State, a: Answer)
    requires Run(Step, s, events, t) && a in t.answers && !Timely(t.hist, a)
    ensures !AlwaysTimely(s, t.hist)
  {}

  // ----- a tag that comes back -----

  /** An undisturbed Rotate of process p, which gives the file this tag. */
  lemma Rotates(s: State, p: Proc, rawName: string, secret: string, now: int, tag: nat)
    returns (events: seq<Event>, t: State)
    requires s.hist != [] && s.holder.None? && NameIndex(KeysIn(Newest(s)), TrimSpace(rawName)).Some?
    requires Newest(s).file.Some? && tag != Newest(s).tag
    ensures Run(Step, s, events, t) && t.holder.None?
    ensures var file := KeysIn(Newest(s)); var i := NameIndex(file, TrimSpace(rawName)).value;
      t.hist == s.hist + [Version(tag, Some(RotatedAtIndex(file, i, secret, now)))]
  {
    var op := Op.Rotate(rawName, Some(secret), now);
    var m1 := Next(s, Acquire(p, op));
    var m2 := Next(m1, Rename(tag));
    var m3 := Next(m2, DropCache);
    t := Next(m3, Release);
    Before(Step, m3, Release, t, [], t);
    Before(Step, m2, DropCache, m3, [Release] + [], t);
    events := [DropCache] + ([Release] + []);
    Before(Step, m1, Rename(tag), m2, events, t);
    events := [Rename(tag)] + events;
    Before(Step, s, Acquire(p, op), m1, events, t);
    events := [Acquire(p, op)] + events;
  }

  /** The two files encode to the same length: SHA-256 hashes have one length, and so have times. */
  predicate SameLength(a: KeyFile, b: KeyFile) {
    |a| == |b| && forall i | 0 <= i < |a| ::
      && a[i].(hash := b[i].hash, rotatedAt := b[i].rotatedAt) == b[i]
      && (a[i].hash == b[i].hash || (a[i].hash.Sha? && b[i].hash.Sha?))
      && (a[i].rotatedAt.Some? <==> b[i].rotatedAt.Some?)
  }

  function RotatedTwice(file: KeyFile, i: nat, first: string, second: string, now: int): KeyFile
    requires i < |file|
  {
    RotatedAtIndex(RotatedAtIndex(file, i, first, now), i, second, now)
  }

  lemma RotatingKeepsPlace(file: KeyFile, name: string, secret: string, now: int)
    requires NameIndex(file, name).Some?
    ensures var i := NameIndex(file, name).value; NameIndex(RotatedAtIndex(file, i, secret, now), name) == Some(i)
  {}

  /** A key that has been rotated before keeps the length of its record when it is rotated again,
      and its first token is refused. */
  lemma RotatedTwiceRefuses(file: KeyFile, token: string, first: string, second: string, now: int)
    requires WellKept(file) && Verified(file, token).Some?
    requires Verified(file, token).value.hash.Sha? && Verified(file, token).value.rotatedAt.Some?
    requires second != ParseToken(token).value.secret
    ensures NameIndex(file, Verified(file, token).value.name).Some?
    ensures var i := NameIndex(file, Verified(file, token).value.name).value;
      var next := RotatedTwice(file, i, first, second, now);
      SameLength(file, next) && Verified(next, token).None?
  {
    var c := ParseToken(token).value;
    var r := Verified(file, token).value;
    FoundIsThere(file, c.id);
    var j :| 0 <= j < |file| && file[j] == r;
    var i := NameIndex(file, r.name).value;
    assert i == j;
    var next := RotatedTwice(file, i, first, second, now);
    assert next[i] == r.(hash := Sha(second), rotatedAt := Some(now));
    assert next[i] in next;
    assert WellKept(next);
    FindUnique(next, next[i]);
  }

  /** Two rotates by process p; the second gives the file the tag it had before the first, as it
      can when that file's place on the disk is free again. */
  lemma RotatesTwice(s: State, p: Proc, rawName: string, first: string, second: string, now: int)
    returns (events: seq<Event>, t: State)
    requires s.hist != [] && s.holder.None? && NameIndex(KeysIn(Newest(s)), TrimSpace(rawName)).Some?
    requires Newest(s).file.Some?
    ensures Run(Step, s, events, t) && |t.hist| == |s.hist| + 2 && s.hist <= t.hist
    ensures var file := KeysIn(Newest(s)); var i := NameIndex(file, TrimSpace(rawName)).value;
      Newest(t) == Version(Newest(s).tag, Some(RotatedTwice(file, i, first, second, now)))
  {
    RotatingKeepsPlace(KeysIn(Newest(s)), TrimSpace(rawName), first, now);
    var e1, s1 := Rotates(s, p, rawName, first, now, Newest(s).tag + 1);
    var e2, s2 := Rotates(s1, p, rawName, second, now, Newest(s).tag);
    Joined(Step, s, e1, s1, e2, s2);
    events, t := e1 + e2, s2;
  }

  lemma VerifiedIsGranted(file: KeyFile, token: string)
    requires Verified(file, token).Some?
    ensures VerdictOf(file, token).Granted?
  {
    FoundIsThere(file, ParseToken(token).value.id);
  }

  /** Why tags must not come back: a key is rotated twice, and the second file, which has the
      first one's length, also gets its identity and mtime. A process that still has the first
      file in its cache goes on answering from it, and grants a token that was replaced twice, by
      writes that were complete before the call. */
  lemma ReusedTagGrantsReplacedToken(s: State, token: string, first: string, second: string, now: int)
    returns (events: seq<Event>, t: State, a: Answer)
    requires Init(s) && s.hist[0].file.Some? && Verified(KeysIn(s.hist[0]), token).Some?
    requires var r := Verified(KeysIn(s.hist[0]), token).value; r.hash.Sha? && r.rotatedAt.Some? && Trimmed(r.name)
    requires second != ParseToken(token).value.secret
    ensures Run(Step, s, events, t) && |t.hist| == 3 && a in t.answers
    ensures SameLength(KeysIn(s.hist[0]), KeysIn(t.hist[2])) && Verified(KeysIn(t.hist[2]), token).None?
    ensures a.call.token == token && a.call.began == a.ended == 2 && a.verdict.Granted?
  {
    var name := Verified(KeysIn(s.hist[0]), token).value.name;
    TrimmedFixed(name);
    RotatedTwiceRefuses(KeysIn(s.hist[0]), token, first, second, now);
    VerifiedIsGranted(KeysIn(s.hist[0]), token);
    var e, u := RotatesTwice(s, 0, name, first, second, now);
    events, t, a := LateAnswerExists(s, e, u, 0, 0, 2, token);
  }
}
