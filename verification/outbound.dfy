/** Outbound HTTP under retries (internal/outbound/outbound.go): who owns each response, how
    often a request is sent, and how long a retry waits. */
module Outbound {
  import opened GoStrings

  const MAX_RETRIES := 3
  const DRAIN_LIMIT := 65536

  /** httpStatusRetryable. */
  predicate StatusRetryable(status: int) {
    status == 429 || 500 <= status <= 599
  }

  /** HTTPStatusPermanent. */
  predicate StatusPermanent(status: int) {
    status != 429 && 400 <= status < 500
  }

  /** Why an attempt failed: aborted for good, a transport failure of a kind worth another
      attempt or not, or an HTTP status. */
  datatype AttemptErr = Abort | Transport(retryable: bool) | Status(code: int)

  predicate RetryableErr(e: AttemptErr) {
    match e
    case Abort => false
    case Transport(retryable) => retryable
    case Status(code) => StatusRetryable(code)
  }

  /** What one attempt meets. timeLeft is what remains of the deadline when the answer is
      judged; waitCut says the context ends during the wait for the next attempt. */
  datatype Attempt = Attempt(outcome: Outcome, timeLeft: int, waitCut: bool)

  datatype Outcome =
    | CloneFails
    | TransportFails(retryable: bool)
    | Answers(status: int, retryAfter: Option<int>, bodyLen: nat, readFails: bool)

  datatype CtxEnd = Deadline | Cancel

  /** Everything outside Do's control: the attempts in turn, whether the breaker refuses the
      call, and whether and how the context has ended by the time Do looks at it last. */
  datatype World = World(attempts: nat -> Attempt, breakerRefuses: bool, endsBy: Option<CtxEnd>, cutBy: CtxEnd)

  /** The error of an attempt; health checks judge no status. A retryable answer whose
      Retry-After outlasts the deadline aborts the retries. */
  function ErrOf(a: Attempt, health: bool): Option<AttemptErr> {
    match a.outcome
    case CloneFails => Some(Abort)
    case TransportFails(retryable) => Some(Transport(retryable))
    case Answers(status, retryAfter, _, _) =>
      if health then None
      else if StatusPermanent(status) then Some(Abort)
      else if StatusRetryable(status) then
        if retryAfter.Some? && a.timeLeft <= retryAfter.value then Some(Abort) else Some(Status(status))
      else None
  }

  predicate WantsRetry(a: Attempt, health: bool) {
    ErrOf(a, health).Some? && RetryableErr(ErrOf(a, health).value)
  }

  /** An attempt worth another: a transport failure of such a kind, or a 429 or 5xx answer, not to
      a health check, whose Retry-After ends before the deadline. */
  predicate Transient(a: Attempt, health: bool) {
    match a.outcome
    case CloneFails => false
    case TransportFails(retryable) => retryable
    case Answers(status, retryAfter, _, _) =>
      && !health && (status == 429 || 500 <= status < 600)
      && (retryAfter.Some? ==> retryAfter.value < a.timeLeft)
  }

  lemma WantsRetryIff(a: Attempt, health: bool)
    ensures WantsRetry(a, health) <==> Transient(a, health)
  {}

  predicate HadAnother(w: World, health: bool, replayable: bool, i: nat) {
    replayable && Transient(w.attempts(i), health) && !w.attempts(i).waitCut
  }

  /** The retries may end with attempt `last`, and with no other: all before it were worth another
      and had it, and it was not, or could not have one. */
  predicate EndsWith(w: World, health: bool, replayable: bool, last: nat) {
    && last <= 3
    && (forall i: nat | i < last :: HadAnother(w, health, replayable, i))
    && (last == 3 || !HadAnother(w, health, replayable, last))
  }

  /** The attempt the retries end with, counting from k: the first that succeeds, fails for
      good, has its wait cut, or is the last one allowed. */
  function LastAttempt(w: World, health: bool, replayable: bool, k: nat): (last: nat)
    requires k <= MAX_RETRIES
    ensures k <= last <= MAX_RETRIES && (!replayable ==> last == k)
    decreases MAX_RETRIES - k
  {
    if WantsRetry(w.attempts(k), health) && replayable && k < MAX_RETRIES && !w.attempts(k).waitCut
    then LastAttempt(w, health, replayable, k + 1)
    else k
  }

  /** The loop ends with that attempt. */
  lemma {:induction false} LastAttemptEnds(w: World, health: bool, replayable: bool, k: nat)
    requires k <= MAX_RETRIES
    requires forall i: nat | i < k :: HadAnother(w, health, replayable, i)
    ensures EndsWith(w, health, replayable, LastAttempt(w, health, replayable, k))
    decreases MAX_RETRIES - k
  {
    WantsRetryIff(w.attempts(k), health);
    var a := w.attempts(k);
    if WantsRetry(a, health) && replayable && k < MAX_RETRIES && !a.waitCut {
      LastAttemptEnds(w, health, replayable, k + 1);
    }
  }

  lemma EndsOnce(w: World, health: bool, replayable: bool, a: nat, b: nat)
    requires EndsWith(w, health, replayable, a) && EndsWith(w, health, replayable, b)
    ensures a == b
  {
    assert a < b ==> HadAnother(w, health, replayable, a);
    assert b < a ==> HadAnother(w, health, replayable, b);
  }

  /** The retries stopped because the context ended in a wait. */
  predicate WasCut(w: World, health: bool, replayable: bool, last: nat) {
    WantsRetry(w.attempts(last), health) && replayable && last < MAX_RETRIES && w.attempts(last).waitCut
  }

  datatype Code = CodeTimeout | CodeCanceled | CodeUnavailable

  function ContextCode(e: CtxEnd): Code {
    if e.Cancel? then CodeCanceled else CodeTimeout
  }

  function CodeFor(e: Option<CtxEnd>): Code {
    if e.Some? then ContextCode(e.value) else CodeUnavailable
  }

  /** One HTTP answer: its body is a stream that is read and must be closed once. */
  class Response {
    const status: int
    const bodyLen: nat
    const readFails: bool
    var unread: nat
    var closed: bool

    constructor (status: int, bodyLen: nat, readFails: bool)
      ensures this.status == status && this.bodyLen == bodyLen && this.readFails == readFails
      ensures unread == bodyLen && !closed
    {
      this.status, this.bodyLen, this.readFails := status, bodyLen, readFails;
      unread, closed := bodyLen, false;
    }

    /** Drained as far as a connection is worth it, and closed. */
    ghost predicate Drained()
      reads this
    {
      closed && (readFails || unread == if bodyLen <= 64 * 1024 then 0 else bodyLen - 64 * 1024)
    }

    /** CloseResponse. */
    method Close()
      modifies this`closed
      ensures closed
    {
      closed := true;
    }

    /** drainAndClose: a body that fails in mid-read is closed all the same. */
    method DrainAndClose()
      requires unread == bodyLen
      modifies this
      ensures Drained()
    {
      if !readFails {
        unread := if unread <= DRAIN_LIMIT then 0 else unread - DRAIN_LIMIT;
      }
      Close();
    }
  }

  /** The HTTP client: it counts sends and, for the specification, remembers every answer. */
  class Client {
    var sends: nat
    ghost var received: seq<Response>

    constructor ()
      ensures sends == 0 && received == []
    {
      sends, received := 0, [];
    }

    method Send(outcome: Outcome) returns (r: Response?)
      requires !outcome.CloneFails?
      modifies this
      ensures sends == old(sends) + 1
      ensures (r != null) == outcome.Answers?
      ensures r == null ==> received == old(received)
      ensures r != null ==>
        && fresh(r) && received == old(received) + [r]
        && r.status == outcome.status && !r.closed && r.unread == r.bodyLen
    {
      sends := sends + 1;
      match outcome {
        case Answers(status, _, bodyLen, readFails) =>
          var answer := new Response(status, bodyLen, readFails);
          received := received + [answer];
          r := answer;
        case TransportFails(_) => r := null;
      }
    }
  }

  /** How many of the attempts up to and including `last` reach the client. */
  function SendsUpTo(w: World, last: nat): (n: nat)
    ensures n <= last + 1
  {
    (if last == 0 then 0 else SendsUpTo(w, last - 1)) + if w.attempts(last).outcome.CloneFails? then 0 else 1
  }

  /** All before the last attempt did, so the number of sends tells which one it was. */
  lemma {:induction false} SendsCount(w: World, last: nat)
    requires forall i: nat | i < last :: !w.attempts(i).outcome.CloneFails?
    ensures SendsUpTo(w, last) == last + if w.attempts(last).outcome.CloneFails? then 0 else 1
  {
    if last > 0 {
      SendsCount(w, last - 1);
    }
  }

  /** Every answer received is drained and closed but `open`, the newest, which is untouched. */
  ghost predicate Settled(received: seq<Response>, open: Response?)
    reads received
  {
    && (forall r | r in received && r != open :: r.Drained())
    && (forall i, j | 0 <= i < j < |received| :: received[i] != received[j])
    && (open != null ==>
          received != [] && open == received[|received| - 1] && !open.closed && open.unread == open.bodyLen)
  }

  /** The answers that were replaced by another attempt were a 429 or a 5xx, and not to a health
      check. */
  ghost predicate Replaced(received: seq<Response>, last: Response?, health: bool) {
    forall r | r in received && r != last :: !health && (r.status == 429 || 500 <= r.status <= 599)
  }

  /** One pass of the retried function: the answer this attempt replaces is drained first. */
  method TryOnce(client: Client, previous: Response?, a: Attempt, health: bool)
    returns (resp: Response?, e: Option<AttemptErr>)
    requires Settled(client.received, previous)
    modifies client, client.received
    ensures Settled(client.received, resp)
    ensures old(client.received) <= client.received
    ensures forall r | r in client.received :: r in old(client.received) || (r == resp && fresh(r))
    ensures client.sends == old(client.sends) + if a.outcome.CloneFails? then 0 else 1
    ensures (resp != null <==> a.outcome.Answers?) && (resp != null ==> resp.status == a.outcome.status)
    ensures e == ErrOf(a, health)
  {
    if previous != null {
      previous.DrainAndClose();
    }
    resp := null;
    if !a.outcome.CloneFails? {
      resp := client.Send(a.outcome);
    }
    e := ErrOf(a, health);
  }

  /** The retry loop; failed is whether its last attempt failed, cut whether its wait was cut. */
  method Retry(client: Client, w: World, health: bool, replayable: bool)
    returns (resp: Response?, failed: bool, cut: bool)
    requires client.received == []
    modifies client
    ensures Settled(client.received, resp) && forall r | r in client.received :: fresh(r)
    ensures Replaced(client.received, resp, health)
    ensures var last := LastAttempt(w, health, replayable, 0);
      && (resp != null <==> w.attempts(last).outcome.Answers?)
      && (resp != null ==> resp.status == w.attempts(last).outcome.status)
      && client.sends == old(client.sends) + SendsUpTo(w, last)
      && failed == ErrOf(w.attempts(last), health).Some?
      && cut == WasCut(w, health, replayable, last)
  {
    resp, cut := null, false;
    var k: nat := 0;
    while true
      invariant k <= MAX_RETRIES && (!replayable ==> k == 0) && !cut
      invariant LastAttempt(w, health, replayable, 0) == LastAttempt(w, health, replayable, k)
      invariant client.sends == old(client.sends) + if k == 0 then 0 else SendsUpTo(w, k - 1)
      invariant Settled(client.received, resp) && forall r | r in client.received :: fresh(r)
      invariant Replaced(client.received, null, health)
      decreases MAX_RETRIES - k
    {
      var a, e := w.attempts(k), None;
      assert forall i | 0 <= i < |client.received| :: client.received[i] in client.received;
      resp, e := TryOnce(client, resp, a, health);
      failed := e.Some?;
      if !(e.Some? && RetryableErr(e.value) && replayable && k < MAX_RETRIES) {
        break;
      }
      if a.waitCut {
        cut := true;
        break;
      }
      WantsRetryIff(a, health);
      k := k + 1;
    }
  }

  /** How the context had ended by the time Do looks: in the wait after the last attempt, or as it
      is found. */
  function EndSeen(w: World, health: bool, replayable: bool, last: nat): Option<CtxEnd> {
    if last < 3 && replayable && Transient(w.attempts(last), health) && w.attempts(last).waitCut then Some(w.cutBy)
    else w.endsBy
  }

  lemma EndedIsSeen(w: World, health: bool, replayable: bool, last: nat)
    requires EndsWith(w, health, replayable, last)
    ensures SendsUpTo(w, last) == last + if w.attempts(last).outcome.CloneFails? then 0 else 1
    ensures EndSeen(w, health, replayable, last)
         == if WasCut(w, health, replayable, last) then Some(w.cutBy) else w.endsBy
  {
    SendsCount(w, last);
    WantsRetryIff(w.attempts(last), health);
  }

  /** Policies.Do, from the checks of its arguments on. It answers with the attempt the retries end
      with. Every answer received is drained and closed, except that attempt's own, which is
      returned: open with no error, or closed together with the error that ended the wait. */
  method Do(client: Client, w: World, health: bool, replayable: bool)
    returns (resp: Response?, err: Option<Code>, ghost last: nat)
    requires client.received == []
    modifies client
    ensures w.breakerRefuses ==> resp == null && client.sends == old(client.sends)
    ensures !w.breakerRefuses ==>
      && EndsWith(w, health, replayable, last)
      && client.sends == old(client.sends) + last + (if w.attempts(last).outcome.CloneFails? then 0 else 1)
      && (resp != null <==> w.attempts(last).outcome.Answers?)
      && (resp != null ==> resp.status == w.attempts(last).outcome.status)
    ensures forall r | r in client.received :: fresh(r)
    ensures forall i, j | 0 <= i < j < |client.received| :: client.received[i] != client.received[j]
    ensures forall r | r in client.received && r != resp :: r.Drained()
    ensures Replaced(client.received, resp, health)
    ensures resp != null ==> client.received != [] && resp == client.received[|client.received| - 1]
    ensures resp != null ==> (resp.closed <==> err.Some?)
    ensures var end := if w.breakerRefuses then w.endsBy else EndSeen(w, health, replayable, last);
      err == if resp == null && end.None? then Some(CodeUnavailable)
             else if end.Some? && (resp != null ==> !health && 400 <= resp.status < 600)
             then Some(if end.value.Deadline? then CodeTimeout else CodeCanceled)
             else None
  {
    resp, err, last := null, None, 0;
    var failed, cut := true, false;
    if !w.breakerRefuses {
      resp, failed, cut := Retry(client, w, health, replayable);
      last := LastAttempt(w, health, replayable, 0);
      LastAttemptEnds(w, health, replayable, 0);
      EndedIsSeen(w, health, replayable, last);
    }
    var ctxErr := if cut then Some(w.cutBy) else w.endsBy;
    if failed {
      if resp == null {
        err := Some(CodeFor(ctxErr));
      } else if ctxErr.Some? {
        assert resp in client.received;
        resp.Close();
        err := Some(CodeFor(ctxErr));
      }
    }
  }

  /** Only a transport failure of the right kind, a 429 or a 5xx is followed by another attempt, and
      an answer to a health check never is. */
  lemma OnlyRetryablesAreRetried(w: World, health: bool, replayable: bool, i: nat)
    requires i < LastAttempt(w, health, replayable, 0)
    ensures replayable && !w.attempts(i).waitCut && match w.attempts(i).outcome
      case CloneFails => false
      case TransportFails(retryable) => retryable
      case Answers(status, _, _, _) => !health && (status == 429 || 500 <= status <= 599)
  {
    LastAttemptEnds(w, health, replayable, 0);
    assert HadAnother(w, health, replayable, i);
  }

  /** And each of those is, unless the retries are spent, the wait is cut, the body cannot be sent
      again or its Retry-After outlasts the deadline. */
  lemma RetriesStopForAReason(w: World, health: bool, replayable: bool)
    ensures var last := LastAttempt(w, health, replayable, 0); var a := w.attempts(last);
      last == 3 || !replayable || a.waitCut || match a.outcome
      case CloneFails => true
      case TransportFails(retryable) => !retryable
      case Answers(status, retryAfter, _, _) =>
        || health || !(status == 429 || 500 <= status <= 599)
        || (retryAfter.Some? && a.timeLeft <= retryAfter.value)
  {
    LastAttemptEnds(w, health, replayable, 0);
  }

  // ----- waiting -----

  const INT64_SPAN := 0x1_0000_0000_0000_0000

  /** Go's int64 arithmetic. */
  function Wrap64(x: int): int {
    (x + INT64_SPAN / 2) % INT64_SPAN - INT64_SPAN / 2
  }

  const SECOND := 1_000_000_000

  datatype Backoff = Backoff(min: int, max: int)

  /** newRetryPolicy's defaults: 1 s and 8 s, and max at least min. */
  function Filled(b: Backoff): (f: Backoff)
    ensures 0 < f.min <= f.max
    ensures b.min > 0 ==> f.min == b.min
    ensures b.max >= f.min && b.max > 0 ==> f.max == b.max
  {
    var lo := if b.min <= 0 then SECOND else b.min;
    var hi := if b.max <= 0 then 8 * SECOND else b.max;
    Backoff(lo, if hi < lo then lo else hi)
  }

  function Pow2(n: nat): (p: nat)
    ensures p > 0
  {
    if n == 0 then 1 else 2 * Pow2(n - 1)
  }

  /** delay's loop: doubled until it reaches max, in 64 bits. */
  function Doubled(d: int, max: int, retries: nat): int
    decreases retries
  {
    if retries == 0 || d >= max then d else Doubled(Wrap64(d * 2), max, retries - 1)
  }

  function AtMost(d: int, max: int): int {
    if d < max then d else max
  }

  /** Backoff.delay before jitter, when there was no Retry-After. */
  function Waits(b: Backoff, retries: nat): int {
    AtMost(Doubled(b.min, b.max, retries), b.max)
  }

  /** What it is meant to be: min doubled for every earlier retry, capped at max. */
  function Capped(b: Backoff, retries: nat): int {
    AtMost(b.min * Pow2(retries), b.max)
  }

  /** None of the first n doublings, of a delay still below max, leaves Go's 64-bit durations. */
  predicate NoOverflow(b: Backoff, n: nat) {
    forall i: nat | i < n && b.min * Pow2(i) < b.max :: b.min * Pow2(i + 1) < INT64_SPAN / 2
  }

  /** rand.Float64 draws one of these many equally spaced numbers from [0, 1). */
  const DRAWS := 0x20_0000_0000_0000

  /** jitterFactor is one part of this many. */
  const JITTER_PARTS := 5

  /** Go's division, towards zero. */
  function Quotient(a: int, b: nat): int
    requires b > 0
  {
    if a < 0 then -(-a / b) else a / b
  }

  /** d * (1 + (2 * draw - 1) * jitterFactor), for the draw from [0, 1) with this number. */
  function Jittered(d: int, draw: nat): int {
    Quotient(d * (JITTER_PARTS * DRAWS + 2 * draw - DRAWS), JITTER_PARTS * DRAWS)
  }

  /** Jitter keeps a delay within a fifth of what it was. */
  lemma JitterIsAFifth(d: int, draw: nat)
    requires 0 <= d && draw < DRAWS
    ensures 4 * d / 5 <= Jittered(d, draw) && 5 * Jittered(d, draw) <= 6 * d
  {
    Scaled(d, 4 * DRAWS, 4 * DRAWS + 2 * draw);
    Scaled(d, 4 * DRAWS + 2 * draw, 6 * DRAWS);
    FifthOf(d, d * (4 * DRAWS + 2 * draw));
  }

  lemma Scaled(d: int, low: int, high: int)
    requires 0 <= d && low <= high
    ensures d * low <= d * high
  {}

  lemma FifthOf(d: int, y: int)
    requires 0 <= d && d * (4 * DRAWS) <= y <= d * (6 * DRAWS)
    ensures 4 * d / 5 <= Quotient(y, 5 * DRAWS) && 5 * Quotient(y, 5 * DRAWS) <= 6 * d
  {}

  /** From a fifth less, for the least draw, through the delay itself for the middle one; and a wait
      that has overflowed is treated as its positive twin. */
  lemma JitterReaches(d: int, draw: nat)
    requires 0 <= d && draw < DRAWS
    ensures Jittered(d, 0) == 4 * d / 5 && Jittered(d, DRAWS / 2) == d
    ensures Jittered(-d, draw) == -Jittered(d, draw)
  {
    var f := JITTER_PARTS * DRAWS + 2 * draw - DRAWS;
    Scaled(d, 0, f);
    assert -d * f == -(d * f);
  }

  /** Backoff.delay. */
  method Delay(b: Backoff, retries: nat, retryAfter: Option<int>, draw: nat) returns (d: int)
    requires 0 < b.min <= b.max < INT64_SPAN / 2
    ensures retryAfter.Some? && retryAfter.value > 0 ==> d == retryAfter.value
    ensures !(retryAfter.Some? && retryAfter.value > 0) ==> d == Jittered(Waits(b, retries), draw)
  {
    if retryAfter.Some? && retryAfter.value > 0 {
      return retryAfter.value;
    }
    d := b.min;
    var i := 0;
    while i < retries && d < b.max
      invariant 0 <= i <= retries && Doubled(b.min, b.max, retries) == Doubled(d, b.max, retries - i)
    {
      d := Wrap64(d * 2);
      i := i + 1;
    }
    d := Jittered(AtMost(d, b.max), draw);
  }

  /** newRetryPolicy's delay for the back-off it is given: where no doubling overflows, the
      Retry-After as sent, or within a fifth of the filled min doubled for every earlier retry and
      capped at the filled max. */
  method RetryDelay(b: Backoff, retries: nat, retryAfter: Option<int>, draw: nat) returns (d: int)
    requires b.min < INT64_SPAN / 2 && b.max < INT64_SPAN / 2 && draw < DRAWS
    ensures retryAfter.Some? && retryAfter.value > 0 ==> d == retryAfter.value
    ensures !(retryAfter.Some? && retryAfter.value > 0) ==> d == Jittered(Waits(Filled(b), retries), draw)
    ensures !(retryAfter.Some? && retryAfter.value > 0) && NoOverflow(Filled(b), retries) ==>
              4 * Capped(Filled(b), retries) / 5 <= d && 5 * d <= 6 * Capped(Filled(b), retries)
  {
    var f := Filled(b);
    d := Delay(f, retries, retryAfter, draw);
    if NoOverflow(f, retries) {
      DoubledIsCapped(f, 0, retries);
      WaitsGrow(f.min, 0, retries);
      JitterIsAFifth(Capped(f, retries), draw);
    }
  }

  /** A field that is not set takes the production value, 1 s or 8 s. */
  lemma UnsetIsProduction(b: Backoff)
    ensures b.min <= 0 ==> Filled(b) == Filled(b.(min := 1_000_000_000))
    ensures b.max <= 0 ==> Filled(b) == Filled(b.(max := 8_000_000_000))
  {}

  /** The production waits before jitter: 1, 2 and 4 seconds, and never more than 8. */
  lemma ProductionWaits(n: nat)
    ensures Waits(Filled(Backoff(0, 0)), 0) == 1_000_000_000
    ensures Waits(Filled(Backoff(0, 0)), 1) == 2_000_000_000
    ensures Waits(Filled(Backoff(0, 0)), 2) == 4_000_000_000
    ensures n >= 3 ==> Waits(Filled(Backoff(0, 0)), n) == 8_000_000_000
  {
    var b := Filled(Backoff(0, 0));
    DefaultsDoNotOverflow(n);
    DefaultsDoNotOverflow(2);
    DoubledIsCapped(b, 0, n);
    DoubledIsCapped(b, 0, 1);
    DoubledIsCapped(b, 0, 2);
    assert Pow2(1) == 2 && Pow2(2) == 4 && Pow2(3) == 8;
    if n >= 3 {
      Pow2Grows(3, n);
    }
  }

  /** The defaults, which every shipped caller has, never overflow. */
  lemma DefaultsDoNotOverflow(n: nat)
    ensures NoOverflow(Filled(Backoff(0, 0)), n)
  {
    var b := Filled(Backoff(0, 0));
    forall i: nat | i < n && b.min * Pow2(i) < b.max ensures b.min * Pow2(i + 1) < INT64_SPAN / 2 {
      TwiceIsNext(b.min, i);
    }
  }

  /** The waits of one back-off grow with the number of retries. */
  lemma WaitsGrow(min: int, i: nat, n: nat)
    requires 0 < min && i <= n
    ensures min * Pow2(i) <= min * Pow2(n)
  {
    Pow2Grows(i, n);
    DoublingStays(min, Pow2(i), Pow2(n));
  }

  lemma TwiceIsNext(min: int, i: nat)
    ensures min * Pow2(i) * 2 == min * Pow2(i + 1)
  {}

  lemma DoublingFits(min: int, i: nat)
    requires 0 < min && min * Pow2(i + 1) < INT64_SPAN / 2
    ensures Wrap64(min * Pow2(i) * 2) == min * Pow2(i + 1)
  {
    TwiceIsNext(min, i);
    WaitsGrow(min, 0, i + 1);
  }

  /** Where no doubling overflows the loop computes what it is meant to. */
  lemma {:induction false} DoubledIsCapped(b: Backoff, i: nat, n: nat)
    requires 0 < b.min <= b.max && NoOverflow(b, n) && i <= n
    ensures AtMost(Doubled(b.min * Pow2(i), b.max, n - i), b.max) == Capped(b, n)
    decreases n - i
  {
    if i < n {
      if b.min * Pow2(i) < b.max {
        DoublingFits(b.min, i);
        DoubledIsCapped(b, i + 1, n);
      } else {
        WaitsGrow(b.min, i, n);
      }
    }
  }

  /** While the delay is below max every doubling is exact but perhaps the last. */
  lemma {:induction false} DoubledReaches(b: Backoff, j: nat, i: nat)
    requires 0 < b.min && b.max < INT64_SPAN / 2 && j <= i && b.min * Pow2(i) < b.max
    ensures Doubled(b.min * Pow2(j), b.max, i + 1 - j) == Wrap64(b.min * Pow2(i) * 2)
    decreases i - j
  {
    WaitsGrow(b.min, j, i);
    if j < i {
      WaitsGrow(b.min, j + 1, i);
      DoublingFits(b.min, j);
      DoubledReaches(b, j + 1, i);
    }
  }

  /** The first doubling that overflows gives a negative wait. */
  lemma OverflowIsNegative(b: Backoff, i: nat)
    requires 0 < b.min <= b.max < INT64_SPAN / 2
    requires b.min * Pow2(i) < b.max && INT64_SPAN / 2 <= b.min * Pow2(i + 1)
    ensures Waits(b, i + 1) < 0 < Capped(b, i + 1)
  {
    DoubledReaches(b, 0, i);
    TwiceIsNext(b.min, i);
    WrapsNegative(b.min * Pow2(i) * 2);
    assert b.min * Pow2(0) == b.min;
  }

  lemma WrapsNegative(x: int)
    requires INT64_SPAN / 2 <= x < INT64_SPAN
    ensures Wrap64(x) < 0
  {}

  /** The waits before the first n retries are all what they are meant to be if and only if none of
      the doublings overflows: a delay below max that is doubled stays below 2^63 ns. */
  lemma WaitsAreCappedIff(b: Backoff, n: nat)
    requires 0 < b.min <= b.max < INT64_SPAN / 2
    ensures (forall r: nat | r <= n :: Waits(b, r) == Capped(b, r)) <==> NoOverflow(b, n)
  {
    if NoOverflow(b, n) {
      forall r: nat | r <= n ensures Waits(b, r) == Capped(b, r) {
        DoubledIsCapped(b, 0, r);
      }
    } else {
      var i: nat :| i < n && b.min * Pow2(i) < b.max && INT64_SPAN / 2 <= b.min * Pow2(i + 1);
      OverflowIsNegative(b, i);
    }
  }

  lemma {:induction false} Pow2Grows(i: nat, n: nat)
    requires i <= n
    ensures Pow2(i) <= Pow2(n)
    decreases n - i
  {
    if i < n {
      Pow2Grows(i + 1, n);
    }
  }

  lemma DoublingStays(m: int, p: nat, q: nat)
    requires 0 < m && p <= q
    ensures m * p <= m * q
  {}
}
