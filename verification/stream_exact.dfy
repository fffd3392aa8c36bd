/** When the sanitiser is exact: for every choice index, the emitted choices are the input's
    choices up to and including the first terminal one. */
module StreamExact {
  import opened GoStrings
  import opened StreamSanitizer
  import opened StreamRuns

  function Only(k: int, cs: seq<Choice>): seq<Choice> {
    Filter((c: Choice) => IndexOf(c) == k, cs)
  }

  /** The choices of index k in a stream, in order. */
  function Of(k: int, chunks: seq<Chunk>): seq<Choice> {
    if chunks == [] then []
    else Of(k, chunks[..|chunks| - 1]) + Only(k, ChoicesOf(chunks[|chunks| - 1]))
  }

  /** Up to and including the first terminal choice. */
  function UpTo(cs: seq<Choice>): (r: seq<Choice>)
    ensures r <= cs
  {
    if cs == [] then [] else if Terminal(cs[0]) then [cs[0]] else
    assert cs == [cs[0]] + cs[1..];
    [cs[0]] + UpTo(cs[1..])
  }

  predicate HasTerminal(cs: seq<Choice>) {
    exists i | 0 <= i < |cs| :: Terminal(cs[i])
  }

  /** What should be emitted for index k, and what is. */
  function Expected(k: int, chunks: seq<Chunk>): seq<Choice> {
    Cleaned(UpTo(Of(k, chunks)))
  }

  function Actual(k: int, chunks: seq<Chunk>, strip: bool): seq<Choice> {
    Of(k, Emitted({}, chunks, strip))
  }

  /** A chunk the sanitiser can treat as a whole: all of its choices are late, or none is and
      none follows a terminal choice of its index within the chunk. */
  ghost predicate WholeChunk(finished: set<int>, cs: seq<Choice>) {
    || (forall c | c in cs :: IndexOf(c) in finished)
    || (!Late(finished, cs) && forall i, j | 0 <= i < j < |cs| && Terminal(cs[i]) :: IndexOf(cs[j]) != IndexOf(cs[i]))
  }

  /** Every chunk is whole when its turn comes. */
  ghost predicate WholeStream(chunks: seq<Chunk>) {
    chunks == [] ||
    var n := |chunks| - 1;
    WholeStream(chunks[..n]) && WholeChunk(Finished({}, chunks[..n]), ChoicesOf(chunks[n]))
  }

  lemma {:induction false} FirstMixed(chunks: seq<Chunk>) returns (i: nat)
    requires !WholeStream(chunks)
    ensures i < |chunks| && !WholeChunk(Finished({}, chunks[..i]), ChoicesOf(chunks[i]))
  {
    i := |chunks| - 1;
    if WholeChunk(Finished({}, chunks[..i]), ChoicesOf(chunks[i])) {
      var front := chunks[..i];
      i := FirstMixed(front);
      assert front[..i] == chunks[..i];
    }
  }

  // ----- lists of choices -----

  lemma {:induction false} UpToAppend(a: seq<Choice>, b: seq<Choice>)
    ensures UpTo(a + b) == if HasTerminal(a) then UpTo(a) else a + UpTo(b)
  {
    if a == [] {
      assert a + b == b;
    } else {
      assert (a + b)[1..] == a[1..] + b;
      assert HasTerminal(a) <==> Terminal(a[0]) || HasTerminal(a[1..]) by {
        assert forall i | 0 < i < |a| :: a[i] == a[1..][i - 1];
      }
      UpToAppend(a[1..], b);
    }
  }

  predicate EndsAtMostLast(cs: seq<Choice>) {
    forall i | 0 <= i < |cs| - 1 :: !Terminal(cs[i])
  }

  lemma {:induction false} UpToIsAll(cs: seq<Choice>)
    requires EndsAtMostLast(cs)
    ensures UpTo(cs) == cs
  {
    if |cs| > 1 {
      assert !Terminal(cs[0]);
      UpToIsAll(cs[1..]);
    }
  }

  lemma {:induction false} CleanedAppend(a: seq<Choice>, b: seq<Choice>)
    ensures Cleaned(a + b) == Cleaned(a) + Cleaned(b)
  {
    if a == [] {
      assert a + b == b;
    } else {
      assert (a + b)[1..] == a[1..] + b;
      CleanedAppend(a[1..], b);
    }
  }

  lemma {:induction false} CleanedCommutes(k: int, cs: seq<Choice>)
    ensures Only(k, Cleaned(cs)) == Cleaned(Only(k, cs))
    ensures UpTo(Cleaned(cs)) == Cleaned(UpTo(cs))
    ensures HasTerminal(Cleaned(cs)) == HasTerminal(cs)
  {
    if cs != [] {
      CleanIsIdempotent(cs[0]);
      CleanedCommutes(k, cs[1..]);
      assert Cleaned(cs)[1..] == Cleaned(cs[1..]);
      CleanedAppend(if IndexOf(cs[0]) == k then [cs[0]] else [], Only(k, cs[1..]));
      CleanedAppend([cs[0]], UpTo(cs[1..]));
    }
    forall i | 0 <= i < |cs| ensures Terminal(Cleaned(cs)[i]) == Terminal(cs[i]) {
      CleanIsIdempotent(cs[i]);
    }
  }

  lemma OfGrows(k: int, front: seq<Chunk>, c: Chunk)
    ensures Of(k, front + [c]) == Of(k, front) + Only(k, ChoicesOf(c))
  {
    assert (front + [c])[..|front|] == front;
  }

  /** Index k has finished exactly when one of its choices was terminal. */
  lemma {:induction false} FinishedIffTerminal(k: int, chunks: seq<Chunk>)
    ensures k in Finished({}, chunks) <==> HasTerminal(Of(k, chunks))
  {
    if chunks != [] {
      var n := |chunks| - 1;
      FinishedIffTerminal(k, chunks[..n]);
      var a, p := Of(k, chunks[..n]), Only(k, ChoicesOf(chunks[n]));
      assert HasTerminal(a + p) <==> HasTerminal(a) || HasTerminal(p) by {
        assert forall i | 0 <= i < |p| :: (a + p)[|a| + i] == p[i];
        assert forall i | 0 <= i < |a| :: (a + p)[i] == a[i];
      }
      EndsIffTerminal(k, ChoicesOf(chunks[n]));
    }
  }

  lemma EndsIffTerminal(k: int, cs: seq<Choice>)
    ensures k in Ends(cs) <==> HasTerminal(Only(k, cs))
  {
    var p := Only(k, cs);
    if k in Ends(cs) {
      var c :| c in cs && Terminal(c) && IndexOf(c) == k;
      assert c in p;
    }
    if i :| 0 <= i < |p| && Terminal(p[i]) {
      assert p[i] in p && p[i] in cs;
    }
  }

  /** One more chunk, for index k: all its choices of k are emitted or none is, while what is
      expected grows up to the first terminal one, until k has finished. */
  lemma OneChunk(k: int, front: seq<Chunk>, c: Chunk, strip: bool)
    ensures var finished, p := Finished({}, front), Only(k, ChoicesOf(c));
      && Actual(k, front + [c], strip)
         == Actual(k, front, strip) + (if Late(finished, ChoicesOf(c)) then [] else Cleaned(p))
      && Expected(k, front + [c]) == Expected(k, front) + (if k in finished then [] else Cleaned(UpTo(p)))
      && (k in finished ==> p == [] || Late(finished, ChoicesOf(c)))
  {
    var finished, p := Finished({}, front), Only(k, ChoicesOf(c));
    ExpectedGrows(k, front, c);
    if k in finished && p != [] {
      assert p[0] in p;
    }
    ActualGrows(k, front, c, strip);
  }

  lemma ExpectedGrows(k: int, front: seq<Chunk>, c: Chunk)
    ensures Expected(k, front + [c])
         == Expected(k, front) + if k in Finished({}, front) then [] else Cleaned(UpTo(Only(k, ChoicesOf(c))))
  {
    var p, a := Only(k, ChoicesOf(c)), Of(k, front);
    OfGrows(k, front, c);
    UpToAppend(a, p);
    FinishedIffTerminal(k, front);
    if k !in Finished({}, front) {
      UpToIsAllWithout(a);
      CleanedAppend(a, UpTo(p));
    }
  }

  lemma UpToIsAllWithout(cs: seq<Choice>)
    requires !HasTerminal(cs)
    ensures UpTo(cs) == cs
  {
    UpToAppend(cs, []);
    assert cs + [] == cs;
  }

  /** The choices of k in what becomes of one chunk. */
  lemma OutcomeChoices(k: int, finished: set<int>, c: Chunk, strip: bool)
    ensures var r := Sanitize(finished, c, strip);
      (if r.Drop? then [] else Only(k, ChoicesOf(r.out)))
      == if Late(finished, ChoicesOf(c)) then [] else Cleaned(Only(k, ChoicesOf(c)))
  {
    if c.Root? && Sanitize(finished, c, strip).Emit? {
      EmittedChoices(finished, c, strip);
      CleanedCommutes(k, ChoicesOf(c));
    }
  }

  lemma ActualGrows(k: int, front: seq<Chunk>, c: Chunk, strip: bool)
    ensures Actual(k, front + [c], strip)
         == Actual(k, front, strip)
            + if Late(Finished({}, front), ChoicesOf(c)) then [] else Cleaned(Only(k, ChoicesOf(c)))
  {
    var all, sent := front + [c], Emitted({}, front, strip);
    assert all[..|front|] == front;
    OutcomeChoices(k, Finished({}, front), c, strip);
    var r := ResultAt({}, all, strip, |front|);
    if r.Emit? {
      OfGrows(k, sent, r.out);
    } else {
      assert Emitted({}, all, strip) == sent + [] == sent;
    }
  }

  // ----- exactness -----

  /** How far what is emitted for k lags behind what is expected, and how far it runs past its
      own first terminal choice. */
  function Lag(k: int, chunks: seq<Chunk>, strip: bool): int {
    |Expected(k, chunks)| - |UpTo(Actual(k, chunks, strip))|
  }

  function Over(k: int, chunks: seq<Chunk>, strip: bool): int {
    |Actual(k, chunks, strip)| - |UpTo(Actual(k, chunks, strip))|
  }

  /** While k is open nothing terminal was emitted for it. */
  lemma {:induction false} OpenMeansNoTerminal(k: int, chunks: seq<Chunk>, strip: bool)
    ensures k !in Finished({}, chunks) ==> !HasTerminal(Actual(k, chunks, strip))
  {
    if chunks != [] {
      var n := |chunks| - 1;
      var front, c := chunks[..n], chunks[n];
      assert chunks == front + [c];
      OpenMeansNoTerminal(k, front, strip);
      OpenAfterOneMore(k, front, c, strip);
    }
  }

  lemma OpenAfterOneMore(k: int, front: seq<Chunk>, c: Chunk, strip: bool)
    requires k !in Finished({}, front) ==> !HasTerminal(Actual(k, front, strip))
    ensures k !in Finished({}, front + [c]) ==> !HasTerminal(Actual(k, front + [c], strip))
  {
    FinishedGrows({}, front, c);
    ActualGrows(k, front, c, strip);
    var sent := Actual(k, front, strip);
    assert sent + [] == sent;
    if k !in Finished({}, front + [c]) {
      StillOpen(k, sent, c);
    }
  }

  /** The choices of a chunk that does not finish k end nothing for it. */
  lemma StillOpen(k: int, sent: seq<Choice>, c: Chunk)
    requires !HasTerminal(sent)
    ensures k !in Ends(ChoicesOf(c)) ==> !HasTerminal(sent + Cleaned(Only(k, ChoicesOf(c))))
  {
    EndsIffTerminal(k, ChoicesOf(c));
    CleanedCommutes(k, Only(k, ChoicesOf(c)));
  }

  /** A choice lost or emitted too much is never made up for. */
  lemma LagAndOverGrow(k: int, front: seq<Chunk>, c: Chunk, strip: bool)
    ensures var finished, p := Finished({}, front), Only(k, ChoicesOf(c));
      && Lag(k, front + [c], strip)
         == Lag(k, front, strip) + (if k !in finished && Late(finished, ChoicesOf(c)) then |UpTo(p)| else 0)
      && Over(k, front + [c], strip)
         == Over(k, front, strip) + (if !Late(finished, ChoicesOf(c)) then |p| - |UpTo(p)| else 0)
  {
    var finished, p := Finished({}, front), Only(k, ChoicesOf(c));
    var e, x := Actual(k, front, strip), Expected(k, front);
    OneChunk(k, front, c, strip);
    OpenMeansNoTerminal(k, front, strip);
    if k in finished || Late(finished, ChoicesOf(c)) {
      assert Actual(k, front + [c], strip) == e;
    } else {
      UpToIsAllWithout(e);
      UpToAppend(e, Cleaned(p));
      CleanedCommutes(k, p);
    }
  }

  lemma {:induction false} LagAndOverStay(k: int, chunks: seq<Chunk>, n: nat, strip: bool)
    requires n <= |chunks|
    ensures 0 <= Lag(k, chunks[..n], strip) <= Lag(k, chunks, strip)
    ensures 0 <= Over(k, chunks[..n], strip) <= Over(k, chunks, strip)
    decreases |chunks|, n
  {
    if n < |chunks| {
      var m := |chunks| - 1;
      assert chunks == chunks[..m] + [chunks[m]];
      assert chunks[..m][..n] == chunks[..n];
      LagAndOverStay(k, chunks[..m], n, strip);
      LagAndOverGrow(k, chunks[..m], chunks[m], strip);
    } else {
      assert chunks[..n] == chunks;
      if n > 0 {
        assert chunks == chunks[..n - 1] + [chunks[n - 1]];
        LagAndOverStay(k, chunks[..n - 1], n - 1, strip);
        assert chunks[..n - 1][..n - 1] == chunks[..n - 1];
        LagAndOverGrow(k, chunks[..n - 1], chunks[n - 1], strip);
      }
    }
  }

  /** Exact exactness: every index gets precisely its choices up to its first terminal one, if and
      only if no chunk mixes late choices with others or continues an index it finishes. */
  lemma ExactIffWhole(chunks: seq<Chunk>, strip: bool)
    ensures WholeStream(chunks) <==> forall k :: Actual(k, chunks, strip) == Expected(k, chunks)
  {
    if WholeStream(chunks) {
      forall k ensures Actual(k, chunks, strip) == Expected(k, chunks) {
        WholeIsExact(k, chunks, strip);
      }
    } else {
      var i := FirstMixed(chunks);
      var k := MixedChunkStays(chunks, i, strip);
    }
  }

  /** The index a mixed chunk goes wrong for stays wrong to the end. */
  lemma MixedChunkStays(chunks: seq<Chunk>, i: nat, strip: bool) returns (k: int)
    requires i < |chunks| && !WholeChunk(Finished({}, chunks[..i]), ChoicesOf(chunks[i]))
    ensures Actual(k, chunks, strip) != Expected(k, chunks)
  {
    k := MixedChunkShows(chunks[..i], chunks[i], strip);
    OneFurther(chunks, i);
    WrongStaysWrong(k, chunks, i + 1, strip);
    EqualMeansNeither(k, chunks, strip);
  }

  lemma OneFurther(chunks: seq<Chunk>, i: nat)
    requires i < |chunks|
    ensures chunks[..i + 1] == chunks[..i] + [chunks[i]]
  {}

  lemma WrongStaysWrong(k: int, chunks: seq<Chunk>, n: nat, strip: bool)
    requires n <= |chunks| && (Lag(k, chunks[..n], strip) > 0 || Over(k, chunks[..n], strip) > 0)
    ensures Lag(k, chunks, strip) != 0 || Over(k, chunks, strip) != 0
  {
    LagAndOverStay(k, chunks, n, strip);
  }

  lemma EqualMeansNeither(k: int, chunks: seq<Chunk>, strip: bool)
    ensures Actual(k, chunks, strip) == Expected(k, chunks) ==> Lag(k, chunks, strip) == Over(k, chunks, strip) == 0
  {
    UpToTwice(k, chunks);
  }

  lemma UpToTwice(k: int, chunks: seq<Chunk>)
    ensures UpTo(Expected(k, chunks)) == Expected(k, chunks)
  {
    var a := Of(k, chunks);
    CleanedCommutes(k, UpTo(a));
    UpToIdempotent(a);
  }

  lemma {:induction false} UpToIdempotent(cs: seq<Choice>)
    ensures UpTo(UpTo(cs)) == UpTo(cs)
  {
    if cs != [] && !Terminal(cs[0]) {
      UpToIdempotent(cs[1..]);
      assert UpTo(cs)[1..] == UpTo(cs[1..]);
    }
  }

  lemma {:induction false} WholeIsExact(k: int, chunks: seq<Chunk>, strip: bool)
    requires WholeStream(chunks)
    ensures Actual(k, chunks, strip) == Expected(k, chunks)
  {
    if chunks != [] {
      var n := |chunks| - 1;
      var front, c := chunks[..n], chunks[n];
      assert chunks == front + [c];
      WholeIsExact(k, front, strip);
      WholeStep(k, front, c, strip);
    } else {
      assert Emitted({}, chunks, strip) == [] && Of(k, []) == [];
    }
  }

  lemma WholeStep(k: int, front: seq<Chunk>, c: Chunk, strip: bool)
    requires Actual(k, front, strip) == Expected(k, front) && WholeChunk(Finished({}, front), ChoicesOf(c))
    ensures Actual(k, front + [c], strip) == Expected(k, front + [c])
  {
    OneChunk(k, front, c, strip);
    WholeChunkAdds(k, Finished({}, front), ChoicesOf(c));
  }

  lemma WholeChunkAdds(k: int, finished: set<int>, cs: seq<Choice>)
    requires WholeChunk(finished, cs)
    ensures var p := Only(k, cs);
      (if Late(finished, cs) then [] else Cleaned(p)) == (if k in finished then [] else Cleaned(UpTo(p)))
  {
    var p := Only(k, cs);
    if forall c | c in cs :: IndexOf(c) in finished {
      if k !in finished {
        assert forall j | 0 <= j < |cs| :: cs[j] in cs;
        NoneOf(k, cs);
      }
      if cs != [] {
        assert cs[0] in cs && Late(finished, cs);
      }
    } else {
      if k in finished {
        assert forall j | 0 <= j < |cs| :: cs[j] in cs;
        NoneOf(k, cs);
      }
      OnlyKeepsOrder(k, cs);
      UpToIsAll(p);
    }
  }

  lemma {:induction false} NoneOf(k: int, cs: seq<Choice>)
    requires forall j | 0 <= j < |cs| :: IndexOf(cs[j]) != k
    ensures Only(k, cs) == []
  {
    if cs != [] {
      NoneOf(k, cs[1..]);
    }
  }

  lemma {:induction false} OnlyKeepsOrder(k: int, cs: seq<Choice>)
    requires forall i, j | 0 <= i < j < |cs| && Terminal(cs[i]) :: IndexOf(cs[j]) != IndexOf(cs[i])
    ensures EndsAtMostLast(Only(k, cs))
  {
    if cs != [] {
      var p, rest := Only(k, cs), Only(k, cs[1..]);
      OnlyKeepsOrder(k, cs[1..]);
      if IndexOf(cs[0]) == k && Terminal(cs[0]) {
        assert forall j | 0 <= j < |cs[1..]| :: IndexOf(cs[1..][j]) == IndexOf(cs[j + 1]) != k;
        NoneOf(k, cs[1..]);
      }
      assert p == (if IndexOf(cs[0]) == k then [cs[0]] else []) + rest;
    }
  }

  /** A chunk that is not whole loses or adds a choice of some index. */
  lemma MixedChunkShows(front: seq<Chunk>, c: Chunk, strip: bool) returns (k: int)
    requires !WholeChunk(Finished({}, front), ChoicesOf(c))
    ensures Lag(k, front + [c], strip) > 0 || Over(k, front + [c], strip) > 0
  {
    var finished, cs := Finished({}, front), ChoicesOf(c);
    if Late(finished, cs) {
      var d :| d in cs && IndexOf(d) !in finished;
      k := IndexOf(d);
      assert d in Only(k, cs);
    } else {
      var i, j :| 0 <= i < j < |cs| && Terminal(cs[i]) && IndexOf(cs[j]) == IndexOf(cs[i]);
      k := IndexOf(cs[i]);
      ContinuedIsCut(k, cs, i, j);
    }
    LagAndOverStay(k, front, |front|, strip);
    assert front[..|front|] == front;
    LagAndOverGrow(k, front, c, strip);
  }

  lemma ContinuedIsCut(k: int, cs: seq<Choice>, i: nat, j: nat)
    requires i < j < |cs| && Terminal(cs[i]) && IndexOf(cs[i]) == IndexOf(cs[j]) == k
    ensures |UpTo(Only(k, cs))| < |Only(k, cs)|
  {
    var keep := (c: Choice) => IndexOf(c) == k;
    var a, b := cs[..i + 1], cs[i + 1..];
    assert cs == a + b;
    FilterAppend(keep, a, b);
    assert a[i] in a && b[j - i - 1] == cs[j] && cs[j] in b;
    assert cs[i] in Only(k, a) && cs[j] in Only(k, b);
    UpToAppend(Only(k, a), Only(k, b));
    var x :| 0 <= x < |Only(k, a)| && Only(k, a)[x] == cs[i];
    assert HasTerminal(Only(k, a));
  }

  /** Chunks that carry at most one choice each, as every provider sends them for one answer,
      are always whole. */
  lemma SingleChoicesAreExact(chunks: seq<Chunk>, strip: bool)
    requires forall c | c in chunks :: |ChoicesOf(c)| <= 1
    ensures forall k :: Actual(k, chunks, strip) == Expected(k, chunks)
  {
    SinglesAreWhole(chunks);
    ExactIffWhole(chunks, strip);
  }

  lemma {:induction false} SinglesAreWhole(chunks: seq<Chunk>)
    requires forall c | c in chunks :: |ChoicesOf(c)| <= 1
    ensures WholeStream(chunks)
  {
    if chunks != [] {
      var n := |chunks| - 1;
      SinglesAreWhole(chunks[..n]);
      assert chunks[n] in chunks;
      var cs := ChoicesOf(chunks[n]);
      assert forall c, d | c in cs && d in cs :: c == d;
    }
  }

  /** A chunk that continues a finished index next to an open one loses the open one's choice. */
  lemma MixedChunkLosesAChoice(strip: bool, c0: Chunk, c1: Chunk, first: Choice, late: Choice, open: Choice)
    requires ChoicesOf(c0) == [first] && ChoicesOf(c1) == [late, open]
    requires IndexOf(first) == IndexOf(late) == 0 && Terminal(first) && IndexOf(open) == 1
    ensures Lag(1, [c0] + [c1], strip) == 1
  {
    FirstFinishes(c0, first);
    OnlyTheOpenOne(late, open);
    OpenOneIsLost([c0], c1, strip, late, open);
    NoLagYet(strip, c0);
  }

  lemma OpenOneIsLost(front: seq<Chunk>, c: Chunk, strip: bool, late: Choice, open: Choice)
    requires ChoicesOf(c) == [late, open] && IndexOf(late) in Finished({}, front) && 1 !in Finished({}, front)
    requires |UpTo(Only(1, [late, open]))| == 1
    ensures Lag(1, front + [c], strip) == Lag(1, front, strip) + 1
  {
    LagAndOverGrow(1, front, c, strip);
    assert late in [late, open];
  }

  lemma NoLagYet(strip: bool, c0: Chunk)
    ensures Lag(1, [c0], strip) == 0
  {
    LagAndOverGrow(1, [], c0, strip);
    assert [] + [c0] == [c0];
    assert Finished({}, []) == {};
    assert !Late({}, ChoicesOf(c0));
    assert Emitted({}, [], strip) == [] && Of(1, []) == [];
  }

  lemma FirstFinishes(c0: Chunk, first: Choice)
    requires ChoicesOf(c0) == [first] && IndexOf(first) == 0 && Terminal(first)
    ensures Finished({}, [c0]) == {0}
  {
    FinishedGrows({}, [], c0);
    assert [] + [c0] == [c0];
    EndsSnoc([], first);
    assert [] + [first] == [first];
  }

  lemma OnlyTheOpenOne(late: Choice, open: Choice)
    requires IndexOf(late) == 0 && IndexOf(open) == 1
    ensures |UpTo(Only(1, [late, open]))| == 1
  {
    NoneOf(1, [late]);
    FilterSnoc((c: Choice) => IndexOf(c) == 1, [late], open);
    assert [late] + [open] == [late, open];
    assert Only(1, [late, open]) == [open];
  }
}
