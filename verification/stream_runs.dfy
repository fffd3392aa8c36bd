/** Whole streams through the sanitiser: what no run ever emits, why a second sanitiser
    changes nothing, and exactly when every choice comes out as it should. */
module StreamRuns {
  import opened GoStrings
  import opened StreamSanitizer

  /** The indexes that finish in a run of chunks, whether or not those chunks are emitted. */
  function Finished(start: set<int>, chunks: seq<Chunk>): set<int> {
    if chunks == [] then start
    else Finished(start, chunks[..|chunks| - 1]) + Ends(ChoicesOf(chunks[|chunks| - 1]))
  }

  /** What a sanitiser that starts with `start` finished makes of chunk i of a stream. */
  function ResultAt(start: set<int>, chunks: seq<Chunk>, strip: bool, i: nat): Result
    requires i < |chunks|
  {
    Sanitize(Finished(start, chunks[..i]), chunks[i], strip)
  }

  function Outcome(r: Result): seq<Chunk> {
    if r.Drop? then [] else [r.out]
  }

  /** The emitted stream. */
  function Emitted(start: set<int>, chunks: seq<Chunk>, strip: bool): seq<Chunk> {
    if chunks == [] then []
    else
      var n := |chunks| - 1;
      Emitted(start, chunks[..n], strip) + Outcome(ResultAt(start, chunks, strip, n))
  }

  // ----- cleaning a choice -----

  lemma CleanIsIdempotent(c: Choice)
    ensures Clean(Clean(c)) == Clean(c)
    ensures !ChoiceAlias(Clean(c))
    ensures Terminal(Clean(c)) == Terminal(c) && IndexOf(Clean(c)) == IndexOf(c)
  {}

  lemma {:induction false} CleanedFacts(cs: seq<Choice>, finished: set<int>)
    ensures Cleaned(Cleaned(cs)) == Cleaned(cs) && !AnyAlias(Cleaned(cs))
    ensures Ends(Cleaned(cs)) == Ends(cs)
    ensures Late(finished, Cleaned(cs)) == Late(finished, cs)
  {
    if cs != [] {
      CleanIsIdempotent(cs[0]);
      CleanedFacts(cs[1..], finished);
      Cons(cs[0], cs[1..], finished);
      Cons(Clean(cs[0]), Cleaned(cs[1..]), finished);
      assert cs == [cs[0]] + cs[1..];
      assert forall i | 0 < i < |cs| :: Cleaned(cs)[i] == Cleaned(cs[1..])[i - 1];
    }
  }

  lemma Cons(c: Choice, cs: seq<Choice>, finished: set<int>)
    ensures Ends([c] + cs) == Ends(cs) + if Terminal(c) then {IndexOf(c)} else {}
    ensures Late(finished, [c] + cs) <==> IndexOf(c) in finished || Late(finished, cs)
  {
    assert forall x :: x in [c] + cs <==> x == c || x in cs;
  }

  // ----- idempotence -----

  lemma FinishedGrows(start: set<int>, chunks: seq<Chunk>, c: Chunk)
    ensures Finished(start, chunks + [c]) == Finished(start, chunks) + Ends(ChoicesOf(c))
  {
    assert (chunks + [c])[..|chunks|] == chunks;
  }

  /** What a chunk that is emitted carries: its own choices cleaned, or, late, none. */
  lemma EmittedChoices(finished: set<int>, c: Chunk, strip: bool)
    requires c.Root? && Sanitize(finished, c, strip).Emit?
    ensures var out := Sanitize(finished, c, strip).out;
      out.Root? && ChoicesOf(out) == if Late(finished, ChoicesOf(c)) then [] else Cleaned(ChoicesOf(c))
  {}

  /** The indexes a second sanitiser sees finish are among those the first saw. */
  lemma {:induction false} SecondSeesNoMore(chunks: seq<Chunk>, strip: bool)
    ensures Finished({}, Emitted({}, chunks, strip)) <= Finished({}, chunks)
  {
    if chunks != [] {
      var n := |chunks| - 1;
      var front, r := Emitted({}, chunks[..n], strip), ResultAt({}, chunks, strip, n);
      SecondSeesNoMore(chunks[..n], strip);
      if r.Emit? {
        FinishedGrows({}, front, r.out);
        if chunks[n].Root? {
          EmittedChoices(Finished({}, chunks[..n]), chunks[n], strip);
          CleanedFacts(ChoicesOf(chunks[n]), {});
          assert Ends([]) == {};
        }
      } else {
        assert Emitted({}, chunks, strip) == front;
      }
    }
  }

  /** A sanitiser that saw no more indexes finish forwards an emitted chunk as it is. */
  lemma SecondForwards(first: set<int>, second: set<int>, c: Chunk, strip: bool)
    requires second <= first && Sanitize(first, c, strip).Emit?
    ensures var out := Sanitize(first, c, strip).out; Sanitize(second, out, strip) == Emit(out, Forward, false)
  {
    if c.Root? {
      EmittedChoices(first, c, strip);
      CleanedFacts(ChoicesOf(c), second);
    }
  }

  /** Sanitising twice is sanitising once: a fresh sanitiser forwards every chunk of a
      sanitised stream, unchanged and without an intervention. */
  lemma {:induction false} SanitisingIsIdempotent(chunks: seq<Chunk>, strip: bool)
    ensures var once := Emitted({}, chunks, strip);
      && Emitted({}, once, strip) == once
      && forall i | 0 <= i < |once| :: ResultAt({}, once, strip, i) == Emit(once[i], Forward, false)
  {
    if chunks != [] {
      var n := |chunks| - 1;
      var front, r := Emitted({}, chunks[..n], strip), ResultAt({}, chunks, strip, n);
      SanitisingIsIdempotent(chunks[..n], strip);
      if r.Emit? {
        SecondSeesNoMore(chunks[..n], strip);
        SecondForwards(Finished({}, chunks[..n]), Finished({}, front), chunks[n], strip);
        OneMore(front, r.out, strip);
      } else {
        assert Emitted({}, chunks, strip) == front;
      }
    }
  }

  lemma OneMore(front: seq<Chunk>, c: Chunk, strip: bool)
    requires Emitted({}, front, strip) == front
    requires forall i | 0 <= i < |front| :: ResultAt({}, front, strip, i) == Emit(front[i], Forward, false)
    requires Sanitize(Finished({}, front), c, strip) == Emit(c, Forward, false)
    ensures var all := front + [c];
      && Emitted({}, all, strip) == all
      && forall i | 0 <= i < |all| :: ResultAt({}, all, strip, i) == Emit(all[i], Forward, false)
  {
    var all := front + [c];
    LastResult(front, c, strip);
    forall i | 0 <= i < |front| ensures ResultAt({}, all, strip, i) == Emit(all[i], Forward, false) {
      EarlierResult(front, c, strip, i);
    }
  }

  lemma EarlierResult(front: seq<Chunk>, c: Chunk, strip: bool, i: nat)
    requires i < |front|
    ensures ResultAt({}, front + [c], strip, i) == ResultAt({}, front, strip, i)
  {
    assert (front + [c])[..i] == front[..i];
  }

  lemma LastResult(front: seq<Chunk>, c: Chunk, strip: bool)
    ensures var r := Sanitize(Finished({}, front), c, strip);
      && ResultAt({}, front + [c], strip, |front|) == r
      && Emitted({}, front + [c], strip) == Emitted({}, front, strip) + Outcome(r)
  {
    assert (front + [c])[..|front|] == front;
  }

  // ----- safety -----

  /** The indexes finished by position j, said without the sanitiser's state. */
  lemma {:induction false} FinishedIsSeen(start: set<int>, chunks: seq<Chunk>, k: int)
    ensures k in Finished(start, chunks) <==>
      k in start || exists i :: 0 <= i < |chunks| && k in Ends(ChoicesOf(chunks[i]))
  {
    if chunks != [] {
      var n := |chunks| - 1;
      FinishedIsSeen(start, chunks[..n], k);
      if i :| 0 <= i < n && k in Ends(ChoicesOf(chunks[i])) {
        assert chunks[..n][i] == chunks[i];
      }
    }
  }

  predicate EarlierEnd(chunks: seq<Chunk>, j: nat, k: int)
    requires j <= |chunks|
  {
    exists i | 0 <= i < j :: k in Ends(ChoicesOf(chunks[i]))
  }

  lemma FinishedByThen(chunks: seq<Chunk>, j: nat)
    requires j <= |chunks|
    ensures forall k :: k in Finished({}, chunks[..j]) <==> EarlierEnd(chunks, j, k)
  {
    forall k ensures k in Finished({}, chunks[..j]) <==> EarlierEnd(chunks, j, k) {
      FinishedIsSeen({}, chunks[..j], k);
      assert forall i | 0 <= i < j :: chunks[..j][i] == chunks[i];
    }
  }

  /** Exactly which chunks of a stream are dropped: an undecodable one after some index
      finished, and one without usage that carries a choice of an index that finished in an
      earlier chunk. */
  lemma DroppedExactly(chunks: seq<Chunk>, strip: bool, j: nat)
    requires j < |chunks|
    ensures ResultAt({}, chunks, strip, j).Drop? <==>
      if chunks[j].Undecodable? then exists k :: EarlierEnd(chunks, j, k)
      else !Present(chunks[j].usage) && exists c :: c in ChoicesOf(chunks[j]) && EarlierEnd(chunks, j, IndexOf(c))
  {
    FinishedByThen(chunks, j);
    if Finished({}, chunks[..j]) != {} {
      var k := Member(Finished({}, chunks[..j]));
    }
  }

  /** Whole-stream safety of what is emitted: a choice never follows, in a later chunk, the
      terminal choice of its index, so at most one chunk is terminal for an index; and no
      undecodable chunk follows a terminal one. */
  lemma NothingAfterFinish(chunks: seq<Chunk>, strip: bool, i: nat, j: nat)
    requires i < j < |Emitted({}, chunks, strip)|
    ensures var e := Emitted({}, chunks, strip);
      && (forall c | c in ChoicesOf(e[j]) :: IndexOf(c) !in Ends(ChoicesOf(e[i])))
      && Ends(ChoicesOf(e[i])) !! Ends(ChoicesOf(e[j]))
      && (Ends(ChoicesOf(e[i])) != {} ==> e[j].Root?)
  {
    var once := Emitted({}, chunks, strip);
    SanitisingIsIdempotent(chunks, strip);
    assert ResultAt({}, once, strip, j) == Emit(once[j], Forward, false);
    ForwardedIsNotLate(once, strip, i, j);
  }

  lemma ForwardedIsNotLate(e: seq<Chunk>, strip: bool, i: nat, j: nat)
    requires i < j < |e| && ResultAt({}, e, strip, j) == Emit(e[j], Forward, false)
    ensures forall c | c in ChoicesOf(e[j]) :: IndexOf(c) !in Ends(ChoicesOf(e[i]))
    ensures Ends(ChoicesOf(e[i])) != {} ==> e[j].Root?
  {
    FinishedByThen(e, j);
    var seen := Finished({}, e[..j]);
    if Ends(ChoicesOf(e[i])) != {} {
      var k := Member(Ends(ChoicesOf(e[i])));
    }
    assert forall k | k in Ends(ChoicesOf(e[i])) :: EarlierEnd(e, j, k) && k in seen;
    assert e[j].Root? ==> !Late(seen, ChoicesOf(e[j]));
  }

  function UsageOf(c: Chunk): seq<Json> {
    if c.Root? && Present(c.usage) then [c.usage.value] else []
  }

  function Usages(chunks: seq<Chunk>): seq<Json> {
    if chunks == [] then [] else Usages(chunks[..|chunks| - 1]) + UsageOf(chunks[|chunks| - 1])
  }

  lemma UsagesGrow(front: seq<Chunk>, c: Chunk)
    ensures Usages(front + [c]) == Usages(front) + UsageOf(c)
  {
    assert (front + [c])[..|front|] == front;
  }

  lemma OutcomeKeepsUsage(finished: set<int>, c: Chunk, strip: bool)
    ensures var r := Sanitize(finished, c, strip); UsageOf(c) == if r.Drop? then [] else UsageOf(r.out)
  {}

  /** No usage is lost, added or reordered. */
  lemma {:induction false} UsageIsConserved(start: set<int>, chunks: seq<Chunk>, strip: bool)
    ensures Usages(Emitted(start, chunks, strip)) == Usages(chunks)
  {
    if chunks != [] {
      var n := |chunks| - 1;
      var front, r := Emitted(start, chunks[..n], strip), ResultAt(start, chunks, strip, n);
      UsageIsConserved(start, chunks[..n], strip);
      OutcomeKeepsUsage(Finished(start, chunks[..n]), chunks[n], strip);
      if r.Emit? {
        UsagesGrow(front, r.out);
      } else {
        assert front + Outcome(r) == front;
      }
    }
  }
}
