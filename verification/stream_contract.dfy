/** What a client reads of a sanitised stream, said of the JSON fields of the chunks that came in. */
module StreamContract {
  import opened GoStrings
  import opened StreamSanitizer
  import opened StreamRuns

  predicate FitsInt64(n: int) {
    -0x8000_0000_0000_0000 <= n <= 0x7FFF_FFFF_FFFF_FFFF
  }

  /** A choice says its index, and one that says none, or no Go int, belongs to index 0. */
  predicate BelongsTo(c: Choice, k: int) {
    if c.index.Some? && c.index.value.JInt? && FitsInt64(c.index.value.n) then k == c.index.value.n else k == 0
  }

  predicate SaysFinished(c: Choice) {
    c.finishReason.Some? && c.finishReason.value.JString? && !AllSpace(c.finishReason.value.s)
  }

  predicate BothSpellings(m: Option<Message>) {
    && m.Some? && m.value.Object?
    && m.value.reasoning.Some? && m.value.reasoning != Some(JNull)
    && m.value.reasoningContent.Some? && m.value.reasoningContent != Some(JNull)
  }

  predicate HasChoice(chunk: Chunk, c: Choice) {
    chunk.Root? && chunk.choices.Some? && c in chunk.choices.value
  }

  predicate SaysUsage(chunk: Chunk) {
    chunk.Root? && chunk.usage.Some? && !chunk.usage.value.JNull?
  }

  /** Index k finished in one of the first j chunks. */
  ghost predicate FinishedBefore(chunks: seq<Chunk>, j: nat, k: int)
    requires j <= |chunks|
  {
    exists i, c :: 0 <= i < j && HasChoice(chunks[i], c) && BelongsTo(c, k) && SaysFinished(c)
  }

  /** Chunk j has a choice of an index that finished before. */
  ghost predicate Continues(chunks: seq<Chunk>, j: nat)
    requires j < |chunks|
  {
    exists c, k :: HasChoice(chunks[j], c) && BelongsTo(c, k) && FinishedBefore(chunks, j, k)
  }

  /** A client gets nothing of chunk j. */
  ghost predicate Lost(chunks: seq<Chunk>, j: nat)
    requires j < |chunks|
  {
    if chunks[j].Undecodable? then exists k :: FinishedBefore(chunks, j, k)
    else Continues(chunks, j) && !SaysUsage(chunks[j])
  }

  /** The reasoning is there once: where both spellings were, the alias is gone. */
  predicate MessageKept(m: Option<Message>, out: Option<Message>) {
    if BothSpellings(m) then
      && out.Some? && out.value.Object? && out.value.reasoningContent.None?
      && out.value.reasoning == m.value.reasoning && out.value.rest == m.value.rest
    else out == m
  }

  /** All of a choice comes out, with a finish reason, null where it had none. */
  predicate ChoiceKept(c: Choice, out: Choice) {
    && out.index == c.index && out.rest == c.rest
    && MessageKept(c.delta, out.delta) && MessageKept(c.message, out.message)
    && (c.finishReason.Some? ==> out.finishReason == c.finishReason)
    && (c.finishReason.None? ==> out.finishReason == Some(JNull))
  }

  predicate ChoicesKept(cs: Option<seq<Choice>>, out: Option<seq<Choice>>) {
    && (cs.Some? <==> out.Some?)
    && (cs.Some? ==>
          |out.value| == |cs.value| && forall i | 0 <= i < |cs.value| :: ChoiceKept(cs.value[i], out.value[i]))
  }

  predicate RootKept(chunk: Chunk, out: Chunk, strip: bool)
    requires chunk.Root?
  {
    out.Root? && out.usage == chunk.usage && out.rest == chunk.rest
    && (strip ==> !out.extraFields) && (!strip ==> out.extraFields == chunk.extraFields)
  }

  /** What a client gets of chunk j: all of it, or, past the end of an index, all but choices. */
  ghost predicate Becomes(chunks: seq<Chunk>, j: nat, out: Chunk, strip: bool)
    requires j < |chunks|
  {
    if chunks[j].Undecodable? then out == chunks[j]
    else
      && RootKept(chunks[j], out, strip)
      && if Continues(chunks, j) then out.choices == Some([]) else ChoicesKept(chunks[j].choices, out.choices)
  }

  // ----- what the sanitiser calls these -----

  lemma FinishesIffTerminal(c: Choice)
    ensures Terminal(c) <==> SaysFinished(c)
  {
    if c.finishReason.Some? && c.finishReason.value.JString? {
      BlankIffTrimmedAway(c.finishReason.value.s);
    }
  }

  lemma FinishedBeforeIff(chunks: seq<Chunk>, j: nat, k: int)
    requires j <= |chunks|
    ensures FinishedBefore(chunks, j, k) <==> EarlierEnd(chunks, j, k)
  {
    forall c ensures Terminal(c) <==> SaysFinished(c) {
      FinishesIffTerminal(c);
    }
    forall i | 0 <= i < j
      ensures k in Ends(ChoicesOf(chunks[i])) <==>
        exists c :: HasChoice(chunks[i], c) && BelongsTo(c, k) && SaysFinished(c)
    {
      assert forall c :: HasChoice(chunks[i], c) <==> c in ChoicesOf(chunks[i]);
    }
  }

  lemma FinishedIsBefore(chunks: seq<Chunk>, j: nat)
    requires j <= |chunks|
    ensures forall k :: k in Finished({}, chunks[..j]) <==> FinishedBefore(chunks, j, k)
  {
    FinishedByThen(chunks, j);
    forall k ensures FinishedBefore(chunks, j, k) <==> EarlierEnd(chunks, j, k) {
      FinishedBeforeIff(chunks, j, k);
    }
  }

  lemma LateIffContinues(chunks: seq<Chunk>, j: nat)
    requires j < |chunks|
    ensures Late(Finished({}, chunks[..j]), ChoicesOf(chunks[j])) <==> Continues(chunks, j)
  {
    FinishedIsBefore(chunks, j);
    if c :| c in ChoicesOf(chunks[j]) && IndexOf(c) in Finished({}, chunks[..j]) {
      assert HasChoice(chunks[j], c) && BelongsTo(c, IndexOf(c)) && FinishedBefore(chunks, j, IndexOf(c));
    }
  }

  lemma NothingFinishedIff(chunks: seq<Chunk>, j: nat)
    requires j <= |chunks|
    ensures Finished({}, chunks[..j]) != {} <==> exists k :: FinishedBefore(chunks, j, k)
  {
    FinishedIsBefore(chunks, j);
    if Finished({}, chunks[..j]) != {} {
      var k := Member(Finished({}, chunks[..j]));
    }
  }

  lemma CleanIsKept(c: Choice)
    ensures ChoiceKept(c, Clean(c))
  {}

  lemma CleanedIsKept(chunk: Chunk, strip: bool)
    requires chunk.Root?
    ensures var out := WithChoices(chunk, strip, Cleaned(ChoicesOf(chunk)));
      RootKept(chunk, out, strip) && ChoicesKept(chunk.choices, out.choices)
  {
    forall c ensures ChoiceKept(c, Clean(c)) {
      CleanIsKept(c);
    }
  }

  /** One chunk in its stream: lost or emitted, as what, and what is reported of it. */
  lemma ResultSays(chunks: seq<Chunk>, strip: bool, j: nat)
    requires j < |chunks|
    ensures var r := ResultAt({}, chunks, strip, j);
      && (r.Drop? <==> Lost(chunks, j))
      && (r.Emit? ==> Becomes(chunks, j, r.out, strip))
      && (r.Emit? ==> (r.action.RewriteUsage? <==> Continues(chunks, j)))
      && (r.Emit? ==> (r.alias <==> !Continues(chunks, j) && exists c ::
            HasChoice(chunks[j], c) && (BothSpellings(c.delta) || BothSpellings(c.message))))
  {
    LateIffContinues(chunks, j);
    NothingFinishedIff(chunks, j);
    if chunks[j].Root? {
      CleanedIsKept(chunks[j], strip);
      AliasReported(chunks[j]);
    } else {
      assert !Continues(chunks, j);
    }
  }

  lemma AliasReported(chunk: Chunk)
    ensures AnyAlias(ChoicesOf(chunk)) <==>
      exists c :: HasChoice(chunk, c) && (BothSpellings(c.delta) || BothSpellings(c.message))
  {
    var cs := ChoicesOf(chunk);
    forall i | 0 <= i < |cs|
      ensures ChoiceAlias(cs[i]) <==> BothSpellings(cs[i].delta) || BothSpellings(cs[i].message)
    {}
    if i :| 0 <= i < |cs| && ChoiceAlias(cs[i]) {
      assert HasChoice(chunk, cs[i]);
    }
    if c :| HasChoice(chunk, c) && (BothSpellings(c.delta) || BothSpellings(c.message)) {
      var i :| 0 <= i < |cs| && cs[i] == c;
      assert ChoiceAlias(cs[i]);
    }
  }

  // ----- whole streams -----

  predicate Increasing(from: seq<nat>) {
    forall i, j | 0 <= i < j < |from| :: from[i] < from[j]
  }

  /** The chunks emitted are those at these positions, in order. */
  predicate EmittedAt(from: seq<nat>, emitted: seq<Chunk>, results: seq<Result>) {
    && |from| == |emitted| && Increasing(from)
    && (forall j | 0 <= j < |from| ::
          from[j] < |results| && results[from[j]].Emit? && results[from[j]].out == emitted[j])
    && (forall i: nat | i < |results| && i !in from :: results[i].Drop?)
  }

  lemma OneMoreResult(from: seq<nat>, emitted: seq<Chunk>, results: seq<Result>, r: Result) returns (more: seq<nat>)
    requires EmittedAt(from, emitted, results)
    ensures EmittedAt(more, emitted + Outcome(r), results + [r])
  {
    if r.Emit? {
      more := from + [|results|];
      OneMoreEmitted(from, emitted, results, r);
    } else {
      more := from;
      assert emitted + Outcome(r) == emitted;
      assert forall i: nat | i < |results| + 1 && i !in from :: (results + [r])[i].Drop?;
    }
  }

  lemma OneMoreEmitted(from: seq<nat>, emitted: seq<Chunk>, results: seq<Result>, r: Result)
    requires EmittedAt(from, emitted, results) && r.Emit?
    ensures EmittedAt(from + [|results|], emitted + [r.out], results + [r])
  {
    var more, all := from + [|results|], results + [r];
    assert forall i :: i in more <==> i in from || i == |results|;
    forall i: nat | i < |all| && i !in more ensures all[i].Drop? {
      assert all[i] == results[i];
    }
  }

  /** What becomes of each chunk. */
  function ResultsOf(chunks: seq<Chunk>, strip: bool): (rs: seq<Result>)
    ensures |rs| == |chunks| && forall i | 0 <= i < |rs| :: rs[i] == ResultAt({}, chunks, strip, i)
  {
    seq(|chunks|, i requires 0 <= i < |chunks| => ResultAt({}, chunks, strip, i))
  }

  lemma ResultsGrow(chunks: seq<Chunk>, strip: bool)
    requires chunks != []
    ensures var n := |chunks| - 1;
      ResultsOf(chunks, strip) == ResultsOf(chunks[..n], strip) + [ResultAt({}, chunks, strip, n)]
  {
    var n := |chunks| - 1;
    forall i | 0 <= i < n ensures ResultsOf(chunks, strip)[i] == ResultsOf(chunks[..n], strip)[i] {
      assert chunks[..n][..i] == chunks[..i];
    }
  }

  lemma {:induction false} EmittedFrom(chunks: seq<Chunk>, strip: bool) returns (from: seq<nat>)
    ensures EmittedAt(from, Emitted({}, chunks, strip), ResultsOf(chunks, strip))
  {
    if chunks == [] {
      from := [];
    } else {
      var n := |chunks| - 1;
      var before := EmittedFrom(chunks[..n], strip);
      from := OneMoreResult(before, Emitted({}, chunks[..n], strip), ResultsOf(chunks[..n], strip),
                            ResultAt({}, chunks, strip, n));
      ResultsGrow(chunks, strip);
    }
  }

  /** A sanitised stream, whole: chunk by chunk, in order, each chunk of the input comes out as
      Becomes says, but for those that are Lost. */
  lemma StreamSays(chunks: seq<Chunk>, strip: bool) returns (from: seq<nat>)
    ensures |from| == |Emitted({}, chunks, strip)| && Increasing(from)
    ensures forall j | 0 <= j < |from| ::
              from[j] < |chunks| && Becomes(chunks, from[j], Emitted({}, chunks, strip)[j], strip)
    ensures forall i: nat | i < |chunks| :: i in from <==> !Lost(chunks, i)
  {
    from := EmittedFrom(chunks, strip);
    forall i: nat | i < |chunks|
      ensures ResultAt({}, chunks, strip, i).Drop? <==> Lost(chunks, i)
      ensures var r := ResultAt({}, chunks, strip, i); r.Emit? ==> Becomes(chunks, i, r.out, strip)
    {
      ResultSays(chunks, strip, i);
    }
  }

  /** Driving the sanitiser object over a stream gives that: the chunks at `from`, in order, and
      nothing of the others. */
  method SanitizeStream(chunks: seq<Chunk>, strip: bool) returns (out: seq<Chunk>, ghost from: seq<nat>)
    ensures out == Emitted({}, chunks, strip)
    ensures |from| == |out| && Increasing(from)
    ensures forall j | 0 <= j < |out| :: from[j] < |chunks| && Becomes(chunks, from[j], out[j], strip)
    ensures forall i: nat | i < |chunks| :: i in from <==> !Lost(chunks, i)
  {
    var st := new Sanitizer();
    out := [];
    for i := 0 to |chunks|
      invariant fresh(st)
      invariant st.Finished() == Finished({}, chunks[..i])
      invariant out == Emitted({}, chunks[..i], strip)
    {
      assert chunks[..i + 1][..i] == chunks[..i];
      var r := st.SanitizeChunk(chunks[i], strip);
      if r.Emit? {
        out := out + [r.out];
      }
    }
    assert chunks[..|chunks|] == chunks;
    from := StreamSays(chunks, strip);
  }

  /** Bifrost's extra fields never reach a client that is not to see them. */
  lemma NoExtraFields(chunks: seq<Chunk>)
    ensures forall c | c in Emitted({}, chunks, true) :: c.Root? ==> !c.extraFields
  {
    var from := StreamSays(chunks, true);
    var e := Emitted({}, chunks, true);
    forall j | 0 <= j < |e| && e[j].Root? ensures !e[j].extraFields {
      assert Becomes(chunks, from[j], e[j], true);
    }
  }
}
