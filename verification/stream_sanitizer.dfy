/** The OpenAI stream sanitiser (internal/gateway/openai_stream.go): what one chunk becomes,
    given the choice indexes that have already finished. */
module StreamSanitizer {
  import opened GoStrings

  /** As much of a JSON value as the sanitiser looks at. */
  datatype Json = JNull | JString(s: string) | JInt(n: int) | JOther(text: string)

  /** A delta or message: an object with the two spellings of its reasoning, or anything else. */
  datatype Message =
    | Object(reasoning: Option<Json>, reasoningContent: Option<Json>, rest: string)
    | NotObject(text: string)

  datatype Choice = Choice(index: Option<Json>, finishReason: Option<Json>,
                           delta: Option<Message>, message: Option<Message>, rest: string)

  /** A chunk as decodeChatChunk sees it. choices is None when the root has none, or null. */
  datatype Chunk =
    | Undecodable(raw: string)
    | Root(extraFields: bool, usage: Option<Json>, choices: Option<seq<Choice>>, rest: string)

  datatype Action = Forward | RewriteUsage

  datatype Result = Drop | Emit(out: Chunk, action: Action, alias: bool)

  predicate Present(v: Option<Json>) {
    v.Some? && v.value != JNull
  }

  /** streamChoiceIndex: an index that is missing or no Go int is 0. */
  function IndexOf(c: Choice): int {
    match c.index
    case Some(JInt(n)) => if -0x8000_0000_0000_0000 <= n < 0x8000_0000_0000_0000 then n else 0
    case _ => 0
  }

  /** isTerminalStreamFinishReason. */
  predicate Terminal(c: Choice) {
    c.finishReason.Some? && c.finishReason.value.JString? && TrimSpace(c.finishReason.value.s) != ""
  }

  predicate HasAlias(m: Option<Message>) {
    m.Some? && m.value.Object? && Present(m.value.reasoning) && Present(m.value.reasoningContent)
  }

  function WithoutAlias(m: Option<Message>): Option<Message> {
    if HasAlias(m) then Some(m.value.(reasoningContent := None)) else m
  }

  /** A choice as it is emitted: finish_reason present, one spelling of the reasoning. */
  function Clean(c: Choice): Choice {
    c.(finishReason := if c.finishReason.None? then Some(JNull) else c.finishReason,
       delta := WithoutAlias(c.delta), message := WithoutAlias(c.message))
  }

  function Cleaned(cs: seq<Choice>): (r: seq<Choice>)
    ensures |r| == |cs| && forall i | 0 <= i < |cs| :: r[i] == Clean(cs[i])
  {
    if cs == [] then [] else [Clean(cs[0])] + Cleaned(cs[1..])
  }

  function ChoicesOf(c: Chunk): seq<Choice> {
    if c.Root? && c.choices.Some? then c.choices.value else []
  }

  /** The indexes that finish in a run of choices. */
  function Ends(cs: seq<Choice>): set<int> {
    set c | c in cs && Terminal(c) :: IndexOf(c)
  }

  lemma EndsSnoc(cs: seq<Choice>, c: Choice)
    ensures Ends(cs + [c]) == Ends(cs) + if Terminal(c) then {IndexOf(c)} else {}
  {
    assert forall x :: x in cs + [c] <==> x in cs || x == c;
  }

  predicate Late(finished: set<int>, cs: seq<Choice>) {
    exists c | c in cs :: IndexOf(c) in finished
  }

  predicate ChoiceAlias(c: Choice) {
    HasAlias(c.delta) || HasAlias(c.message)
  }

  predicate AnyAlias(cs: seq<Choice>) {
    exists i | 0 <= i < |cs| :: ChoiceAlias(cs[i])
  }

  function WithChoices(c: Chunk, strip: bool, cs: seq<Choice>): Chunk
    requires c.Root?
  {
    c.(extraFields := c.extraFields && !strip, choices := if c.choices.Some? then Some(cs) else None)
  }

  /** What the sanitiser makes of a chunk. */
  function Sanitize(finished: set<int>, c: Chunk, strip: bool): Result {
    if c.Undecodable? then
      if finished != {} then Drop else Emit(c, Forward, false)
    else if !Late(finished, ChoicesOf(c)) then
      Emit(WithChoices(c, strip, Cleaned(ChoicesOf(c))), Forward, AnyAlias(ChoicesOf(c)))
    else if Present(c.usage) then Emit(WithChoices(c, strip, []), RewriteUsage, false)
    else Drop
  }

  // ----- the sanitiser as the source runs it -----

  function TrueKeys(m: map<int, bool>): set<int> {
    set k | k in m && m[k]
  }

  lemma Marked(m: map<int, bool>, k: int)
    ensures TrueKeys(m[k := true]) == TrueKeys(m) + {k}
  {}

  class Sanitizer {
    var finished: map<int, bool>

    ghost function Finished(): set<int>
      reads this
    {
      TrueKeys(finished)
    }

    constructor ()
      ensures Finished() == {}
    {
      finished := map[];
    }

    /** hasAnyFinished. */
    method HasAnyFinished() returns (any: bool)
      ensures any == (Finished() != {})
    {
      any := exists k | k in finished :: finished[k];
      if any {
        ghost var k :| k in finished && finished[k];
        assert k in Finished();
      } else {
        assert forall k :: k !in TrueKeys(finished);
      }
    }

    /** afterFinish. */
    method AfterFinish(choices: seq<Choice>) returns (late: bool)
      ensures late == Late(Finished(), choices)
    {
      for i := 0 to |choices|
        invariant forall c | c in choices[..i] :: IndexOf(c) !in Finished()
      {
        var idx := IndexOf(choices[i]);
        if idx in finished && finished[idx] {
          return true;
        }
      }
      assert choices[..|choices|] == choices;
      late := false;
    }

    /** markFinished. */
    method MarkFinished(choices: seq<Choice>)
      modifies this
      ensures Finished() == old(Finished()) + Ends(choices)
    {
      for i := 0 to |choices|
        invariant Finished() == old(Finished()) + Ends(choices[..i])
      {
        assert choices[..i + 1] == choices[..i] + [choices[i]];
        EndsSnoc(choices[..i], choices[i]);
        if Terminal(choices[i]) {
          Marked(finished, IndexOf(choices[i]));
          finished := finished[IndexOf(choices[i]) := true];
        }
      }
      assert choices[..|choices|] == choices;
    }

    /** sanitizeOpenAIStreamChunk: the chunk is edited step by step and re-encoded only when a
        step changed it. */
    method SanitizeChunk(body: Chunk, strip: bool) returns (r: Result)
      modifies this
      ensures r == Sanitize(old(Finished()), body, strip)
      ensures r.Emit? && body.Root? ==> r.out.Root? && r.out.usage == body.usage && r.out.rest == body.rest
      ensures r.Emit? && body.Root? ==> r.out.extraFields == if strip then false else body.extraFields
      ensures Finished() == old(Finished()) + Ends(ChoicesOf(body))
    {
      if body.Undecodable? {
        var any := HasAnyFinished();
        if any {
          return Drop;
        }
        return Emit(body, Forward, false);
      }
      var chunk := body;
      var choices := ChoicesOf(body);
      var changed := false;
      if strip && chunk.extraFields {
        chunk := chunk.(extraFields := false);
        changed := true;
      }
      var action := Forward;
      var late := AfterFinish(choices);
      MarkFinished(choices);
      if late {
        if !Present(chunk.usage) {
          return Drop;
        }
        choices := [];
        action := RewriteUsage;
        changed := true;
      }
      var filled, alias := false, false;
      ghost var before := choices;
      choices, filled := EnsureFinishReasons(choices);
      changed := changed || filled;
      ghost var between := choices;
      choices, alias := StripAlias(choices);
      EditsClean(before, between, choices, filled, alias);
      if changed || alias {
        if chunk.choices.Some? {
          chunk := chunk.(choices := Some(choices));
        }
        r := Emit(chunk, action, alias);
      } else {
        r := Emit(body, action, alias);
      }
    }
  }

  function Filled(c: Choice): Choice {
    if c.finishReason.None? then c.(finishReason := Some(JNull)) else c
  }

  /** ensureChoiceFinishReasons. */
  method EnsureFinishReasons(choices: seq<Choice>) returns (out: seq<Choice>, changed: bool)
    ensures |out| == |choices| && forall i | 0 <= i < |out| :: out[i] == Filled(choices[i])
    ensures changed == exists i :: 0 <= i < |choices| && choices[i].finishReason.None?
  {
    out, changed := choices, false;
    for i := 0 to |choices|
      invariant |out| == |choices|
      invariant forall j | 0 <= j < i :: out[j] == Filled(choices[j])
      invariant forall j | i <= j < |choices| :: out[j] == choices[j]
      invariant changed == exists j :: 0 <= j < i && choices[j].finishReason.None?
    {
      if out[i].finishReason.Some? {
        continue;
      }
      out := out[i := out[i].(finishReason := Some(JNull))];
      changed := true;
    }
  }

  function Stripped(c: Choice): Choice {
    c.(delta := WithoutAlias(c.delta), message := WithoutAlias(c.message))
  }

  /** stripDualReasoningAlias. */
  method StripAlias(choices: seq<Choice>) returns (out: seq<Choice>, changed: bool)
    ensures |out| == |choices| && forall i | 0 <= i < |out| :: out[i] == Stripped(choices[i])
    ensures changed == AnyAlias(choices)
  {
    out, changed := choices, false;
    for i := 0 to |choices|
      invariant |out| == |choices|
      invariant forall j | 0 <= j < i :: out[j] == Stripped(choices[j])
      invariant forall j | i <= j < |choices| :: out[j] == choices[j]
      invariant changed == exists j :: 0 <= j < i && ChoiceAlias(choices[j])
    {
      if HasAlias(out[i].delta) {
        out := out[i := out[i].(delta := Some(out[i].delta.value.(reasoningContent := None)))];
        changed := true;
      }
      if HasAlias(out[i].message) {
        out := out[i := out[i].(message := Some(out[i].message.value.(reasoningContent := None)))];
        changed := true;
      }
    }
  }

  /** The two edits together clean every choice, and report exactly whether one changed. */
  lemma EditsClean(before: seq<Choice>, between: seq<Choice>, after: seq<Choice>, filled: bool, alias: bool)
    requires |before| == |between| == |after|
    requires forall i | 0 <= i < |before| :: between[i] == Filled(before[i])
    requires forall i | 0 <= i < |before| :: after[i] == Stripped(between[i])
    requires filled == exists i :: 0 <= i < |before| && before[i].finishReason.None?
    requires alias == AnyAlias(between)
    ensures after == Cleaned(before) && alias == AnyAlias(before)
    ensures !filled && !alias ==> after == before
  {
    assert forall i | 0 <= i < |before| :: ChoiceAlias(between[i]) == ChoiceAlias(before[i]);
    assert forall i | 0 <= i < |before| :: after[i] == Clean(before[i]);
    if !filled && !alias {
      forall i | 0 <= i < |before| ensures after[i] == before[i] {
        assert !ChoiceAlias(before[i]) && before[i].finishReason.Some?;
      }
    }
  }
}
