/** Checking a batch input file (internal/batch/jsonl.go): one request to a line, all for one
    endpoint and one model, each with an id of its own. */
module BatchInput {
  import opened GoStrings
  import opened BatchJsonl

  const CHAT_COMPLETIONS := "/v1/chat/completions"
  const EMBEDDINGS := "/v1/embeddings"

  /** A request body: not a JSON object, or what the checks look at in one. The model is none
      when it is not a string, and "" when it is missing; streams says that stream is true. */
  datatype Body = Malformed | Object(model: Option<string>, streams: bool, messages: bool, input: bool)

  datatype InputLine = InputLine(customId: string, httpMethod: string, url: string, body: Body)

  /** json.Unmarshal of one line. */
  type Decoder = string -> Option<InputLine>

  /** strings.ToUpper as far as ASCII results go: two letters outside ASCII become ASCII ones. */
  function ToUpperChar(c: char): char {
    if 'a' <= c <= 'z' then ((c as int) - 32) as char
    else if c == '\U{17F}' then 'S'
    else if c == '\U{131}' then 'I'
    else c
  }

  predicate IsPost(m: string) {
    var t := TrimSpace(m);
    && |t| == 4
    && ToUpperChar(t[0]) == 'P' && ToUpperChar(t[1]) == 'O' && ToUpperChar(t[2]) == 'S' && ToUpperChar(t[3]) == 'T'
  }

  predicate KnownEndpoint(endpoint: string) {
    endpoint == CHAT_COMPLETIONS || endpoint == EMBEDDINGS
  }

  /** extractModelFromBody. */
  function ModelOf(body: Body): (m: Option<string>)
    ensures m.Some? ==> m.value != "" && body.Object?
  {
    if body.Malformed? || body.model.None? || TrimSpace(body.model.value) == "" then None
    else Some(TrimSpace(body.model.value))
  }

  /** validateBodyForEndpoint. */
  predicate BodyOk(endpoint: string, body: Body) {
    body.Object? && !body.streams
    && (endpoint == CHAT_COMPLETIONS ==> body.messages) && (endpoint == EMBEDDINGS ==> body.input)
  }

  /** POST in any case: a long s counts as an S, as it does for Go. */
  predicate SpellsPost(t: string) {
    |t| == 4 && t[0] in "Pp" && t[1] in "Oo" && (t[2] in "Ss" || t[2] == '\U{17F}') && t[3] in "Tt"
  }

  /** A line that is right by itself: it decodes, has an id, posts to the endpoint, and its body
      names a model, has what the endpoint needs and does not stream. */
  predicate LineOk(endpoint: string, line: Option<InputLine>) {
    && line.Some? && !AllSpace(line.value.customId) && SpellsPost(TrimSpace(line.value.httpMethod))
    && TrimSpace(line.value.url) == endpoint
    && line.value.body.Object? && line.value.body.model.Some? && !AllSpace(line.value.body.model.value)
    && !line.value.body.streams
    && (endpoint == "/v1/chat/completions" ==> line.value.body.messages)
    && (endpoint == "/v1/embeddings" ==> line.value.body.input)
  }

  /** A file's lines are right together: each by itself, with one model and different ids. */
  predicate Acceptable(endpoint: string, lines: seq<Option<InputLine>>) {
    && (forall i | 0 <= i < |lines| :: LineOk(endpoint, lines[i]))
    && (forall i, j | 0 <= i < j < |lines| ::
          TrimSpace(lines[i].value.body.model.value) == TrimSpace(lines[j].value.body.model.value)
          && TrimSpace(lines[i].value.customId) != TrimSpace(lines[j].value.customId))
  }

  /** The checks of one line come to that. */
  lemma LineOkIff(endpoint: string, line: InputLine)
    ensures LineOk(endpoint, Some(line)) <==>
      && TrimSpace(line.customId) != "" && IsPost(line.httpMethod) && TrimSpace(line.url) == endpoint
      && ModelOf(line.body).Some? && BodyOk(endpoint, line.body)
    ensures ModelOf(line.body).Some? ==>
              line.body.model.Some? && ModelOf(line.body).value == TrimSpace(line.body.model.value)
  {
    BlankIffTrimmedAway(line.customId);
    if line.body.Object? && line.body.model.Some? {
      BlankIffTrimmedAway(line.body.model.value);
    }
  }

  function Decode(lines: seq<string>, decode: Decoder): (r: seq<Option<InputLine>>)
    ensures |r| == |lines| && forall i | 0 <= i < |lines| :: r[i] == decode(lines[i])
  {
    seq(|lines|, i requires 0 <= i < |lines| => decode(lines[i]))
  }

  datatype ParsedInput = ParsedInput(endpoint: string, model: string, lines: seq<InputLine>)

  /** A line is numbered from 1. */
  datatype Parsed = Ok(input: ParsedInput) | UnsupportedEndpoint | EmptyInput | BadLine(number: nat)

  /** ParseBatchJSONL accepts a file exactly when its lines are right together, whatever the order
      of its checks, and otherwise names the first line that spoils the lines up to it. What it
      returns is every line in order, ids trimmed, with the model of them all. */
  method ParseBatchJSONL(raw: string, rawEndpoint: string, decode: Decoder) returns (r: Parsed)
    ensures var endpoint := TrimSpace(rawEndpoint); var lines := Decode(Split(raw), decode);
      && (r.UnsupportedEndpoint? <==> endpoint != "/v1/chat/completions" && endpoint != "/v1/embeddings")
      && (r.EmptyInput? <==> !r.UnsupportedEndpoint? && lines == [])
      && (r.Ok? <==> !r.UnsupportedEndpoint? && lines != [] && Acceptable(endpoint, lines))
      && (r.BadLine? ==>
            && 0 < r.number <= |lines|
            && Acceptable(endpoint, lines[..r.number - 1]) && !Acceptable(endpoint, lines[..r.number]))
      && (r.Ok? ==>
            && r.input.endpoint == endpoint && |r.input.lines| == |lines|
            && forall i | 0 <= i < |lines| ::
                 && r.input.lines[i] == lines[i].value.(customId := TrimSpace(lines[i].value.customId))
                 && TrimSpace(lines[i].value.body.model.value) == r.input.model)
  {
    var endpoint := TrimSpace(rawEndpoint);
    if !KnownEndpoint(endpoint) {
      return UnsupportedEndpoint;
    }
    var texts := SplitJSONL(raw);
    if |texts| == 0 {
      return EmptyInput;
    }
    var bad, model, out := CheckLines(endpoint, texts, decode);
    r := if bad > 0 then BadLine(bad) else Ok(ParsedInput(endpoint, model, out));
  }

  /** The loop over the lines; bad is the number of the first bad one, 0 when there is none. */
  method CheckLines(endpoint: string, texts: seq<string>, decode: Decoder)
    returns (bad: nat, model: string, out: seq<InputLine>)
    ensures var lines := Decode(texts, decode);
      && (bad == 0 <==> Acceptable(endpoint, lines))
      && (bad > 0 ==> bad <= |lines| && Acceptable(endpoint, lines[..bad - 1]) && !Acceptable(endpoint, lines[..bad]))
      && (bad == 0 ==> exists seen :: Collected(lines, model, out, seen))
  {
    ghost var lines := Decode(texts, decode);
    var seen: set<string> := {};
    bad, model, out := 0, "", [];
    for i := 0 to |texts|
      invariant bad == 0 && Acceptable(endpoint, lines[..i])
      invariant Collected(lines[..i], model, out, seen)
    {
      var line := CheckLine(endpoint, decode(texts[i]), model, seen, lines[..i], out);
      assert lines[..i + 1] == lines[..i] + [lines[i]];
      if line.None? {
        NotAcceptable(endpoint, lines, i + 1);
        return i + 1, "", [];
      }
      model := ModelOf(line.value.body).value;
      assert lines[i].value.body == line.value.body;
      seen := seen + {line.value.customId};
      out := out + [line.value];
    }
    assert lines[..|lines|] == lines;
  }

  /** What the loop has gathered from the lines so far. */
  ghost predicate Collected(lines: seq<Option<InputLine>>, model: string, out: seq<InputLine>, seen: set<string>) {
    && |out| == |lines|
    && (forall i | 0 <= i < |lines| ::
          lines[i].Some? && out[i] == lines[i].value.(customId := TrimSpace(lines[i].value.customId)))
    && (forall i | 0 <= i < |lines| ::
          var body := lines[i].value.body; body.Object? && body.model.Some? && TrimSpace(body.model.value) == model)
    && (lines == [] ==> model == "")
    && (forall id :: id in seen <==> exists l :: l in out && l.customId == id)
  }

  /** The checks of one line in the source's order; the line with its id trimmed, if it passes. */
  method CheckLine(endpoint: string, decoded: Option<InputLine>, model: string, seen: set<string>,
                   ghost before: seq<Option<InputLine>>, ghost out: seq<InputLine>) returns (r: Option<InputLine>)
    requires Acceptable(endpoint, before) && Collected(before, model, out, seen)
    ensures r.Some? <==> Acceptable(endpoint, before + [decoded])
    ensures r.Some? ==> decoded.Some? && r.value == decoded.value.(customId := TrimSpace(decoded.value.customId))
    ensures r.Some? ==>
              && ModelOf(r.value.body).Some?
              && Collected(before + [decoded], ModelOf(r.value.body).value, out + [r.value], seen + {r.value.customId})
  {
    if decoded.None? {
      WrongLine(endpoint, before, decoded);
      return None;
    }
    var req := decoded.value.(customId := TrimSpace(decoded.value.customId));
    LineOkIff(endpoint, decoded.value);
    var lineModel := ModelOf(req.body);
    if req.customId == "" || !IsPost(req.httpMethod) || TrimSpace(req.url) != endpoint || lineModel.None? {
      WrongLine(endpoint, before, decoded);
      return None;
    }
    if model != "" && model != lineModel.value {
      OtherModel(endpoint, before, decoded, model, out, seen);
      return None;
    }
    if !BodyOk(endpoint, req.body) {
      WrongLine(endpoint, before, decoded);
      return None;
    }
    if req.customId in seen {
      SameId(endpoint, before, decoded, model, out, seen);
      return None;
    }
    OneMoreLine(endpoint, before, decoded, model, out, seen);
    r := Some(req);
  }

  lemma WrongLine(endpoint: string, before: seq<Option<InputLine>>, line: Option<InputLine>)
    requires !LineOk(endpoint, line)
    ensures !Acceptable(endpoint, before + [line])
  {
    assert (before + [line])[|before|] == line;
  }

  lemma OtherModel(endpoint: string, before: seq<Option<InputLine>>, line: Option<InputLine>, model: string,
                   out: seq<InputLine>, seen: set<string>)
    requires Collected(before, model, out, seen) && line.Some? && model != ""
    requires line.value.body.Object? && line.value.body.model.Some? && TrimSpace(line.value.body.model.value) != model
    ensures !Acceptable(endpoint, before + [line])
  {
    var after := before + [line];
    assert after[0] == before[0] && after[|before|] == line;
  }

  lemma SameId(endpoint: string, before: seq<Option<InputLine>>, line: Option<InputLine>, model: string,
               out: seq<InputLine>, seen: set<string>)
    requires Collected(before, model, out, seen) && line.Some? && TrimSpace(line.value.customId) in seen
    ensures !Acceptable(endpoint, before + [line])
  {
    var after := before + [line];
    var l :| l in out && l.customId == TrimSpace(line.value.customId);
    var i :| 0 <= i < |before| && out[i] == l;
    assert after[i] == before[i] && after[|before|] == line;
  }

  lemma OneMoreLine(endpoint: string, before: seq<Option<InputLine>>, line: Option<InputLine>, model: string,
                    out: seq<InputLine>, seen: set<string>)
    requires Acceptable(endpoint, before) && Collected(before, model, out, seen) && LineOk(endpoint, line)
    requires model == "" || model == TrimSpace(line.value.body.model.value)
    requires TrimSpace(line.value.customId) !in seen
    ensures Acceptable(endpoint, before + [line])
    ensures var req := line.value.(customId := TrimSpace(line.value.customId));
      Collected(before + [line], TrimSpace(line.value.body.model.value), out + [req], seen + {req.customId})
  {
    var id := TrimSpace(line.value.customId);
    NewId(before, model, out, seen, id);
    SameModel(endpoint, before, model, out, seen);
    MoreCollected(before, line, model, out, seen);
    MoreAcceptable(endpoint, before, line, model);
  }

  lemma SameModel(endpoint: string, before: seq<Option<InputLine>>, model: string, out: seq<InputLine>,
                  seen: set<string>)
    requires Acceptable(endpoint, before) && Collected(before, model, out, seen)
    ensures before != [] ==> model != ""
  {
    if before != [] {
      assert LineOk(endpoint, before[0]);
      NotBlank(before[0].value.body.model.value);
    }
  }

  lemma MoreAcceptable(endpoint: string, before: seq<Option<InputLine>>, line: Option<InputLine>, model: string)
    requires Acceptable(endpoint, before) && LineOk(endpoint, line)
    requires forall i | 0 <= i < |before| ::
               && TrimSpace(before[i].value.body.model.value) == model == TrimSpace(line.value.body.model.value)
               && TrimSpace(before[i].value.customId) != TrimSpace(line.value.customId)
    ensures Acceptable(endpoint, before + [line])
  {}

  lemma NotBlank(s: string)
    ensures !AllSpace(s) ==> TrimSpace(s) != ""
  {
    BlankIffTrimmedAway(s);
  }

  lemma NewId(before: seq<Option<InputLine>>, model: string, out: seq<InputLine>, seen: set<string>, id: string)
    requires Collected(before, model, out, seen) && id !in seen
    ensures forall i | 0 <= i < |before| :: TrimSpace(before[i].value.customId) != id
  {
    forall i | 0 <= i < |before| ensures TrimSpace(before[i].value.customId) != id {
      assert out[i] in out && out[i].customId == TrimSpace(before[i].value.customId);
    }
  }

  lemma MoreCollected(before: seq<Option<InputLine>>, line: Option<InputLine>, model: string, out: seq<InputLine>,
                      seen: set<string>)
    requires Collected(before, model, out, seen) && line.Some?
    requires line.value.body.Object? && line.value.body.model.Some?
    requires before == [] || model == TrimSpace(line.value.body.model.value)
    ensures var req := line.value.(customId := TrimSpace(line.value.customId));
      Collected(before + [line], TrimSpace(line.value.body.model.value), out + [req], seen + {req.customId})
  {
    var req := line.value.(customId := TrimSpace(line.value.customId));
    assert forall l :: l in out + [req] <==> l in out || l == req;
    assert forall x :: x in seen + {req.customId} <==> exists l :: l in out + [req] && l.customId == x;
  }

  lemma NotAcceptable(endpoint: string, lines: seq<Option<InputLine>>, n: nat)
    requires n <= |lines| && !Acceptable(endpoint, lines[..n])
    ensures !Acceptable(endpoint, lines)
  {
    if Acceptable(endpoint, lines) {
      assert forall i | 0 <= i < n :: lines[..n][i] == lines[i];
    }
  }

  /** A file whose lines are right together stays so in any order: acceptance does not depend on
      which line comes first. */
  lemma AcceptanceIgnoresOrder(endpoint: string, lines: seq<Option<InputLine>>, i: nat, j: nat)
    requires i < j < |lines|
    ensures Acceptable(endpoint, lines) <==> Acceptable(endpoint, lines[i := lines[j]][j := lines[i]])
  {
    var swapped := lines[i := lines[j]][j := lines[i]];
    assert swapped[i := swapped[j]][j := swapped[i]] == lines;
    if Acceptable(endpoint, lines) {
      SwapKeeps(endpoint, lines, i, j);
    }
    if Acceptable(endpoint, swapped) {
      SwapKeeps(endpoint, swapped, i, j);
    }
  }

  lemma SwapKeeps(endpoint: string, lines: seq<Option<InputLine>>, i: nat, j: nat)
    requires i < j < |lines| && Acceptable(endpoint, lines)
    ensures Acceptable(endpoint, lines[i := lines[j]][j := lines[i]])
  {}
}
