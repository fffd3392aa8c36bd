/** The JSONL files of the batch API: splitting one into its lines (internal/batch/jsonl.go) and
    building the output and error files (internal/batch/output.go). */
module BatchJsonl {
  import opened GoStrings

  // ----- splitting -----

  /** bytes.Split(raw, "\n"). */
  function SplitLines(raw: string): (parts: seq<string>)
    ensures |parts| > 0
    ensures forall p | p in parts :: '\n' !in p
    decreases |raw|
  {
    var at := IndexByte(raw, '\n');
    if at < 0 then [raw] else [raw[..at]] + SplitLines(raw[at + 1..])
  }

  /** Parts with a newline between each two. */
  function Rejoined(parts: seq<string>): string
    requires parts != []
  {
    if |parts| == 1 then parts[0] else parts[0] + "\n" + Rejoined(parts[1..])
  }

  lemma RejoinedCons(part: string, parts: seq<string>)
    requires parts != []
    ensures Rejoined([part] + parts) == part + "\n" + Rejoined(parts)
  {
    assert ([part] + parts)[1..] == parts;
  }

  /** The parts put together again are the text, with or without a newline at its end. */
  lemma {:induction false} PartsRejoin(raw: string)
    ensures Rejoined(SplitLines(raw)) == raw
    decreases |raw|
  {
    var at := IndexByte(raw, '\n');
    if at >= 0 {
      PartsRejoin(raw[at + 1..]);
      RejoinedCons(raw[..at], SplitLines(raw[at + 1..]));
      CutAt(raw, at);
    }
  }

  lemma CutAt(raw: string, at: nat)
    requires at < |raw| && raw[at] == '\n'
    ensures raw[..at] + "\n" + raw[at + 1..] == raw
  {}

  /** And there is no other way to cut it at its newlines. */
  lemma {:induction false} PartsAreUnique(parts: seq<string>)
    requires parts != [] && forall p | p in parts :: '\n' !in p
    ensures SplitLines(Rejoined(parts)) == parts
  {
    var raw := Rejoined(parts);
    if |parts| == 1 {
      assert raw in parts && IndexByte(raw, '\n') < 0;
    } else {
      var rest := Rejoined(parts[1..]);
      assert parts[0] in parts;
      assert raw == parts[0] + ['\n'] + rest;
      IndexBytePast(parts[0], '\n', rest);
      assert raw[..|parts[0]|] == parts[0] && raw[|parts[0]| + 1..] == rest;
      PartsAreUnique(parts[1..]);
    }
  }

  /** Each part with its outer blanks gone, blank parts dropped. */
  function Kept(parts: seq<string>): seq<string> {
    if parts == [] then []
    else
      var line := TrimSpace(parts[0]);
      (if line == "" then [] else [line]) + Kept(parts[1..])
  }

  function Split(raw: string): seq<string> {
    Kept(SplitLines(raw))
  }

  /** splitJSONL. */
  method SplitJSONL(raw: string) returns (out: seq<string>)
    ensures out == Split(raw)
    ensures exists parts ::
              parts != [] && (forall p | p in parts :: '\n' !in p) && Rejoined(parts) == raw && out == Kept(parts)
  {
    out := [];
    var parts := SplitLines(raw);
    PartsRejoin(raw);
    for i := 0 to |parts|
      invariant out == Kept(parts[..i])
    {
      var line := TrimSpace(parts[i]);
      KeptSnoc(parts[..i], parts[i]);
      assert parts[..i + 1] == parts[..i] + [parts[i]];
      if line != "" {
        out := out + [line];
      }
    }
    assert parts[..|parts|] == parts;
  }

  lemma {:induction false} KeptSnoc(parts: seq<string>, last: string)
    ensures Kept(parts + [last]) == Kept(parts) + if TrimSpace(last) == "" then [] else [TrimSpace(last)]
  {
    if parts != [] {
      assert (parts + [last])[1..] == parts[1..] + [last];
      KeptSnoc(parts[1..], last);
    }
  }

  /** A line that stands alone: not blank, no newline inside, no blanks at its ends. */
  predicate OneLine(line: string) {
    line != "" && Trimmed(line) && '\n' !in line
  }

  function Joined(lines: seq<string>): string {
    if lines == [] then "" else lines[0] + "\n" + Joined(lines[1..])
  }

  /** Splitting undoes joining exactly when every line stands alone. */
  lemma SplitUndoesJoinIff(lines: seq<string>)
    ensures Split(Joined(lines)) == lines <==> forall l | l in lines :: OneLine(l)
  {
    if forall l | l in lines :: OneLine(l) {
      SplitJoined(lines);
    }
    KeptStandAlone(SplitLines(Joined(lines)));
  }

  lemma {:induction false} SplitJoined(lines: seq<string>)
    requires forall l | l in lines :: OneLine(l)
    ensures Split(Joined(lines)) == lines
  {
    var raw := Joined(lines);
    if lines == [] {
      assert SplitLines("") == [""];
      assert Kept([""]) == [] + Kept([""][1..]);
    } else {
      var rest := Joined(lines[1..]);
      assert OneLine(lines[0]);
      assert raw == lines[0] + ['\n'] + rest;
      IndexBytePast(lines[0], '\n', rest);
      assert raw[..|lines[0]|] == lines[0] && raw[|lines[0]| + 1..] == rest;
      var parts := SplitLines(raw);
      assert parts == [lines[0]] + SplitLines(rest);
      assert parts[1..] == SplitLines(rest);
      TrimmedFixed(lines[0]);
      SplitJoined(lines[1..]);
    }
  }

  lemma {:induction false} KeptStandAlone(parts: seq<string>)
    requires forall p | p in parts :: '\n' !in p
    ensures forall l | l in Kept(parts) :: OneLine(l)
  {
    if parts != [] {
      KeptStandAlone(parts[1..]);
      var a, b := TrimSpaceSplits(parts[0]);
      assert parts[0] in parts;
      var line := TrimSpace(parts[0]);
      assert forall c :: c in line ==> c in a + line + b;
    }
  }

  // ----- building -----

  type Json = string

  /** One finished line, whatever the provider. */
  datatype LineResult = LineResult(customId: string, body: Json, errCode: string, errMessage: string)

  datatype LineError = LineError(code: string, message: string)

  /** One line of an output or error file before it is encoded. */
  datatype OutputLine = OutputLine(id: string, customId: string, response: Option<Response>, error: Option<LineError>)

  datatype Response = Response(statusCode: int, body: Json)

  /** json.Marshal: the text, or why it failed. */
  datatype Encoded = Text(text: string) | Refused(reason: string)

  type Encoder = OutputLine -> Encoded

  const STATUS_OK := 200
  const LINE_ERR_ENCODE := "output_encode_failed"
  const UNENCODABLE :=
    "{\"error\":{\"code\":\"" + LINE_ERR_ENCODE + "\",\"message\":\"line could not be encoded\"}}"

  datatype Written = Written(ok: bool, text: string)

  /** Where one line goes and as what: an output line only when it has a body, no error
      code and an encoding. */
  function Write(item: LineResult, encode: Encoder): Written {
    var id := TrimSpace(item.customId);
    var ok := item.body != "" && item.errCode == "";
    var line := OutputLine("batch_req_" + id, id,
                           if ok then Some(Response(STATUS_OK, item.body)) else None,
                           if ok then None else Some(LineError(item.errCode, item.errMessage)));
    match encode(line)
    case Text(text) => Written(ok, text)
    case Refused(reason) =>
      match encode(line.(response := None, error := Some(LineError(LINE_ERR_ENCODE, reason))))
      case Text(text) => Written(false, text)
      case Refused(_) => Written(false, UNENCODABLE)
  }

  /** The texts of the lines that went to one of the two files, in input order. */
  function Texts(lines: seq<LineResult>, encode: Encoder, ok: bool): seq<string> {
    if lines == [] then []
    else
      var w := Write(lines[|lines| - 1], encode);
      Texts(lines[..|lines| - 1], encode, ok) + if w.ok == ok then [w.text] else []
  }

  lemma TextsSnoc(lines: seq<LineResult>, item: LineResult, encode: Encoder)
    ensures var w := Write(item, encode);
      && Texts(lines + [item], encode, w.ok) == Texts(lines, encode, w.ok) + [w.text]
      && Texts(lines + [item], encode, !w.ok) == Texts(lines, encode, !w.ok)
  {
    assert (lines + [item])[..|lines|] == lines;
  }

  /** One line of BuildOutput: which file it goes to, and its text. */
  method WriteLine(item: LineResult, encode: Encoder) returns (w: Written)
    ensures w == Write(item, encode)
  {
    var customId := TrimSpace(item.customId);
    var line := OutputLine("batch_req_" + customId, customId, None, None);
    if item.body != "" && item.errCode == "" {
      line := line.(response := Some(Response(STATUS_OK, item.body)));
    } else {
      line := line.(error := Some(LineError(item.errCode, item.errMessage)));
    }
    var b := encode(line);
    if b.Refused? {
      line := line.(response := None, error := Some(LineError(LINE_ERR_ENCODE, b.reason)));
      b := encode(line);
      return Written(false, if b.Text? then b.text else UNENCODABLE);
    }
    w := Written(line.response.Some?, b.text);
  }

  /** BuildOutput. */
  method BuildOutput(lines: seq<LineResult>, encode: Encoder)
    returns (okJSONL: string, errJSONL: string, completed: nat, failed: nat)
    ensures okJSONL == Joined(Texts(lines, encode, true))
    ensures errJSONL == Joined(Texts(lines, encode, false))
    ensures completed == |Texts(lines, encode, true)| && failed == |Texts(lines, encode, false)|
    ensures completed + failed == |lines|
  {
    var okLines: seq<string>, errLines: seq<string> := [], [];
    completed, failed := 0, 0;
    for i := 0 to |lines|
      invariant okLines == Texts(lines[..i], encode, true) && errLines == Texts(lines[..i], encode, false)
      invariant completed == |okLines| && failed == |errLines|
    {
      var w := WriteLine(lines[i], encode);
      TextsSnoc(lines[..i], lines[i], encode);
      assert lines[..i + 1] == lines[..i] + [lines[i]];
      if w.ok {
        okLines := okLines + [w.text];
        completed := completed + 1;
      } else {
        errLines := errLines + [w.text];
        failed := failed + 1;
      }
    }
    assert lines[..|lines|] == lines;
    TextsCount(lines, encode);
    okJSONL, errJSONL := Joined(okLines), Joined(errLines);
  }

  /** A line is in the output file when it has a body, no error code, and its answer can be encoded;
      there it is that answer. */
  predicate Answered(item: LineResult, encode: Encoder) {
    item.body != "" && item.errCode == "" && encode(AnswerLine(item)).Text?
  }

  function AnswerLine(item: LineResult): OutputLine {
    OutputLine("batch_req_" + TrimSpace(item.customId), TrimSpace(item.customId), Some(Response(200, item.body)), None)
  }

  function ErrorLine(item: LineResult, code: string, message: string): OutputLine {
    OutputLine("batch_req_" + TrimSpace(item.customId), TrimSpace(item.customId), None, Some(LineError(code, message)))
  }

  /** Where a line goes and as what. In the error file it is its own error, or, when that cannot be
      encoded or was none, why not, or at last a fixed text. */
  lemma WriteSays(item: LineResult, encode: Encoder)
    ensures var w := Write(item, encode); var e := encode(ErrorLine(item, item.errCode, item.errMessage));
      && (w.ok <==> Answered(item, encode))
      && (w.ok ==> w.text == encode(AnswerLine(item)).text)
      && (!w.ok && (item.body == "" || item.errCode != "") && e.Text? ==> w.text == e.text)
      && (!w.ok && !((item.body == "" || item.errCode != "") && e.Text?) ==>
            var reason := if item.body == "" || item.errCode != "" then e.reason else encode(AnswerLine(item)).reason;
            var again := encode(ErrorLine(item, "output_encode_failed", reason));
            w.text == if again.Text? then again.text
                      else "{\"error\":{\"code\":\"" + "output_encode_failed" +
                           "\",\"message\":\"line could not be encoded\"}}")
  {}

  /** Conservation: line i is in exactly one file, at the place given by the earlier lines of
      that file, so the files hold every line once and keep the input's order. */
  lemma EveryLineOnce(lines: seq<LineResult>, encode: Encoder, i: nat)
    requires i < |lines|
    ensures var w := Write(lines[i], encode);
      && w.ok == Answered(lines[i], encode)
      && Texts(lines[..i], encode, w.ok) + [w.text] <= Texts(lines, encode, w.ok)
    ensures |Texts(lines, encode, true)| + |Texts(lines, encode, false)| == |lines|
  {
    TextsCount(lines, encode);
    TextsGrow(lines, encode, Write(lines[i], encode).ok, i + 1);
    assert lines[..i + 1][..i] == lines[..i];
  }

  lemma {:induction false} TextsGrow(lines: seq<LineResult>, encode: Encoder, ok: bool, i: nat)
    requires i <= |lines|
    ensures Texts(lines[..i], encode, ok) <= Texts(lines, encode, ok)
  {
    if i == |lines| {
      assert lines[..i] == lines;
    } else {
      var front := lines[..|lines| - 1];
      TextsGrow(front, encode, ok, i);
      assert front[..i] == lines[..i];
    }
  }

  lemma {:induction false} TextsCount(lines: seq<LineResult>, encode: Encoder)
    ensures |Texts(lines, encode, true)| + |Texts(lines, encode, false)| == |lines|
  {
    if lines != [] {
      TextsCount(lines[..|lines| - 1], encode);
    }
  }

  /** Two different lines never share a place, so the places above are a bijection. */
  lemma PlacesDiffer(lines: seq<LineResult>, encode: Encoder, i: nat, j: nat)
    requires i < j < |lines| && Write(lines[i], encode).ok == Write(lines[j], encode).ok
    ensures var ok := Write(lines[i], encode).ok;
      |Texts(lines[..i], encode, ok)| < |Texts(lines[..j], encode, ok)|
  {
    EveryLineOnce(lines[..j], encode, i);
    assert lines[..j][..i] == lines[..i];
  }

  /** Both files split back into exactly the texts that were written, for an encoder that, as
      JSON does, writes each line without newlines and without outer blanks. */
  lemma OutputSplitsBack(lines: seq<LineResult>, encode: Encoder, ok: bool)
    requires forall line :: encode(line).Text? ==> OneLine(encode(line).text)
    ensures Split(Joined(Texts(lines, encode, ok))) == Texts(lines, encode, ok)
  {
    TextsStandAlone(lines, encode, ok);
    SplitJoined(Texts(lines, encode, ok));
  }

  lemma {:induction false} TextsStandAlone(lines: seq<LineResult>, encode: Encoder, ok: bool)
    requires forall line :: encode(line).Text? ==> OneLine(encode(line).text)
    ensures forall l | l in Texts(lines, encode, ok) :: OneLine(l)
  {
    if lines != [] {
      TextsStandAlone(lines[..|lines| - 1], encode, ok);
      UnencodableStandsAlone();
    }
  }

  lemma UnencodableStandsAlone()
    ensures OneLine(UNENCODABLE)
  {
    assert "{\"error\":{\"code\":\""[0] == '{' && "be encoded\"}}"[12] == '}';
  }
}
