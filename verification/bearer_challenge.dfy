/** Reading a registry's WWW-Authenticate challenge (internal/clients/registry/registry.go):
    Bearer auth-params as in section 11.2 of RFC 9110 and section 3 of RFC 6750. */
module BearerChallenge {
  import opened GoStrings

  type Params = map<string, string>

  /** One parameter taken off the front of the text, and what is left. */
  datatype Taken = Taken(key: string, value: string, rest: string)

  function Behind(after: string): string {
    var a := TrimSpace(after);
    TrimSpace(if "," <= a then a[1..] else a)
  }

  /** What the parser makes of the text behind a '=', with the blanks around it gone. */
  function TakeValue(key: string, after: string): (t: Option<Taken>)
    ensures t.Some? ==> |t.value.rest| <= |after| && |t.value.value| <= |after|
  {
    if "\"" <= after then
      var end := IndexByte(after[1..], '"');
      if end < 0 then None else
      Shrinks(after[1..1 + end], after[2 + end..]);
      Some(Taken(key, TrimSpace(after[1..1 + end]), Behind(after[2 + end..])))
    else
      var comma := IndexByte(after, ',');
      var val, back := if comma < 0 then after else after[..comma], if comma < 0 then "" else after[comma + 1..];
      Shrinks(val, back);
      Some(Taken(key, TrimSpace(val), Behind(back)))
  }

  /** One pass of the parser's loop; None where it stops. */
  function Take(rest: string): (t: Option<Taken>)
    ensures t.Some? ==> |t.value.rest| < |rest| && |t.value.value| < |rest|
  {
    var eq := IndexByte(rest, '=');
    if eq < 0 then None else
    TrimSpaceTrims(rest[eq + 1..]);
    TakeValue(ToLower(TrimSpace(rest[..eq])), TrimSpace(rest[eq + 1..]))
  }

  lemma Shrinks(val: string, back: string)
    ensures |TrimSpace(val)| <= |val| && |Behind(back)| <= |back|
  {
    TrimSpaceTrims(val);
    TrimSpaceTrims(back);
    var a := TrimSpace(back);
    TrimSpaceTrims(if "," <= a then a[1..] else a);
  }

  /** Every parameter in rest, added to params in order; a repeated key keeps the last value. */
  function ReadParams(rest: string, params: Params): Params
    decreases |rest|
  {
    match Take(rest)
    case None => params
    case Some(t) => ReadParams(t.rest, params[t.key := t.value])
  }

  predicate IsBearer(scheme: string) {
    ToLower(scheme) == "bearer"
  }

  /** The challenge's parameters; None for another scheme. */
  function Parse(h: string): Option<Params> {
    var t := TrimSpace(h);
    var sp := IndexByte(t, ' ');
    if sp < 0 || !IsBearer(t[..sp]) then None else Some(ReadParams(TrimSpace(t[sp + 1..]), map[]))
  }

  /** parseBearerChallenge; it ends on every input because each pass takes at least the '='. */
  method ParseBearerChallenge(h: string) returns (params: Option<Params>)
    ensures params == Parse(h)
  {
    var t := TrimSpace(h);
    var sp := IndexByte(t, ' ');
    if sp < 0 || !IsBearer(t[..sp]) {
      return None;
    }
    var out: Params := map[];
    var rest := TrimSpace(t[sp + 1..]);
    while rest != ""
      invariant Parse(h) == Some(ReadParams(rest, out))
      decreases |rest|
    {
      var taken := Take(rest);
      if taken.None? {
        break;
      }
      out := out[taken.value.key := taken.value.value];
      rest := taken.value.rest;
    }
    params := Some(out);
  }

  /** Bearer, in any case. */
  predicate SpellsBearer(s: string) {
    |s| == 6 && s[0] in "Bb" && s[1] in "Ee" && s[2] in "Aa" && s[3] in "Rr" && s[4] in "Ee" && s[5] in "Rr"
  }

  lemma BearerIff(s: string)
    ensures IsBearer(s) <==> SpellsBearer(s)
  {
    if |s| == 6 {
      var low := ToLower(s);
      assert forall i | 0 <= i < 6 :: low[i] == ToLowerChar(s[i]);
    }
  }

  lemma SchemeIsFirst(t: string, scheme: string, rest: string)
    requires SpellsBearer(scheme) && t == scheme + " " + rest
    ensures IndexByte(t, ' ') == 6 && t[..6] == scheme
  {
    assert ' ' !in scheme;
    assert t == scheme + [' '] + rest;
    IndexBytePast(scheme, ' ', rest);
  }

  /** Only a Bearer challenge has parameters: the scheme, a space, and anything. */
  lemma OnlyBearerIsRead(h: string)
    ensures Parse(h).Some? <==> exists scheme, rest :: SpellsBearer(scheme) && TrimSpace(h) == scheme + " " + rest
  {
    var t := TrimSpace(h);
    var sp := IndexByte(t, ' ');
    if sp >= 0 {
      BearerIff(t[..sp]);
    }
    if Parse(h).Some? {
      var scheme, rest := t[..sp], t[sp + 1..];
      assert SpellsBearer(scheme) && t == scheme + " " + rest;
    }
    if scheme, rest :| SpellsBearer(scheme) && t == scheme + " " + rest {
      SchemeIsFirst(t, scheme, rest);
    }
  }

  // ----- printing -----

  /** A parameter: a token value or a quoted one, with the white space section 11.2 of RFC 9110
      allows around its '=' and around the comma that separates it from the next. */
  datatype Param = Param(key: string, value: string, quoted: bool,
                         beforeEq: string, afterEq: string, beforeComma: string, afterComma: string)
  {
    predicate Printable() {
      && key != "" && Trimmed(key) && '=' !in key && key[0] != ',' && Trimmed(value)
      && AllSpace(beforeEq) && AllSpace(afterEq) && AllSpace(beforeComma) && AllSpace(afterComma)
      && (if quoted then '"' !in value else value != "" && ',' !in value && !("\"" <= value))
    }

    function ValueText(): string {
      if quoted then "\"" + value + "\"" else value
    }
  }

  /** The text behind a parameter's value: nothing, or a comma and the rest. */
  function Tail(p: Param, more: string): string {
    if more == "" then "" else p.beforeComma + "," + p.afterComma + more
  }

  function Print(ps: seq<Param>): string {
    if ps == [] then ""
    else ps[0].key + ps[0].beforeEq + "=" + ps[0].afterEq + ps[0].ValueText() + Tail(ps[0], Print(ps[1..]))
  }

  /** The parameters as a map: lower-case keys, a later one replacing an earlier. */
  function Collected(ps: seq<Param>, params: Params): Params {
    if ps == [] then params else Collected(ps[1..], params[ToLower(ps[0].key) := ps[0].value])
  }

  lemma NotAmongSpaces(c: char, s: string)
    requires AllSpace(s) && !IsSpace(c)
    ensures c !in s
  {}

  /** The text behind the '=' has no blank at its ends, so only afterEq is trimmed off it. */
  lemma ValueIsTrimmed(p: Param, more: string)
    requires p.Printable() && Trimmed(more)
    ensures TrimSpace(p.afterEq + (p.ValueText() + Tail(p, more))) == p.ValueText() + Tail(p, more)
  {
    var body := p.ValueText() + Tail(p, more);
    assert body[0] == p.ValueText()[0];
    if more != "" {
      assert body[|body| - 1] == more[|more| - 1];
    }
    assert p.afterEq + body == p.afterEq + body + "";
    TrimPadded(p.afterEq, body, "");
  }

  lemma TailComesOff(p: Param, more: string)
    requires p.Printable() && Trimmed(more)
    ensures Behind(Tail(p, more)) == more
  {
    if more != "" {
      var comma := "," + p.afterComma + more;
      assert Tail(p, more) == p.beforeComma + comma + "";
      TrimPadded(p.beforeComma, comma, "");
      assert comma[1..] == p.afterComma + more + "";
      TrimPadded(p.afterComma, more, "");
    }
  }

  lemma TakeSplits(front: string, behind: string)
    requires '=' !in front
    ensures Take(front + "=" + behind) == TakeValue(ToLower(TrimSpace(front)), TrimSpace(behind))
  {
    var s := front + "=" + behind;
    assert s == front + ['='] + behind;
    IndexBytePast(front, '=', behind);
    assert s[..|front|] == front && s[|front| + 1..] == behind;
  }

  lemma TakeValuePrinted(p: Param, more: string)
    requires p.Printable() && Trimmed(more) && (more == "" || more[0] != ',')
    ensures TakeValue(ToLower(p.key), p.ValueText() + Tail(p, more)) == Some(Taken(ToLower(p.key), p.value, more))
  {
    if p.quoted {
      TakeQuoted(p, more);
    } else {
      TakeToken(p, more);
    }
  }

  lemma KeyIsTrimmed(p: Param)
    requires p.Printable()
    ensures '=' !in p.key + p.beforeEq && TrimSpace(p.key + p.beforeEq) == p.key
  {
    NotAmongSpaces('=', p.beforeEq);
    assert p.key + p.beforeEq == "" + p.key + p.beforeEq;
    TrimPadded("", p.key, p.beforeEq);
  }

  /** One pass takes exactly the first printed parameter. */
  lemma TakePrinted(p: Param, more: string)
    requires p.Printable() && Trimmed(more) && (more == "" || more[0] != ',')
    ensures Take(p.key + p.beforeEq + "=" + p.afterEq + p.ValueText() + Tail(p, more))
         == Some(Taken(ToLower(p.key), p.value, more))
  {
    var front, value, tail := p.key + p.beforeEq, p.ValueText(), Tail(p, more);
    KeyIsTrimmed(p);
    TakeSplits(front, p.afterEq + (value + tail));
    Regrouped(front, p.afterEq, value, tail);
    ValueIsTrimmed(p, more);
    TakeValuePrinted(p, more);
  }

  lemma Regrouped(front: string, afterEq: string, value: string, tail: string)
    ensures front + "=" + afterEq + value + tail == front + "=" + (afterEq + (value + tail))
  {}

  lemma TakeQuoted(p: Param, more: string)
    requires p.Printable() && Trimmed(more) && p.quoted
    ensures TakeValue(ToLower(p.key), p.ValueText() + Tail(p, more)) == Some(Taken(ToLower(p.key), p.value, more))
  {
    TrimmedFixed(p.value);
    TailComesOff(p, more);
    TakeClosed(ToLower(p.key), p.value, Tail(p, more));
  }

  lemma TakeClosed(key: string, value: string, tail: string)
    requires '"' !in value
    ensures TakeValue(key, "\"" + value + "\"" + tail) == Some(Taken(key, TrimSpace(value), Behind(tail)))
  {
    var body := "\"" + value + "\"" + tail;
    assert body[1..] == value + ['"'] + tail;
    IndexBytePast(value, '"', tail);
    assert body[1..1 + |value|] == value && body[2 + |value|..] == tail;
  }

  lemma TakeToken(p: Param, more: string)
    requires p.Printable() && Trimmed(more) && !p.quoted && (more == "" || more[0] != ',')
    ensures TakeValue(ToLower(p.key), p.ValueText() + Tail(p, more)) == Some(Taken(ToLower(p.key), p.value, more))
  {
    TrimmedFixed(p.value);
    var after := p.value + Tail(p, more);
    assert after[0] == p.value[0];
    if more == "" {
      assert after == p.value;
    } else {
      NotAmongSpaces(',', p.beforeComma);
      var front := p.value + p.beforeComma;
      assert after == front + [','] + (p.afterComma + more);
      IndexBytePast(front, ',', p.afterComma + more);
      assert after[..|front|] == front == "" + p.value + p.beforeComma;
      TrimPadded("", p.value, p.beforeComma);
      assert after[|front| + 1..] == p.afterComma + more + "";
      TrimPadded(p.afterComma, more, "");
      TrimmedFixed(more);
    }
  }

  lemma {:induction false} PrintTrimmed(ps: seq<Param>)
    requires forall p | p in ps :: p.Printable()
    ensures Trimmed(Print(ps)) && (Print(ps) == "" <==> ps == [])
    ensures (ps != [] ==> ps[0].Printable() && Print(ps)[0] == ps[0].key[0])
  {
    if ps != [] {
      assert ps[0].Printable();
      PrintTrimmed(ps[1..]);
      var text, more := Print(ps), Print(ps[1..]);
      assert text[0] == ps[0].key[0];
      assert text[|text| - 1] == if more == "" then ps[0].ValueText()[|ps[0].ValueText()| - 1] else more[|more| - 1];
    }
  }

  lemma {:induction false} ReadPrinted(ps: seq<Param>, params: Params)
    requires forall p | p in ps :: p.Printable()
    ensures ReadParams(Print(ps), params) == Collected(ps, params)
  {
    if ps != [] {
      assert ps[0].Printable();
      PrintTrimmed(ps[1..]);
      assert ps[1..] != [] ==> ps[1].Printable();
      TakePrinted(ps[0], Print(ps[1..]));
      ReadPrinted(ps[1..], params[ToLower(ps[0].key) := ps[0].value]);
    }
  }

  /** A quote that is not closed ends the reading. */
  lemma UnclosedQuoteEnds(key: string, value: string, params: Params)
    requires '=' !in key && '"' !in value
    ensures ReadParams(key + "=" + ("\"" + value), params) == params
  {
    TakeSplits(key, "\"" + value);
    QuoteStaysOpen(value);
  }

  lemma QuoteStaysOpen(value: string)
    requires '"' !in value
    ensures var after := TrimSpace("\"" + value); "\"" <= after && IndexByte(after[1..], '"') < 0
  {
    var text := "\"" + value;
    var a, z := TrimSpaceSplits(text);
    var after := TrimSpace(text);
    assert text[0] == '"' && a == "";
    forall i | 1 <= i < |after| ensures after[i] != '"' {
      assert text[i] == after[i] && text[i] == value[i - 1];
    }
  }

  /** A parameter without a value has the empty one, and the next one is read. */
  lemma EmptyValueIsRead(key: string, more: string)
    requires '=' !in key && more != "" && Trimmed(more) && more[0] != ','
    ensures Take(key + "=" + ("," + more)) == Some(Taken(ToLower(TrimSpace(key)), "", more))
  {
    var after := "," + more;
    TakeSplits(key, after);
    CommaStays(more);
    BehindIsRest(more);
    EmptyBeforeComma(ToLower(TrimSpace(key)), more);
  }

  lemma CommaStays(more: string)
    requires more != "" && Trimmed(more)
    ensures TrimSpace("," + more) == "," + more
  {
    assert ("," + more)[0] == ',';
    TrimmedFixed("," + more);
  }

  lemma BehindIsRest(more: string)
    requires more != "" && Trimmed(more) && more[0] != ','
    ensures Behind(more) == more
  {
    TrimmedFixed(more);
  }

  lemma EmptyBeforeComma(key: string, more: string)
    ensures TakeValue(key, "," + more) == Some(Taken(key, "", Behind(more)))
  {
    var after := "," + more;
    assert after[0] == ',' && after[..0] == "" && after[1..] == more;
    assert TrimSpace("") == "";
  }

  /** Parsing undoes printing, however the scheme is cased, the challenge is padded and the
      optional white space is chosen; values keep any '=' and quoted ones any ','. */
  lemma ParseUndoesPrint(ps: seq<Param>, scheme: string, before: string, after: string)
    requires ps != [] && forall p | p in ps :: p.Printable()
    requires SpellsBearer(scheme) && AllSpace(before) && AllSpace(after)
    ensures Parse(before + (scheme + " " + Print(ps)) + after) == Some(Collected(ps, map[]))
  {
    PrintTrimmed(ps);
    var core := scheme + " " + Print(ps);
    SchemeComesOff(scheme, Print(ps));
    PaddingComesOff(before, core, after);
    ReadPrinted(ps, map[]);
  }

  lemma PaddingComesOff(before: string, core: string, after: string)
    requires AllSpace(before) && AllSpace(after) && Trimmed(core)
    ensures Parse(before + core + after) == Parse(core)
  {
    TrimPadded(before, core, after);
    TrimmedFixed(core);
  }

  lemma SchemeComesOff(scheme: string, rest: string)
    requires SpellsBearer(scheme) && rest != "" && Trimmed(rest)
    ensures Trimmed(scheme + " " + rest) && Parse(scheme + " " + rest) == Some(ReadParams(rest, map[]))
  {
    BearerIff(scheme);
    BearerHasNoSpace(scheme);
    var core := scheme + [' '] + rest;
    assert core[0] == scheme[0] && core[|core| - 1] == rest[|rest| - 1];
    TrimmedFixed(core);
    IndexBytePast(scheme, ' ', rest);
    assert core[..|scheme|] == scheme && core[|scheme| + 1..] == rest;
    TrimmedFixed(rest);
  }

  lemma BearerHasNoSpace(scheme: string)
    requires IsBearer(scheme)
    ensures scheme != "" && !IsSpace(scheme[0]) && ' ' !in scheme
  {
    var low := ToLower(scheme);
    assert forall i | 0 <= i < |scheme| :: low[i] == ToLowerChar(scheme[i]) && low[i] != ' ';
    assert low[0] == 'b';
  }

  /** With keys that differ (whatever their case), the map holds each value under its key
      and nothing else. */
  lemma {:induction false} CollectedHoldsEach(ps: seq<Param>, params: Params)
    requires forall i, j | 0 <= i < j < |ps| :: ToLower(ps[i].key) != ToLower(ps[j].key)
    ensures var all := Collected(ps, params);
      && (forall p | p in ps :: ToLower(p.key) in all && all[ToLower(p.key)] == p.value)
      && (forall k | k in params && (forall p | p in ps :: ToLower(p.key) != k) :: k in all && all[k] == params[k])
      && (forall k | k in all :: k in params || exists p :: p in ps && ToLower(p.key) == k)
  {
    if ps != [] {
      var k := ToLower(ps[0].key);
      var rest := ps[1..];
      CollectedHoldsEach(rest, params[k := ps[0].value]);
      assert forall p | p in rest :: ToLower(p.key) != k by {
        forall p | p in rest ensures ToLower(p.key) != k {
          var i :| 0 <= i < |rest| && rest[i] == p;
          assert ps[i + 1] == p;
        }
      }
      assert forall p :: p in ps <==> p == ps[0] || p in rest;
    }
  }

  function QuotedText(key: string, value: string): string {
    key + "=" + ("\"" + value + "\"")
  }

  /** The condition on a quoted value is exact: a value with a '"' or a blank at an end never
      comes back, whatever the text behind the early quote makes the parser read. */
  lemma QuotedValueComesBackIff(key: string, value: string)
    requires key != "" && Trimmed(key) && '=' !in key && key[0] != ','
    ensures ReadParams(QuotedText(key, value), map[]) == map[ToLower(key) := value]
        <==> '"' !in value && Trimmed(value)
  {
    if '"' !in value && Trimmed(value) {
      QuotedValueIsKept(key, value);
    } else {
      QuotedValueIsCut(key, value);
    }
  }

  lemma QuotedValueIsKept(key: string, value: string)
    requires key != "" && Trimmed(key) && '=' !in key && key[0] != ','
    requires '"' !in value && Trimmed(value)
    ensures ReadParams(QuotedText(key, value), map[]) == map[ToLower(key) := value]
  {
    var inner := value + "\"";
    assert inner == value + ['"'] + "";
    IndexBytePast(value, '"', "");
    FirstPass(key, value, inner, |value|);
    assert inner[..|value|] == value && inner[|value| + 1..] == "";
    TrimmedFixed(value);
    assert Behind("") == "";
    assert ReadParams("", map[ToLower(key) := value]) == map[ToLower(key) := value];
  }

  /** The first pass takes the value up to the first quote in value + '"'. */
  lemma FirstPass(key: string, value: string, inner: string, end: int)
    requires key != "" && Trimmed(key) && '=' !in key && key[0] != ','
    requires inner == value + "\"" && end == IndexByte(inner, '"') && 0 <= end
    ensures Take(QuotedText(key, value))
         == Some(Taken(ToLower(key), TrimSpace(inner[..end]), Behind(inner[end + 1..])))
  {
    var text := "\"" + value + "\"";
    TakeSplits(key, text);
    TrimmedFixed(key);
    assert Trimmed(text);
    TrimmedFixed(text);
    TakeInner(ToLower(key), inner, end);
    assert text == "\"" + inner;
  }

  lemma TakeInner(key: string, inner: string, end: int)
    requires end == IndexByte(inner, '"') && 0 <= end
    ensures TakeValue(key, "\"" + inner) == Some(Taken(key, TrimSpace(inner[..end]), Behind(inner[end + 1..])))
  {
    var text := "\"" + inner;
    assert text[1..] == inner;
    assert text[1..1 + end] == inner[..end] && text[2 + end..] == inner[end + 1..];
  }

  /** The first pass cuts the value at its first quote, or trims it. */
  lemma FirstPassCuts(key: string, value: string) returns (t: Taken)
    requires key != "" && Trimmed(key) && '=' !in key && key[0] != ','
    requires '"' in value || !Trimmed(value)
    ensures Take(QuotedText(key, value)) == Some(t)
    ensures t.key == ToLower(key) && t.value != value && |t.value| <= |value| && |t.rest| <= |value|
  {
    var inner := value + "\"";
    assert inner[|value|] == '"';
    var end := IndexByte(inner, '"');
    FirstPass(key, value, inner, end);
    t := Taken(ToLower(key), TrimSpace(inner[..end]), Behind(inner[end + 1..]));
    TrimSpaceTrims(inner[..end]);
    Shrinks(inner[..end], inner[end + 1..]);
    if '"' in value {
      var q :| 0 <= q < |value| && value[q] == '"';
      assert inner[q] == '"';
    } else {
      assert inner[..|value|] == value;
    }
  }

  lemma QuotedValueIsCut(key: string, value: string)
    requires key != "" && Trimmed(key) && '=' !in key && key[0] != ','
    requires '"' in value || !Trimmed(value)
    ensures ReadParams(QuotedText(key, value), map[]) != map[ToLower(key) := value]
  {
    var t := FirstPassCuts(key, value);
    ValuesAreShort(t.rest, map[t.key := t.value], t.key, |value|, t.value);
  }

  /** Whatever the parser reads from a text no longer than a value, it does not read that value. */
  lemma {:induction false} ValuesAreShort(rest: string, params: Params, key: string, n: nat, cut: string)
    requires |rest| <= n && key in params && (|params[key]| < n || params[key] == cut)
    ensures var all := ReadParams(rest, params); key in all && (|all[key]| < n || all[key] == cut)
    decreases |rest|
  {
    var t := Take(rest);
    if t.Some? {
      ValuesAreShort(t.value.rest, params[t.value.key := t.value.value], key, n, cut);
    }
  }
}
