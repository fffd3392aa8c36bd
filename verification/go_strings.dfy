/** The parts of Go's strings package the modelled code calls. A string is a sequence
    of Unicode code points; every separator the code searches for is ASCII, so searching
    code points and searching UTF-8 bytes find the same places. */
module GoStrings {

  datatype Option<+T> = None | Some(value: T)

  /** The elements a loop keeps, in order. */
  function Filter<T>(keep: T -> bool, s: seq<T>): (r: seq<T>)
    ensures |r| <= |s|
    ensures forall x | x in r :: x in s && keep(x)
    ensures forall x | x in s :: keep(x) ==> x in r
  {
    if s == [] then []
    else (if keep(s[0]) then [s[0]] else []) + Filter(keep, s[1..])
  }

  lemma {:induction false} FilterAppend<T>(keep: T -> bool, s: seq<T>, t: seq<T>)
    ensures Filter(keep, s + t) == Filter(keep, s) + Filter(keep, t)
  {
    if s == [] {
      assert s + t == t;
    } else {
      assert (s + t)[1..] == s[1..] + t;
      FilterAppend(keep, s[1..], t);
    }
  }

  lemma FilterSnoc<T>(keep: T -> bool, s: seq<T>, x: T)
    ensures Filter(keep, s + [x]) == Filter(keep, s) + if keep(x) then [x] else []
  {
    FilterAppend(keep, s, [x]);
    assert Filter(keep, [x]) == (if keep(x) then [x] else []) + Filter(keep, [x][1..]);
  }

  lemma {:induction false} FilterAll<T>(keep: T -> bool, s: seq<T>)
    requires forall x | x in s :: keep(x)
    ensures Filter(keep, s) == s
  {
    if s != [] {
      assert s[0] in s;
      FilterAll(keep, s[1..]);
    }
  }

  lemma Member<T>(s: set<T>) returns (x: T)
    requires s != {}
    ensures x in s
  {
    x :| x in s;
  }

  /** unicode.IsSpace. */
  predicate IsSpace(c: char) {
    c in "\t\n\r " || c == '\U{0B}' || c == '\U{0C}' || c == '\U{85}' || c == '\U{A0}' || c == '\U{1680}'
    || '\U{2000}' <= c <= '\U{200A}' || c == '\U{2028}' || c == '\U{2029}' || c == '\U{202F}'
    || c == '\U{205F}' || c == '\U{3000}'
  }

  predicate AllSpace(s: string) {
    forall i | 0 <= i < |s| :: IsSpace(s[i])
  }

  /** No white space at either end: what TrimSpace leaves alone. */
  predicate Trimmed(s: string) {
    s == "" || (!IsSpace(s[0]) && !IsSpace(s[|s| - 1]))
  }

  function TrimLeft(s: string): string {
    if s != "" && IsSpace(s[0]) then TrimLeft(s[1..]) else s
  }

  function TrimRight(s: string): string {
    if s != "" && IsSpace(s[|s| - 1]) then TrimRight(s[..|s| - 1]) else s
  }

  function TrimSpace(s: string): string {
    TrimRight(TrimLeft(s))
  }

  lemma {:induction false} TrimLeftSplits(s: string) returns (n: nat)
    ensures n <= |s| && TrimLeft(s) == s[n..] && AllSpace(s[..n])
    ensures TrimLeft(s) != "" ==> !IsSpace(TrimLeft(s)[0])
  {
    if s != "" && IsSpace(s[0]) {
      var m := TrimLeftSplits(s[1..]);
      n := m + 1;
      assert forall i | 0 < i < n :: s[..n][i] == s[1..][..m][i - 1];
    } else {
      n := 0;
    }
  }

  lemma {:induction false} TrimRightSplits(s: string) returns (n: nat)
    ensures n <= |s| && TrimRight(s) == s[..n] && AllSpace(s[n..])
    ensures TrimRight(s) != "" ==> !IsSpace(TrimRight(s)[|TrimRight(s)| - 1])
  {
    if s != "" && IsSpace(s[|s| - 1]) {
      n := TrimRightSplits(s[..|s| - 1]);
      assert s[..|s| - 1][..n] == s[..n];
      assert s[n..] == s[..|s| - 1][n..] + [s[|s| - 1]];
    } else {
      n := |s|;
    }
  }

  /** TrimSpace cuts a blank prefix and a blank suffix, and nothing is left to cut. */
  lemma TrimSpaceSplits(s: string) returns (a: string, b: string)
    ensures s == a + TrimSpace(s) + b && AllSpace(a) && AllSpace(b)
    ensures Trimmed(TrimSpace(s))
  {
    var i := TrimLeftSplits(s);
    var l := s[i..];
    var j := TrimRightSplits(l);
    a, b := s[..i], l[j..];
    assert l == l[..j] + l[j..];
    assert s == s[..i] + l;
  }

  lemma TrimSpaceTrims(s: string)
    ensures Trimmed(TrimSpace(s))
    ensures |TrimSpace(s)| <= |s|
  {
    var a, b := TrimSpaceSplits(s);
  }

  lemma BlankIffTrimmedAway(s: string)
    ensures AllSpace(s) <==> TrimSpace(s) == ""
  {
    var a, b := TrimSpaceSplits(s);
    if AllSpace(s) {
      TrimPadded(s, "", "");
      assert s + "" + "" == s;
    }
  }

  lemma TrimmedFixed(s: string)
    requires Trimmed(s)
    ensures TrimSpace(s) == s
  {}

  /** Blank padding around a trimmed core is exactly what TrimSpace removes. */
  lemma TrimPadded(a: string, core: string, b: string)
    requires AllSpace(a) && AllSpace(b) && Trimmed(core)
    ensures TrimSpace(a + core + b) == core
  {
    TrimLeftPadded(a, core + b);
    assert a + (core + b) == a + core + b;
    if core == "" {
      assert core + b == b;
      TrimLeftPadded(b, "");
      assert b + "" == b;
    } else {
      TrimRightPadded(core, b);
    }
  }

  lemma {:induction false} TrimLeftPadded(a: string, rest: string)
    requires AllSpace(a)
    ensures TrimLeft(a + rest) == TrimLeft(rest)
  {
    if a == "" {
      assert a + rest == rest;
    } else {
      assert IsSpace(a[0]);
      assert (a + rest)[1..] == a[1..] + rest;
      TrimLeftPadded(a[1..], rest);
    }
  }

  lemma {:induction false} TrimRightPadded(core: string, b: string)
    requires AllSpace(b) && Trimmed(core) && core != ""
    ensures TrimRight(core + b) == core
  {
    if b == "" {
      assert core + b == core;
    } else {
      assert IsSpace(b[|b| - 1]);
      assert (core + b)[..|core + b| - 1] == core + b[..|b| - 1];
      TrimRightPadded(core, b[..|b| - 1]);
    }
  }

  /** s[at..] starts with sub. */
  predicate OccursAt(s: string, sub: string, at: int) {
    0 <= at <= |s| - |sub| && s[at..at + |sub|] == sub
  }

  /** strings.Index: the first place sub occurs in s, or -1. */
  function Index(s: string, sub: string): (at: int)
    ensures -1 <= at <= |s| - |sub| || (at == -1 && |s| < |sub|)
    ensures at >= 0 ==> OccursAt(s, sub, at)
    ensures forall i | 0 <= i < (if at >= 0 then at else |s| + 1) :: !OccursAt(s, sub, i)
  {
    IndexFrom(s, sub, 0)
  }

  function IndexFrom(s: string, sub: string, from: nat): (at: int)
    requires from <= |s|
    ensures at == -1 || from <= at <= |s| - |sub|
    ensures at >= 0 ==> OccursAt(s, sub, at)
    ensures forall i | from <= i < (if at >= 0 then at else |s| + 1) :: !OccursAt(s, sub, i)
    decreases |s| - from
  {
    if OccursAt(s, sub, from) then from
    else if from == |s| then -1
    else IndexFrom(s, sub, from + 1)
  }

  /** strings.IndexByte and strings.Cut on one ASCII character. */
  function IndexByte(s: string, c: char): (at: int)
    ensures -1 <= at < |s|
    ensures at >= 0 ==> s[at] == c && c !in s[..at]
    ensures at < 0 ==> c !in s
  {
    if s == "" then -1
    else if s[0] == c then 0
    else
      var rest := IndexByte(s[1..], c);
      assert s == [s[0]] + s[1..];
      if rest < 0 then -1 else
      assert s[..rest + 1] == [s[0]] + s[1..][..rest];
      rest + 1
  }

  /** IndexByte finds c right after a prefix without it. */
  lemma IndexBytePast(a: string, c: char, b: string)
    requires c !in a
    ensures IndexByte(a + [c] + b, c) == |a|
  {
    var s := a + [c] + b;
    var at := IndexByte(s, c);
    assert s[|a|] == c;
  }

  function ToLowerChar(c: char): char {
    if 'A' <= c <= 'Z' then ((c as int) + 32) as char else c
  }

  /** strings.ToLower on ASCII letters. */
  function ToLower(s: string): (r: string)
    ensures |r| == |s|
    ensures forall i | 0 <= i < |s| :: r[i] == ToLowerChar(s[i])
  {
    seq(|s|, i requires 0 <= i < |s| => ToLowerChar(s[i]))
  }

  /** The string order Go sorts by. */
  predicate Less(a: string, b: string) {
    if b == "" then false
    else if a == "" then true
    else a[0] < b[0] || (a[0] == b[0] && Less(a[1..], b[1..]))
  }

  lemma {:induction false} LessTransitive(a: string, b: string, c: string)
    requires Less(a, b) && Less(b, c)
    ensures Less(a, c)
  {
    if a != "" && a[0] == b[0] && b[0] == c[0] {
      LessTransitive(a[1..], b[1..], c[1..]);
    }
  }

  lemma {:induction false} LessTotal(a: string, b: string)
    ensures a == b || Less(a, b) || Less(b, a)
    ensures !(Less(a, b) && Less(b, a)) && !Less(a, a)
  {
    if a != "" && b != "" {
      LessTotal(a[1..], b[1..]);
      LessTotal(a[1..], a[1..]);
      if a[0] == b[0] && a[1..] == b[1..] {
        assert a == [a[0]] + a[1..] && b == [b[0]] + b[1..];
      }
    } else if a != "" {
      LessTotal(a[1..], a[1..]);
    }
  }

  // ----- lengths in bytes -----

  /** How many bytes UTF-8 takes for a character. */
  function Utf8Width(c: char): nat {
    if c < '\U{80}' then 1 else if c < '\U{800}' then 2 else if c < '\U{10000}' then 3 else 4
  }

  /** Go's len of a string. */
  function Utf8Len(s: string): (n: nat)
    ensures n >= |s|
  {
    if s == "" then 0 else Utf8Width(s[0]) + Utf8Len(s[1..])
  }

  lemma {:induction false} Utf8LenAppend(a: string, b: string)
    ensures Utf8Len(a + b) == Utf8Len(a) + Utf8Len(b)
  {
    if a == "" {
      assert a + b == b;
    } else {
      assert (a + b)[1..] == a[1..] + b;
      Utf8LenAppend(a[1..], b);
    }
  }

  // ----- maps and their keys -----

  lemma SameMap<V>(a: map<string, V>, b: map<string, V>)
    requires forall k :: k in a <==> k in b
    requires forall k | k in a :: a[k] == b[k]
    ensures a == b
  {}

  /** Each key is listed once. */
  ghost predicate Lists(order: seq<string>, keys: set<string>) {
    (forall k :: k in order <==> k in keys) && forall i, j | 0 <= i < j < |order| :: order[i] != order[j]
  }

  ghost predicate Sorted(order: seq<string>) {
    forall i, j | 0 <= i < j < |order| :: Less(order[i], order[j])
  }

  method InsertSorted(order: seq<string>, key: string) returns (out: seq<string>)
    requires Sorted(order) && key !in order
    ensures Sorted(out) && forall k :: k in out <==> k in order || k == key
  {
    var i := 0;
    while i < |order| && Less(order[i], key)
      invariant 0 <= i <= |order|
      invariant forall j | 0 <= j < i :: Less(order[j], key)
    {
      i := i + 1;
    }
    out := order[..i] + [key] + order[i..];
    if i < |order| {
      LessTotal(order[i], key);
      forall j | i < j < |order| ensures Less(key, order[j]) {
        LessTransitive(key, order[i], order[j]);
      }
    }
  }

  /** The keys of a map as slices.Sorted and sort.Strings list them. */
  method SortedKeys<T>(m: map<string, T>) returns (order: seq<string>)
    ensures Lists(order, m.Keys) && Sorted(order)
  {
    order := [];
    var rest := m.Keys;
    while rest != {}
      invariant rest <= m.Keys
      invariant Sorted(order) && forall k :: k in order <==> k in m.Keys - rest
      decreases |rest|
    {
      var k :| k in rest;
      order := InsertSorted(order, k);
      rest := rest - {k};
    }
    SortedDiffer(order);
  }

  lemma SortedDiffer(order: seq<string>)
    requires Sorted(order)
    ensures forall i, j | 0 <= i < j < |order| :: order[i] != order[j]
  {
    forall i, j | 0 <= i < j < |order| ensures order[i] != order[j] {
      LessTotal(order[i], order[j]);
    }
  }

  /** There is only one such list. */
  lemma {:induction false} SortedIsCanonical(a: seq<string>, b: seq<string>)
    requires Sorted(a) && Sorted(b) && forall k :: k in a <==> k in b
    ensures a == b
  {
    if a != [] || b != [] {
      assert b != [] ==> b[0] in a;
      assert a[0] in b && b != [];
      SortedDiffer(a);
      SortedDiffer(b);
      LessTotal(a[0], b[0]);
      assert a[0] == b[0];
      assert a[0] !in a[1..] && b[0] !in b[1..];
      assert forall k :: k in a <==> k == a[0] || k in a[1..];
      assert forall k :: k in b <==> k == b[0] || k in b[1..];
      SortedIsCanonical(a[1..], b[1..]);
    }
  }

  lemma SameSortedKeys(keys: set<string>, a: seq<string>, b: seq<string>)
    requires Lists(a, keys) && Sorted(a) && Lists(b, keys) && Sorted(b)
    ensures a == b
  {
    SortedIsCanonical(a, b);
  }
}
