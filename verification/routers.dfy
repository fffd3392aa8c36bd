/** Named routers (internal/config/routers.go): reading them from the config file, the leaves
    each one dials with the Switchyard target names it emits for them, and the check that no
    two routers emit one name. */
module Routers {
  import opened GoStrings

  // ----- target names -----

  function Digit(d: nat): char
    requires d < 10
  {
    (d + 48) as char
  }

  /** A number as fmt prints it. */
  function Decimal(n: nat): (s: string)
    ensures s != ""
  {
    (if n < 10 then "" else Decimal(n / 10)) + [Digit(n % 10)]
  }

  lemma {:induction false} DecimalIsInjective(a: nat, b: nat)
    requires Decimal(a) == Decimal(b)
    ensures a == b
  {
    var x, y := Decimal(a), Decimal(b);
    assert x[|x| - 1] == Digit(a % 10) && y[|y| - 1] == Digit(b % 10);
    if a >= 10 && b >= 10 {
      assert x[..|x| - 1] == Decimal(a / 10) && y[..|y| - 1] == Decimal(b / 10);
      DecimalIsInjective(a / 10, b / 10);
    }
  }

  /** The number its digits spell. */
  function Spelt(s: string): int {
    if s == "" then 0 else 10 * Spelt(s[..|s| - 1]) + (s[|s| - 1] as int - '0' as int)
  }

  /** Decimal is the usual notation: digits that spell the number, with no zero in front. */
  lemma {:induction false} DecimalSpells(n: nat)
    ensures Spelt(Decimal(n)) == n && forall i | 0 <= i < |Decimal(n)| :: '0' <= Decimal(n)[i] <= '9'
    ensures n > 0 ==> Decimal(n)[0] != '0'
    ensures n == 0 ==> Decimal(n) == "0"
  {
    if n >= 10 {
      DecimalSpells(n / 10);
      assert Decimal(n)[..|Decimal(n)| - 1] == Decimal(n / 10);
    }
  }

  function FallbackTargetName(router: string, index: nat): string {
    TrimSpace(router) + "_" + Decimal(index)
  }

  function CapableTargetName(router: string): string {
    TrimSpace(router) + "_capable"
  }

  function EfficientTargetName(router: string): string {
    TrimSpace(router) + "_efficient"
  }

  function ClassifierTargetName(router: string): string {
    TrimSpace(router) + "_classifier"
  }

  // ----- routes and their leaves -----

  datatype ClassifierTarget = ClassifierTarget(name: string, model: string)

  /** settings stands for the fields that are checked and copied as they are. */
  datatype Route =
    | Passthrough(target: string)
    | StageRouter(capable: string, efficient: string, settings: string)
    | LLMClassifier(custom: bool, classifier: string, targets: seq<ClassifierTarget>, defaultTarget: string,
                    settings: string)
    | Fallback(leaves: seq<string>)
    | Unsupported(kind: string)

  datatype NamedRouter = NamedRouter(capability: string, route: Route)

  datatype RouteLeaf = RouteLeaf(leaf: string, target: string)

  /** routeLeaves. */
  function Leaves(name: string, route: Route): seq<RouteLeaf> {
    match route
    case Passthrough(target) => [RouteLeaf(target, "")]
    case StageRouter(capable, efficient, _) =>
      [RouteLeaf(capable, CapableTargetName(name)), RouteLeaf(efficient, EfficientTargetName(name))]
    case LLMClassifier(_, classifier, targets, _, _) =>
      [RouteLeaf(classifier, ClassifierTargetName(name))]
      + seq(|targets|, i requires 0 <= i < |targets| => RouteLeaf(targets[i].model, targets[i].name))
    case Fallback(leaves) =>
      seq(|leaves|, i requires 0 <= i < |leaves| => RouteLeaf(leaves[i], FallbackTargetName(name, i)))
    case Unsupported(_) => []
  }

  // ----- reading the file -----

  /** A route as written. settingsOk is the outcome of the checks on the remaining fields. */
  datatype RouteFile = RouteFile(kind: string, target: string, capable: string, efficient: string, mode: string,
                                 classifier: string, defaultTarget: string, named: map<string, string>,
                                 ordered: seq<string>, settingsOk: bool, settings: string)

  datatype RouterFile = RouterFile(capability: string, route: RouteFile)

  predicate NameChar(c: char) {
    'a' <= c <= 'z' || 'A' <= c <= 'Z' || '0' <= c <= '9' || c == '_' || c == '-'
  }

  /** validateRouterName: only a digit is refused as the first of the allowed characters. */
  predicate ValidName(name: string) {
    name != "" && !('0' <= name[0] <= '9') && forall i | 0 <= i < |name| :: NameChar(name[i])
  }

  /** Letters, digits, underscores and hyphens, the first of them no digit. */
  predicate NameFits(name: string) {
    && name != "" && name[0] !in "0123456789"
    && forall c | c in name :: 'a' <= c <= 'z' || 'A' <= c <= 'Z' || '0' <= c <= '9' || c in "_-"
  }

  lemma NameFitsIff(name: string)
    ensures ValidName(name) <==> NameFits(name)
  {
    if ValidName(name) {
      forall c | c in name ensures NameChar(c) {
        var i :| 0 <= i < |name| && name[i] == c;
      }
    }
    if NameFits(name) {
      forall i | 0 <= i < |name| ensures NameChar(name[i]) {
        assert name[i] in name;
      }
    }
  }

  lemma ValidNameIsTrimmed(name: string)
    requires ValidName(name)
    ensures TrimSpace(name) == name
  {
    assert !IsSpace(name[0]) && !IsSpace(name[|name| - 1]);
  }

  /** What parseFallbackRoute accepts: two or more leaves, none blank, all different. */
  ghost predicate FallbackOk(ordered: seq<string>) {
    && |ordered| >= 2
    && (forall i | 0 <= i < |ordered| :: TrimSpace(ordered[i]) != "")
    && forall i, j | 0 <= i < j < |ordered| :: TrimSpace(ordered[i]) != TrimSpace(ordered[j])
  }

  /** parseFallbackRoute. */
  method ParseFallback(ordered: seq<string>) returns (leaves: Option<seq<string>>)
    ensures leaves.Some? <==> FallbackOk(ordered)
    ensures leaves.Some? ==>
        |leaves.value| == |ordered| && forall i | 0 <= i < |ordered| :: leaves.value[i] == TrimSpace(ordered[i])
  {
    if |ordered| < 2 {
      return None;
    }
    var out: seq<string>, seen: set<string> := [], {};
    for i := 0 to |ordered|
      invariant |out| == i && forall j | 0 <= j < i :: out[j] == TrimSpace(ordered[j]) && out[j] != ""
      invariant seen == set x | x in out
      invariant forall j, k | 0 <= j < k < i :: TrimSpace(ordered[j]) != TrimSpace(ordered[k])
    {
      var leaf := TrimSpace(ordered[i]);
      if leaf == "" {
        return None;
      }
      if leaf in seen {
        var j :| 0 <= j < |out| && out[j] == leaf;
        assert TrimSpace(ordered[j]) == TrimSpace(ordered[i]);
        return None;
      }
      seen := seen + {leaf};
      out := out + [leaf];
    }
    leaves := Some(out);
  }

  predicate KeyOk(router: string, key: string) {
    ValidName(key) && key != ClassifierTargetName(router)
  }

  predicate TargetOk(router: string, t: ClassifierTarget) {
    KeyOk(router, t.name) && t.model != ""
  }

  function TargetAt(named: map<string, string>, k: string): ClassifierTarget
    requires k in named
  {
    ClassifierTarget(TrimSpace(k), TrimSpace(named[k]))
  }

  /** What parseClassifierTargets accepts for a router: valid names that stay different when
      trimmed and differ from the judge's own, each with a leaf. */
  ghost predicate ClassifierTargetsOk(router: string, named: map<string, string>) {
    && (forall k | k in named ::
          NameFits(TrimSpace(k)) && TrimSpace(k) != TrimSpace(router) + "_classifier" && !AllSpace(named[k]))
    && forall k, l | k in named && l in named && k != l :: TrimSpace(k) != TrimSpace(l)
  }

  lemma TargetOkIff(router: string, named: map<string, string>, k: string)
    requires k in named
    ensures TargetOk(router, TargetAt(named, k)) <==>
      NameFits(TrimSpace(k)) && TrimSpace(k) != TrimSpace(router) + "_classifier" && !AllSpace(named[k])
  {
    NameFitsIff(TrimSpace(k));
    BlankIffTrimmedAway(named[k]);
  }

  /** The targets of the keys, in order. */
  ghost predicate TargetsOf(named: map<string, string>, order: seq<string>, targets: seq<ClassifierTarget>) {
    |targets| == |order| && forall i | 0 <= i < |order| ::
            order[i] in named && targets[i] == ClassifierTarget(TrimSpace(order[i]), TrimSpace(named[order[i]]))
  }

  /** What the loop has gathered from the keys so far. */
  ghost predicate Gathered(router: string, named: map<string, string>, order: seq<string>,
                           out: seq<ClassifierTarget>, seen: set<string>) {
    && TargetsOf(named, order, out)
    && (seen == set t | t in out :: t.name)
    && (forall t | t in out :: TargetOk(router, t))
    && (forall i, j | 0 <= i < j < |out| :: out[i].name != out[j].name)
  }

  lemma OneMoreTarget(router: string, named: map<string, string>, order: seq<string>, k: string,
                      out: seq<ClassifierTarget>, seen: set<string>)
    requires Gathered(router, named, order, out, seen) && k in named
    requires TargetOk(router, TargetAt(named, k)) && TargetAt(named, k).name !in seen
    ensures Gathered(router, named, order + [k], out + [TargetAt(named, k)], seen + {TargetAt(named, k).name})
  {
    var t := TargetAt(named, k);
    assert forall x :: x in out + [t] <==> x in out || x == t;
    forall i | 0 <= i < |out| ensures out[i].name != t.name {
      assert out[i] in out;
    }
  }

  /** The targets in the order of their sorted keys. */
  ghost predicate SortedTargets(named: map<string, string>, targets: seq<ClassifierTarget>) {
    exists order :: Lists(order, named.Keys) && Sorted(order) && TargetsOf(named, order, targets)
  }

  lemma SortedTargetsAreUnique(named: map<string, string>, a: seq<ClassifierTarget>, b: seq<ClassifierTarget>)
    requires SortedTargets(named, a) && SortedTargets(named, b)
    ensures a == b
  {
    var x :| Lists(x, named.Keys) && Sorted(x) && TargetsOf(named, x, a);
    var y :| Lists(y, named.Keys) && Sorted(y) && TargetsOf(named, y, b);
    SameSortedKeys(named.Keys, x, y);
  }

  /** parseClassifierTargets; seen holds the target names. */
  method ParseClassifierTargets(router: string, named: map<string, string>)
    returns (targets: Option<seq<ClassifierTarget>>, seen: set<string>)
    ensures targets.Some? <==> ClassifierTargetsOk(router, named)
    ensures targets.Some? ==> SortedTargets(named, targets.value) && seen == set t | t in targets.value :: t.name
  {
    var order := SortedKeys(named);
    targets, seen := ReadTargets(router, named, order);
  }

  /** Its loop over the sorted keys. */
  method ReadTargets(router: string, named: map<string, string>, order: seq<string>)
    returns (targets: Option<seq<ClassifierTarget>>, seen: set<string>)
    requires Lists(order, named.Keys)
    ensures targets.Some? <==> ClassifierTargetsOk(router, named)
    ensures targets.Some? ==> TargetsOf(named, order, targets.value) && seen == set t | t in targets.value :: t.name
  {
    var out: seq<ClassifierTarget> := [];
    seen := {};
    for i := 0 to |order|
      invariant Gathered(router, named, order[..i], out, seen)
    {
      var k := order[i];
      assert k in named && order[..i + 1] == order[..i] + [k];
      var t := ClassifierTarget(TrimSpace(k), TrimSpace(named[k]));
      if t.name == "" || !KeyOk(router, t.name) || t.model == "" {
        TargetOkIff(router, named, k);
        return None, {};
      }
      if t.name in seen {
        SameName(named, order, out, t.name);
        return None, {};
      }
      OneMoreTarget(router, named, order[..i], k, out, seen);
      seen := seen + {t.name};
      out := out + [t];
    }
    assert order[..|order|] == order;
    targets := Some(out);
    AllKeysSeen(router, named, order, out);
  }

  lemma SameName(named: map<string, string>, order: seq<string>, out: seq<ClassifierTarget>, name: string)
    requires Lists(order, named.Keys) && |out| < |order| && TargetsOf(named, order[..|out|], out)
    requires TrimSpace(order[|out|]) == name && exists t | t in out :: t.name == name
    ensures exists k, l :: k in named && l in named && k != l && TrimSpace(k) == TrimSpace(l)
  {
    var j :| 0 <= j < |out| && out[j].name == name;
    assert order[..|out|][j] == order[j] && order[j] in named && order[|out|] in named;
  }

  lemma AllKeysSeen(router: string, named: map<string, string>, order: seq<string>, out: seq<ClassifierTarget>)
    requires Lists(order, named.Keys) && TargetsOf(named, order, out)
    requires forall t | t in out :: TargetOk(router, t)
    requires forall j, k | 0 <= j < k < |order| :: out[j].name != out[k].name
    ensures ClassifierTargetsOk(router, named)
  {
    forall k | k in named ensures TargetOk(router, TargetAt(named, k)) {
      var i :| 0 <= i < |order| && order[i] == k;
      assert out[i] in out;
    }
    forall k | k in named
      ensures NameFits(TrimSpace(k)) && TrimSpace(k) != TrimSpace(router) + "_classifier" && !AllSpace(named[k])
    {
      TargetOkIff(router, named, k);
    }
    forall k, l | k in named && l in named && k != l ensures TrimSpace(k) != TrimSpace(l) {
      var i :| 0 <= i < |order| && order[i] == k;
      var j :| 0 <= j < |order| && order[j] == l;
      assert out[i].name != out[j].name;
    }
  }

  const STAGE_ROUTER := "stage_router"
  const LLM_CLASSIFIER := "llm_classifier"

  /** parseRouterRoute: what each kind of route must have, and what is kept of it. */
  method ParseRoute(name: string, file: RouteFile) returns (route: Option<Route>)
    ensures route.Some? ==> WellFormed(name, route.value)
    ensures route.Some? <==> RouteOk(name, file)
    ensures route.Some? ==> Reads(file, route.value)
  {
    var kind := TrimSpace(file.kind);
    if !file.settingsOk {
      return None;
    }
    if kind == "passthrough" {
      var target := TrimSpace(file.target);
      return if target == "" then None else Some(Passthrough(target));
    }
    if kind == STAGE_ROUTER {
      var capable, efficient := TrimSpace(file.capable), TrimSpace(file.efficient);
      StageNamesDiffer(name);
      return if capable == "" || efficient == "" then None else Some(StageRouter(capable, efficient, file.settings));
    }
    if kind == LLM_CLASSIFIER {
      route := ParseClassifier(name, file);
      return;
    }
    if kind == "fallback" {
      var leaves := ParseFallback(file.ordered);
      if leaves.Some? {
        FallbackNamesDiffer(name, |leaves.value|);
        return Some(Fallback(leaves.value));
      }
    }
    route := None;
  }

  /** parseLLMClassifierRoute. */
  method ParseClassifier(name: string, file: RouteFile) returns (route: Option<Route>)
    ensures route.Some? <==> ClassifierOk(name, file)
    ensures route.Some? ==> WellFormed(name, route.value) && ReadsClassifier(file, route.value)
  {
    var classifier, defaultTarget := TrimSpace(file.classifier), TrimSpace(file.defaultTarget);
    if TrimSpace(file.mode) != "custom" || classifier == "" || |file.named| < 2 {
      return None;
    }
    var targets, seen := ParseClassifierTargets(name, file.named);
    if targets.None? {
      return None;
    }
    ghost var order :| Lists(order, file.named.Keys) && Sorted(order) && TargetsOf(file.named, order, targets.value);
    DefaultIsListed(file.named, order, targets.value, defaultTarget);
    if defaultTarget !in seen {
      return None;
    }
    route := Some(LLMClassifier(true, classifier, targets.value, defaultTarget, file.settings));
    ClassifierNamesDiffer(name, file.named, order, targets.value, route.value);
  }

  predicate DefaultNamed(named: map<string, string>, defaultTarget: string) {
    exists k | k in named :: TrimSpace(k) == defaultTarget
  }

  ghost predicate ClassifierOk(name: string, file: RouteFile) {
    && TrimSpace(file.mode) == "custom" && TrimSpace(file.classifier) != "" && |file.named| >= 2
    && ClassifierTargetsOk(name, file.named) && DefaultNamed(file.named, TrimSpace(file.defaultTarget))
  }

  /** Exactly the routes parseRouterRoute accepts. */
  ghost predicate RouteOk(name: string, file: RouteFile) {
    var kind := TrimSpace(file.kind);
    && file.settingsOk
    && (if kind == "passthrough" then TrimSpace(file.target) != ""
        else if kind == "stage_router" then TrimSpace(file.capable) != "" && TrimSpace(file.efficient) != ""
        else if kind == "llm_classifier" then ClassifierOk(name, file)
        else kind == "fallback" && FallbackOk(file.ordered))
  }

  ghost predicate ReadsClassifier(file: RouteFile, route: Route) {
    && route.LLMClassifier? && route.custom && route.classifier == TrimSpace(file.classifier)
    && SortedTargets(file.named, route.targets)
    && route.defaultTarget == TrimSpace(file.defaultTarget)
    && (exists t | t in route.targets :: t.name == route.defaultTarget)
    && route.settings == file.settings
  }

  function KindOf(route: Route): string {
    match route
    case Passthrough(_) => "passthrough"
    case StageRouter(_, _, _) => "stage_router"
    case LLMClassifier(_, _, _, _, _) => "llm_classifier"
    case Fallback(_) => "fallback"
    case Unsupported(kind) => kind
  }

  /** The route says what the file says. */
  ghost predicate Reads(file: RouteFile, route: Route) {
    KindOf(route) == TrimSpace(file.kind) &&
    match route
    case Passthrough(target) => target == TrimSpace(file.target)
    case StageRouter(capable, efficient, settings) =>
      capable == TrimSpace(file.capable) && efficient == TrimSpace(file.efficient) && settings == file.settings
    case LLMClassifier(_, _, _, _, _) => ReadsClassifier(file, route)
    case Fallback(leaves) =>
      |leaves| == |file.ordered| && forall i | 0 <= i < |leaves| :: leaves[i] == TrimSpace(file.ordered[i])
    case Unsupported(_) => false
  }

  /** And all it says: the file leaves nothing of the route open. */
  lemma ReadingIsUnique(file: RouteFile, a: Route, b: Route)
    requires Reads(file, a) && Reads(file, b)
    ensures a == b
  {
    assert |STAGE_ROUTER| != |LLM_CLASSIFIER|;
    if a.LLMClassifier? && b.LLMClassifier? {
      SortedTargetsAreUnique(file.named, a.targets, b.targets);
    }
  }

  /** A route of a known kind whose emitted names are not empty and differ from each other. */
  ghost predicate WellFormed(name: string, route: Route) {
    && !route.Unsupported? && (route.LLMClassifier? ==> route.custom)
    && (!route.Passthrough? ==> forall i | 0 <= i < |Leaves(name, route)| :: Leaves(name, route)[i].target != "")
    && forall i, j | 0 <= i < j < |Leaves(name, route)| ::
          Leaves(name, route)[i].target != Leaves(name, route)[j].target
  }

  lemma StageNamesDiffer(name: string)
    ensures CapableTargetName(name) != EfficientTargetName(name)
  {
    assert |CapableTargetName(name)| < |EfficientTargetName(name)|;
  }

  lemma FallbackNamesDiffer(name: string, n: nat)
    ensures forall i, j | 0 <= i < j < n :: FallbackTargetName(name, i) != FallbackTargetName(name, j)
  {
    forall i, j | 0 <= i < j < n ensures FallbackTargetName(name, i) != FallbackTargetName(name, j) {
      var front := TrimSpace(name) + "_";
      var a, b := FallbackTargetName(name, i), FallbackTargetName(name, j);
      assert a[|front|..] == Decimal(i) && b[|front|..] == Decimal(j);
      if a == b {
        DecimalIsInjective(i, j);
      }
    }
  }

  lemma ClassifierNamesDiffer(name: string, named: map<string, string>, order: seq<string>,
                              targets: seq<ClassifierTarget>, route: Route)
    requires Lists(order, named.Keys) && TargetsOf(named, order, targets) && ClassifierTargetsOk(name, named)
    requires route.LLMClassifier? && route.custom && route.targets == targets
    ensures WellFormed(name, route)
  {
    TargetNamesDiffer(name, named, order, targets);
    ClassifierLeaves(name, route);
    var leaves := Leaves(name, route);
    forall i | 0 <= i < |leaves| ensures leaves[i].target != "" {
      if i > 0 {
        assert leaves[i].target == targets[i - 1].name && targets[i - 1].name != "";
      }
    }
    forall i, j | 0 <= i < j < |leaves| ensures leaves[i].target != leaves[j].target {
      assert leaves[j].target == targets[j - 1].name;
      if i > 0 {
        assert leaves[i].target == targets[i - 1].name;
      }
    }
  }

  lemma ClassifierLeaves(name: string, route: Route)
    requires route.LLMClassifier?
    ensures var leaves := Leaves(name, route);
      && |leaves| == |route.targets| + 1
      && leaves[0] == RouteLeaf(route.classifier, ClassifierTargetName(name))
      && forall i | 0 < i < |leaves| :: leaves[i] == RouteLeaf(route.targets[i - 1].model, route.targets[i - 1].name)
  {}

  lemma TargetNamesDiffer(name: string, named: map<string, string>, order: seq<string>, targets: seq<ClassifierTarget>)
    requires Lists(order, named.Keys) && TargetsOf(named, order, targets) && ClassifierTargetsOk(name, named)
    ensures forall i | 0 <= i < |targets| :: targets[i].name != ClassifierTargetName(name) && targets[i].name != ""
    ensures forall i, j | 0 <= i < j < |targets| :: targets[i].name != targets[j].name
  {
    forall i | 0 <= i < |targets| ensures targets[i].name != ClassifierTargetName(name) && targets[i].name != "" {
      TargetOkIff(name, named, order[i]);
    }
    forall i, j | 0 <= i < j < |targets| ensures targets[i].name != targets[j].name {
      assert order[i] in named && order[j] in named && order[i] != order[j];
    }
  }

  lemma DefaultIsListed(named: map<string, string>, order: seq<string>, targets: seq<ClassifierTarget>, name: string)
    requires Lists(order, named.Keys) && TargetsOf(named, order, targets)
    ensures (exists t | t in targets :: t.name == name) <==> DefaultNamed(named, name)
  {
    if k :| k in named && TrimSpace(k) == name {
      var i :| 0 <= i < |order| && order[i] == k;
      assert targets[i] in targets;
    }
    if t :| t in targets && t.name == name {
      var i :| 0 <= i < |targets| && targets[i] == t;
      assert order[i] in named;
    }
  }

  // ----- the routers of a config -----

  ghost predicate EntryOk(rawName: string, entry: RouterFile) {
    NameFits(TrimSpace(rawName)) && !AllSpace(entry.capability) && RouteOk(TrimSpace(rawName), entry.route)
  }

  /** The last of the keys that trim to n. */
  ghost predicate LastOf(keys: seq<string>, n: string, k: string) {
    k in keys && TrimSpace(k) == n && forall l | l in keys && TrimSpace(l) == n :: l == k || Less(l, k)
  }

  /** The router says what the entry says, with names that do not clash. */
  ghost predicate SaysEntry(raw: map<string, RouterFile>, k: string, n: string, r: NamedRouter) {
    && k in raw && ValidName(n) && WellFormed(n, r.route)
    && Reads(raw[k].route, r.route) && r.capability == TrimSpace(raw[k].capability)
  }

  /** The router stands for the last of its name's entries. */
  ghost predicate ReadLast(raw: map<string, RouterFile>, keys: seq<string>, n: string, r: NamedRouter) {
    exists k :: LastOf(keys, n, k) && SaysEntry(raw, k, n, r)
  }

  /** The routers of the entries read so far. */
  ghost predicate Parsed(raw: map<string, RouterFile>, keys: seq<string>, routers: map<string, NamedRouter>) {
    && (forall k | k in keys :: TrimSpace(k) in routers)
    && (forall n | n in routers :: ReadLast(raw, keys, n, routers[n]))
  }

  /** The routers are those of the whole file. */
  ghost predicate ParsedFrom(raw: map<string, RouterFile>, routers: map<string, NamedRouter>) {
    exists keys :: Lists(keys, raw.Keys) && Parsed(raw, keys, routers)
  }

  lemma LastIsLast(keys: seq<string>, k: string)
    requires Sorted(keys + [k])
    ensures LastOf(keys + [k], TrimSpace(k), k)
  {
    var more := keys + [k];
    forall l | l in more ensures l == k || Less(l, k) {
      var i :| 0 <= i < |more| && more[i] == l;
      assert more[|keys|] == k;
    }
  }

  lemma OthersStand(raw: map<string, RouterFile>, keys: seq<string>, k: string, n: string, r: NamedRouter)
    requires ReadLast(raw, keys, n, r) && n != TrimSpace(k)
    ensures ReadLast(raw, keys + [k], n, r)
  {
    var x :| LastOf(keys, n, x) && SaysEntry(raw, x, n, r);
    assert LastOf(keys + [k], n, x);
  }

  lemma LastStands(raw: map<string, RouterFile>, keys: seq<string>, k: string, router: NamedRouter)
    requires Sorted(keys + [k]) && SaysEntry(raw, k, TrimSpace(k), router)
    ensures ReadLast(raw, keys + [k], TrimSpace(k), router)
  {
    LastIsLast(keys, k);
  }

  lemma OneMoreEntry(raw: map<string, RouterFile>, keys: seq<string>, routers: map<string, NamedRouter>,
                     k: string, router: NamedRouter)
    requires Parsed(raw, keys, routers) && Sorted(keys + [k]) && SaysEntry(raw, k, TrimSpace(k), router)
    ensures Parsed(raw, keys + [k], routers[TrimSpace(k) := router])
  {
    LastStands(raw, keys, k, router);
    forall n | n in routers && n != TrimSpace(k) ensures ReadLast(raw, keys + [k], n, routers[n]) {
      OthersStand(raw, keys, k, n, routers[n]);
    }
  }

  lemma SortedPrefix(order: seq<string>, i: nat)
    requires Sorted(order) && i <= |order|
    ensures Sorted(order[..i])
  {}

  /** A file has one reading. */
  lemma ParsingIsUnique(raw: map<string, RouterFile>, a: map<string, NamedRouter>, b: map<string, NamedRouter>)
    requires ParsedFrom(raw, a) && ParsedFrom(raw, b)
    ensures a == b
  {
    var x :| Lists(x, raw.Keys) && Parsed(raw, x, a);
    var y :| Lists(y, raw.Keys) && Parsed(raw, y, b);
    NamesAreRead(raw, x, a, y, b);
    NamesAreRead(raw, y, b, x, a);
    forall n | n in a ensures a[n] == b[n] {
      SameEntry(raw, x, y, n, a[n], b[n]);
    }
    SameMap(a, b);
  }

  lemma NamesAreRead(raw: map<string, RouterFile>, x: seq<string>, a: map<string, NamedRouter>,
                     y: seq<string>, b: map<string, NamedRouter>)
    requires Lists(x, raw.Keys) && Parsed(raw, x, a) && Lists(y, raw.Keys) && Parsed(raw, y, b)
    ensures forall n | n in a :: n in b
  {
    forall n | n in a ensures n in b {
      assert ReadLast(raw, x, n, a[n]);
      var k :| LastOf(x, n, k) && SaysEntry(raw, k, n, a[n]);
      assert k in y;
    }
  }

  lemma SameEntry(raw: map<string, RouterFile>, x: seq<string>, y: seq<string>, n: string, a: NamedRouter,
                  b: NamedRouter)
    requires Lists(x, raw.Keys) && Lists(y, raw.Keys)
    requires ReadLast(raw, x, n, a) && ReadLast(raw, y, n, b)
    ensures a == b
  {
    var k :| LastOf(x, n, k) && SaysEntry(raw, k, n, a);
    var l :| LastOf(y, n, l) && SaysEntry(raw, l, n, b);
    OneLast(raw.Keys, x, y, n, k, l);
    ReadingIsUnique(raw[k].route, a.route, b.route);
  }

  lemma OneLast(keys: set<string>, x: seq<string>, y: seq<string>, n: string, k: string, l: string)
    requires Lists(x, keys) && Lists(y, keys) && LastOf(x, n, k) && LastOf(y, n, l)
    ensures k == l
  {
    assert l in x && k in y;
    LessTotal(k, l);
  }

  method ParseEntry(raw: map<string, RouterFile>, rawName: string) returns (router: Option<NamedRouter>)
    requires rawName in raw
    ensures router.Some? <==> EntryOk(rawName, raw[rawName])
    ensures router.Some? ==> SaysEntry(raw, rawName, TrimSpace(rawName), router.value)
  {
    var entry, name := raw[rawName], TrimSpace(rawName);
    var capability := TrimSpace(entry.capability);
    NameFitsIff(name);
    BlankIffTrimmedAway(entry.capability);
    if name == "" || !ValidName(name) || capability == "" {
      return None;
    }
    var route := ParseRoute(name, entry.route);
    router := if route.None? then None else Some(NamedRouter(capability, route.value));
  }

  /** parseNamedRouters. Two keys that trim to one name are both checked, and the later one in
      sorted order stands. */
  method ParseNamedRouters(raw: map<string, RouterFile>) returns (routers: Option<map<string, NamedRouter>>)
    ensures routers.Some? <==> forall k | k in raw :: EntryOk(k, raw[k])
    ensures routers.Some? ==> ParsedFrom(raw, routers.value)
  {
    var out: map<string, NamedRouter> := map[];
    var order := SortedKeys(raw);
    for i := 0 to |order|
      invariant forall k | k in order[..i] :: k in raw && EntryOk(k, raw[k])
      invariant Parsed(raw, order[..i], out)
    {
      var rawName := order[i];
      assert rawName in raw;
      assert order[..i + 1] == order[..i] + [rawName];
      var router := ParseEntry(raw, rawName);
      if router.None? {
        return None;
      }
      SortedPrefix(order, i + 1);
      OneMoreEntry(raw, order[..i], out, rawName, router.value);
      out := out[TrimSpace(rawName) := router.value];
    }
    assert order[..|order|] == order;
    routers := Some(out);
  }

  /** What every reader of a config relies on: each router is some entry's. */
  lemma ParsedIsWellFormed(raw: map<string, RouterFile>, routers: map<string, NamedRouter>)
    requires ParsedFrom(raw, routers)
    ensures forall n | n in routers :: ValidName(n) && WellFormed(n, routers[n].route)
    ensures forall k | k in raw :: TrimSpace(k) in routers
  {
    var keys :| Lists(keys, raw.Keys) && Parsed(raw, keys, routers);
  }

  predicate LeafAt(routers: map<string, NamedRouter>, n: string, l: RouteLeaf) {
    n in routers && l in Leaves(n, routers[n].route)
  }

  /** No two routers emit one Switchyard target name. */
  ghost predicate NoConflict(routers: map<string, NamedRouter>) {
    forall m, n, k, l | LeafAt(routers, m, k) && LeafAt(routers, n, l) && k.target == l.target && k.target != "" ::
      m == n
  }

  /** Exactly what validateRouters accepts; leafOk is validateChatLeaf. */
  ghost predicate Accepted(routers: map<string, NamedRouter>, leafOk: string -> bool) {
    && (forall n | n in routers :: routers[n].capability == "chat" && !routers[n].route.Unsupported?)
    && (forall n, l | LeafAt(routers, n, l) :: leafOk(l.leaf))
    && NoConflict(routers)
  }

  /** The leaves a router's requests can be sent to. */
  ghost predicate Dials(route: Route, leaf: string) {
    match route
    case Passthrough(target) => leaf == target
    case StageRouter(capable, efficient, _) => leaf == capable || leaf == efficient
    case LLMClassifier(_, classifier, targets, _, _) =>
      leaf == classifier || exists i :: 0 <= i < |targets| && leaf == targets[i].model
    case Fallback(leaves) => leaf in leaves
    case Unsupported(_) => false
  }

  /** The target names that stand for them; a passthrough needs none. */
  ghost predicate Emits(n: string, route: Route, name: string) {
    match route
    case StageRouter(_, _, _) => name == n + "_capable" || name == n + "_efficient"
    case LLMClassifier(_, _, targets, _, _) =>
      name == n + "_classifier" || exists i :: 0 <= i < |targets| && name == targets[i].name
    case Fallback(leaves) => exists i: nat :: i < |leaves| && name == n + "_" + Decimal(i)
    case _ => false
  }

  /** Chat routers of known kinds, all of whose leaves can be dialled, and no two of which emit one
      target name. */
  ghost predicate Servable(routers: map<string, NamedRouter>, leafOk: string -> bool) {
    && (forall n | n in routers :: routers[n].capability == "chat" && !routers[n].route.Unsupported?)
    && (forall n, leaf | n in routers && Dials(routers[n].route, leaf) :: leafOk(leaf))
    && forall m, n, t | m in routers && n in routers && Emits(m, routers[m].route, t) && Emits(n, routers[n].route, t)
         :: m == n
  }

  lemma DialsIff(n: string, route: Route, leaf: string)
    ensures Dials(route, leaf) <==> exists l :: l in Leaves(n, route) && l.leaf == leaf
  {
    var leaves := Leaves(n, route);
    match route {
      case Passthrough(_) => assert leaves[0].leaf == route.target;
      case StageRouter(capable, efficient, _) => assert leaves[0].leaf == capable && leaves[1].leaf == efficient;
      case LLMClassifier(_, classifier, targets, _, _) =>
        ClassifierLeaves(n, route);
        assert leaves[0].leaf == classifier && forall i | 0 <= i < |targets| :: leaves[i + 1].leaf == targets[i].model;
      case Fallback(all) => assert forall i | 0 <= i < |all| :: leaves[i].leaf == all[i];
      case Unsupported(_) =>
    }
  }

  lemma EmitsIff(n: string, route: Route, t: string)
    requires ValidName(n) && WellFormed(n, route)
    ensures Emits(n, route, t) <==> exists l :: l in Leaves(n, route) && l.target == t && t != ""
  {
    ValidNameIsTrimmed(n);
    var leaves := Leaves(n, route);
    match route {
      case Passthrough(_) => assert leaves[0].target == "";
      case StageRouter(_, _, _) => assert leaves[0].target == n + "_capable" && leaves[1].target == n + "_efficient";
      case LLMClassifier(_, _, targets, _, _) =>
        ClassifierLeaves(n, route);
        assert leaves[0].target == n + "_classifier";
        assert forall i | 0 <= i < |targets| :: leaves[i + 1].target == targets[i].name;
      case Fallback(all) => assert forall i: nat | i < |all| :: leaves[i].target == n + "_" + Decimal(i);
    }
  }

  /** What validateRouters accepts of a config that was parsed. */
  lemma AcceptedIffServable(routers: map<string, NamedRouter>, leafOk: string -> bool)
    requires forall n | n in routers :: ValidName(n) && WellFormed(n, routers[n].route)
    ensures Accepted(routers, leafOk) <==> Servable(routers, leafOk)
  {
    AllDialled(routers, leafOk);
    NamesOnce(routers);
  }

  lemma AllDialled(routers: map<string, NamedRouter>, leafOk: string -> bool)
    ensures (forall n, l | LeafAt(routers, n, l) :: leafOk(l.leaf)) <==>
            (forall n, leaf | n in routers && Dials(routers[n].route, leaf) :: leafOk(leaf))
  {
    if forall n, leaf | n in routers && Dials(routers[n].route, leaf) :: leafOk(leaf) {
      forall n, l | LeafAt(routers, n, l) ensures leafOk(l.leaf) {
        DialsIff(n, routers[n].route, l.leaf);
      }
    }
    if forall n, l | LeafAt(routers, n, l) :: leafOk(l.leaf) {
      forall n, leaf | n in routers && Dials(routers[n].route, leaf) ensures leafOk(leaf) {
        DialsIff(n, routers[n].route, leaf);
        var l :| l in Leaves(n, routers[n].route) && l.leaf == leaf;
        assert LeafAt(routers, n, l);
      }
    }
  }

  lemma NamesOnce(routers: map<string, NamedRouter>)
    requires forall n | n in routers :: ValidName(n) && WellFormed(n, routers[n].route)
    ensures NoConflict(routers) <==> forall m, n, t |
              m in routers && n in routers && Emits(m, routers[m].route, t) && Emits(n, routers[n].route, t) :: m == n
  {
    if NoConflict(routers) {
      forall m, n, t | m in routers && n in routers && Emits(m, routers[m].route, t) && Emits(n, routers[n].route, t)
        ensures m == n
      {
        EmitsIff(m, routers[m].route, t);
        EmitsIff(n, routers[n].route, t);
        var k :| k in Leaves(m, routers[m].route) && k.target == t;
        var l :| l in Leaves(n, routers[n].route) && l.target == t;
        assert LeafAt(routers, m, k) && LeafAt(routers, n, l);
      }
    } else {
      var m, n, k, l :|
        LeafAt(routers, m, k) && LeafAt(routers, n, l) && k.target == l.target && k.target != "" && m != n;
      EmitsIff(m, routers[m].route, k.target);
      EmitsIff(n, routers[n].route, k.target);
    }
  }

  /** The targets that routers processed so far emit, each with the router that emits it. */
  ghost predicate Owners(routers: map<string, NamedRouter>, done: set<string>, owners: map<string, string>) {
    && (forall t | t in owners ::
          owners[t] in done && t != "" && exists l :: LeafAt(routers, owners[t], l) && l.target == t)
    && (forall n, l | n in done && LeafAt(routers, n, l) && l.target != "" ::
          l.target in owners && owners[l.target] == n)
  }

  /** The inner loop of validateRouters: one router's leaves against the targets of the others. */
  method CheckLeaves(name: string, leaves: seq<RouteLeaf>, leafOk: string -> bool, owners: map<string, string>)
    returns (ok: bool, out: map<string, string>)
    ensures ok <==> forall l | l in leaves ::
        leafOk(l.leaf) && (l.target != "" && l.target in owners ==> owners[l.target] == name)
    ensures ok ==> forall t :: t in out <==> t in owners || (t != "" && exists l :: l in leaves && l.target == t)
    ensures ok ==> forall t | t in out :: out[t] == if t in owners then owners[t] else name
  {
    out := owners;
    for i := 0 to |leaves|
      invariant forall l | l in leaves[..i] ::
          leafOk(l.leaf) && (l.target != "" && l.target in owners ==> owners[l.target] == name)
      invariant forall t :: t in out <==> t in owners || (t != "" && exists l :: l in leaves[..i] && l.target == t)
      invariant forall t | t in out :: out[t] == if t in owners then owners[t] else name
    {
      assert leaves[..i + 1] == leaves[..i] + [leaves[i]];
      var l := leaves[i];
      if !leafOk(l.leaf) {
        return false, out;
      }
      if l.target == "" {
        continue;
      }
      if l.target in out && out[l.target] != name {
        return false, out;
      }
      out := out[l.target := name];
    }
    assert leaves[..|leaves|] == leaves;
    ok := true;
  }

  /** validateRouters. */
  method ValidateRouters(routers: map<string, NamedRouter>, leafOk: string -> bool) returns (ok: bool)
    ensures ok <==> Accepted(routers, leafOk)
  {
    var order := SortedKeys(routers);
    var owners: map<string, string> := map[];
    ghost var done: set<string> := {};
    for i := 0 to |order|
      invariant forall n :: n in done <==> n in order[..i]
      invariant done <= routers.Keys
      invariant Owners(routers, done, owners)
      invariant forall n | n in done :: routers[n].capability == "chat" && !routers[n].route.Unsupported?
      invariant forall n, l | n in done && LeafAt(routers, n, l) :: leafOk(l.leaf)
    {
      var name := order[i];
      assert name in routers && name !in done;
      assert order[..i + 1] == order[..i] + [name];
      var router := routers[name];
      if router.capability != "chat" || router.route.Unsupported? {
        return false;
      }
      var leaves := Leaves(name, router.route);
      var good, next := CheckLeaves(name, leaves, leafOk, owners);
      if !good {
        ConflictShows(routers, done, owners, name, leafOk);
        return false;
      }
      OwnersGrow(routers, done, owners, name, next);
      owners, done := next, done + {name};
    }
    assert order[..|order|] == order;
    OneOwnerEach(routers, owners);
    ok := true;
  }

  lemma ConflictShows(routers: map<string, NamedRouter>, done: set<string>, owners: map<string, string>,
                      name: string, leafOk: string -> bool)
    requires name in routers && name !in done && Owners(routers, done, owners)
    requires exists l :: l in Leaves(name, routers[name].route)
               && (!leafOk(l.leaf) || (l.target != "" && l.target in owners && owners[l.target] != name))
    ensures !Accepted(routers, leafOk)
  {
    var l :| l in Leaves(name, routers[name].route)
             && (!leafOk(l.leaf) || (l.target != "" && l.target in owners && owners[l.target] != name));
    assert LeafAt(routers, name, l);
    if leafOk(l.leaf) {
      var k :| LeafAt(routers, owners[l.target], k) && k.target == l.target;
    }
  }

  lemma OwnersGrow(routers: map<string, NamedRouter>, done: set<string>, owners: map<string, string>,
                   name: string, next: map<string, string>)
    requires name in routers && name !in done && Owners(routers, done, owners)
    requires forall l | l in Leaves(name, routers[name].route) && l.target != "" && l.target in owners ::
        owners[l.target] == name
    requires forall t :: t in next <==>
        t in owners || (t != "" && exists l :: l in Leaves(name, routers[name].route) && l.target == t)
    requires forall t | t in next :: next[t] == if t in owners then owners[t] else name
    ensures Owners(routers, done + {name}, next)
  {
    forall t | t in next
      ensures next[t] in done + {name} && t != "" && exists l :: LeafAt(routers, next[t], l) && l.target == t
    {
      if t !in owners {
        var l :| l in Leaves(name, routers[name].route) && l.target == t;
        assert LeafAt(routers, name, l);
      }
    }
  }

  lemma OneOwnerEach(routers: map<string, NamedRouter>, owners: map<string, string>)
    requires Owners(routers, routers.Keys, owners)
    ensures NoConflict(routers)
  {}
}
