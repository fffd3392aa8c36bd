/** Rendering the routers Switchyard serves (internal/switchyard/render.go): each composed
    router becomes a route over named targets, and each target one leaf and an llm client. */
module Switchyard {
  import opened GoStrings
  import opened Routers

  const ROUTER_ID_PREFIX := "router/"
  const OPENAI_CHAT := "openai_chat"
  const POLYPUS_CLIENT := "polypus"
  const FALLBACK_CLIENT := "polypus_fallback"

  datatype LLMClient = LLMClient(format: string, baseURL: string, maxRetries: Option<nat>)

  datatype Target = Target(id: string, llmClient: string)

  /** A rendered route; its targets are names in the file's targets table. */
  datatype Rendered =
    | Stage(id: string, capableTarget: string, efficientTarget: string, settings: string)
    | Classifier(id: string, classifierTarget: string, targets: seq<string>, defaultTarget: string, settings: string)
    | Random(id: string, targets: seq<string>, weights: seq<nat>)

  datatype RoutesFile = RoutesFile(llmClients: map<string, LLMClient>, targets: map<string, Target>,
                                   routes: map<string, Rendered>)

  function RouterPublicID(name: string): string {
    ROUTER_ID_PREFIX + TrimSpace(name)
  }

  function ClientOf(route: Route): string {
    if route.Fallback? then FALLBACK_CLIENT else POLYPUS_CLIENT
  }

  predicate Composed(route: Route) {
    route.StageRouter? || route.LLMClassifier? || route.Fallback?
  }

  // ----- rendering -----

  /** Writing a run of leaves into the targets table, a later one over an earlier. */
  function WithLeaves(targets: map<string, Target>, leaves: seq<RouteLeaf>, client: string): map<string, Target> {
    if leaves == [] then targets
    else
      var l := leaves[|leaves| - 1];
      WithLeaves(targets, leaves[..|leaves| - 1], client)[l.target := Target(l.leaf, client)]
  }

  lemma OneMoreLeaf(targets: map<string, Target>, leaves: seq<RouteLeaf>, i: nat, client: string)
    requires i < |leaves|
    ensures WithLeaves(targets, leaves[..i + 1], client)
         == WithLeaves(targets, leaves[..i], client)[leaves[i].target := Target(leaves[i].leaf, client)]
  {
    assert leaves[..i + 1][..i] == leaves[..i];
  }

  function Names(leaves: seq<RouteLeaf>): (names: seq<string>)
    ensures |names| == |leaves| && forall i | 0 <= i < |leaves| :: names[i] == leaves[i].target
  {
    seq(|leaves|, i requires 0 <= i < |leaves| => leaves[i].target)
  }

  function Weights(n: nat): (w: seq<nat>)
    ensures |w| == n && forall i | 0 <= i < n :: w[i] == if i == 0 then 1 else 0
  {
    seq(n, i => if i == 0 then 1 else 0)
  }

  /** The route a composed router renders to. */
  function RouteOf(name: string, route: Route): Rendered
    requires Composed(route)
  {
    var id := RouterPublicID(name);
    match route
    case StageRouter(_, _, settings) => Stage(id, CapableTargetName(name), EfficientTargetName(name), settings)
    case LLMClassifier(_, _, _, defaultTarget, settings) =>
      Classifier(id, ClassifierTargetName(name), Names(Leaves(name, route)[1..]), defaultTarget, settings)
    case Fallback(leaves) => Random(id, Names(Leaves(name, route)), Weights(|leaves|))
  }

  function WithRouter(file: RoutesFile, name: string, route: Route): RoutesFile {
    if !Composed(route) then file
    else file.(targets := WithLeaves(file.targets, Leaves(name, route), ClientOf(route)),
               routes := file.routes[name := RouteOf(name, route)])
  }

  function WithRouters(file: RoutesFile, routers: map<string, NamedRouter>, order: seq<string>): RoutesFile
    requires forall n | n in order :: n in routers
  {
    if order == [] then file
    else
      var n := order[|order| - 1];
      WithRouter(WithRouters(file, routers, order[..|order| - 1]), n, routers[n].route)
  }

  predicate HasFallback(routers: map<string, NamedRouter>) {
    exists n | n in routers :: routers[n].route.Fallback?
  }

  function EmptyFile(routers: map<string, NamedRouter>, baseURL: string): RoutesFile {
    var client := LLMClient(OPENAI_CHAT, baseURL, None);
    var clients := map[POLYPUS_CLIENT := client];
    RoutesFile(if HasFallback(routers) then clients[FALLBACK_CLIENT := client.(maxRetries := Some(0))] else clients,
               map[], map[])
  }

  method AddFallback(file: RoutesFile, name: string, route: Route) returns (out: RoutesFile)
    requires route.Fallback?
    ensures out == WithRouter(file, name, route)
  {
    var leaves := route.leaves;
    ghost var all := Leaves(name, route);
    var targets := file.targets;
    var names: seq<string>, weights: seq<nat> := [], [];
    for i := 0 to |leaves|
      invariant targets == WithLeaves(file.targets, all[..i], FALLBACK_CLIENT)
      invariant |names| == i && forall j | 0 <= j < i :: names[j] == all[j].target
      invariant |weights| == i && forall j | 0 <= j < i :: weights[j] == if j == 0 then 1 else 0
    {
      OneMoreLeaf(file.targets, all, i, FALLBACK_CLIENT);
      var t := FallbackTargetName(name, i);
      targets := targets[t := Target(leaves[i], FALLBACK_CLIENT)];
      names := names + [t];
      weights := weights + [if i == 0 then 1 else 0];
    }
    assert all[..|leaves|] == all;
    assert names == Names(all) && weights == Weights(|leaves|);
    out := file.(targets := targets, routes := file.routes[name := Random(RouterPublicID(name), names, weights)]);
  }

  method AddStageRouter(file: RoutesFile, name: string, route: Route) returns (out: RoutesFile)
    requires route.StageRouter?
    ensures out == WithRouter(file, name, route)
  {
    var capable, efficient := CapableTargetName(name), EfficientTargetName(name);
    var targets := file.targets[capable := Target(route.capable, POLYPUS_CLIENT)];
    targets := targets[efficient := Target(route.efficient, POLYPUS_CLIENT)];
    ghost var all := Leaves(name, route);
    assert all[..1][..0] == [] && all[..1] == [all[0]];
    assert WithLeaves(file.targets, all[..1], POLYPUS_CLIENT)
        == file.targets[capable := Target(route.capable, POLYPUS_CLIENT)];
    out := file.(targets := targets,
                 routes := file.routes[name := Stage(RouterPublicID(name), capable, efficient, route.settings)]);
  }

  /** addLLMClassifier's loop over the named targets; base is the table before the judge's. */
  method AddNamedTargets(ghost base: map<string, Target>, first: map<string, Target>, name: string, route: Route)
    returns (targets: map<string, Target>, names: seq<string>)
    requires route.LLMClassifier? && first == WithLeaves(base, Leaves(name, route)[..1], POLYPUS_CLIENT)
    ensures targets == WithLeaves(base, Leaves(name, route), POLYPUS_CLIENT)
    ensures names == Names(Leaves(name, route)[1..])
  {
    ghost var all := Leaves(name, route);
    targets, names := first, [];
    for i := 0 to |route.targets|
      invariant targets == WithLeaves(base, all[..i + 1], POLYPUS_CLIENT)
      invariant |names| == i && forall j | 0 <= j < i :: names[j] == all[j + 1].target
    {
      OneMoreLeaf(base, all, i + 1, POLYPUS_CLIENT);
      var t := route.targets[i];
      targets := targets[t.name := Target(t.model, POLYPUS_CLIENT)];
      names := names + [t.name];
    }
    assert all[..|all|] == all;
  }

  /** None for a mode other than custom. */
  method AddLLMClassifier(file: RoutesFile, name: string, route: Route) returns (out: Option<RoutesFile>)
    requires route.LLMClassifier?
    ensures out == if route.custom then Some(WithRouter(file, name, route)) else None
  {
    if !route.custom {
      return None;
    }
    var classifier := ClassifierTargetName(name);
    var first := file.targets[classifier := Target(route.classifier, POLYPUS_CLIENT)];
    ghost var all := Leaves(name, route);
    assert all[..1] == [all[0]] && [all[0]][..0] == [];
    var targets, names := AddNamedTargets(file.targets, first, name, route);
    out := Some(file.(targets := targets, routes := file.routes[name :=
      Classifier(RouterPublicID(name), classifier, names, route.defaultTarget, route.settings)]));
  }

  predicate Renderable(route: Route) {
    !route.Unsupported? && (route.LLMClassifier? ==> route.custom)
  }

  /** The switch of render's loop: one router's entries, or none when it cannot be rendered. */
  method AddRouter(file: RoutesFile, name: string, route: Route) returns (out: Option<RoutesFile>)
    ensures out == if Renderable(route) then Some(WithRouter(file, name, route)) else None
  {
    match route {
      case Passthrough(_) => out := Some(file);
      case StageRouter(_, _, _) =>
        var added := AddStageRouter(file, name, route);
        out := Some(added);
      case Fallback(_) =>
        var added := AddFallback(file, name, route);
        out := Some(added);
      case LLMClassifier(_, _, _, _, _) => out := AddLLMClassifier(file, name, route);
      case Unsupported(_) => out := None;
    }
  }

  /** render, for any order the router map is walked in; None when a router cannot be rendered. */
  method Render(routers: map<string, NamedRouter>, baseURL: string, order: seq<string>)
    returns (file: Option<RoutesFile>)
    requires Lists(order, routers.Keys)
    ensures file.Some? <==> forall n | n in routers :: match routers[n].route
                              case Unsupported(_) => false
                              case LLMClassifier(custom, _, _, _, _) => custom
                              case _ => true
    ensures file.Some? ==> file.value == WithRouters(EmptyFile(routers, baseURL), routers, order)
  {
    var out := EmptyFile(routers, baseURL);
    for i := 0 to |order|
      invariant forall n | n in order[..i] :: n in routers && Renderable(routers[n].route)
      invariant out == WithRouters(EmptyFile(routers, baseURL), routers, order[..i])
    {
      var name := order[i];
      assert name in routers;
      assert order[..i + 1] == order[..i] + [name];
      assert order[..i + 1][..i] == order[..i];
      var added := AddRouter(out, name, routers[name].route);
      if added.None? {
        return None;
      }
      out := added.value;
    }
    assert order[..|order|] == order;
    file := Some(out);
  }

  // ----- what the rendered file means -----

  /** The names of the routers differ from each other and within each router: what parsing and
      validation establish. */
  ghost predicate Distinct(routers: map<string, NamedRouter>) {
    NoConflict(routers) && forall n | n in routers :: WellFormed(n, routers[n].route) && ValidName(n)
  }

  /** A leaf's target stands in the table as the leaf and its router's client. */
  ghost predicate Stands(targets: map<string, Target>, l: RouteLeaf, client: string) {
    l.target in targets && targets[l.target] == Target(l.leaf, client)
  }

  lemma {:induction false} LeavesStand(targets: map<string, Target>, leaves: seq<RouteLeaf>, client: string)
    requires forall i, j | 0 <= i < j < |leaves| :: leaves[i].target != leaves[j].target
    ensures var r := WithLeaves(targets, leaves, client);
      && (forall l | l in leaves :: Stands(r, l, client))
      && (forall t :: t in r <==> t in targets || exists l :: l in leaves && l.target == t)
      && (forall t | t in targets && (forall l | l in leaves :: l.target != t) :: r[t] == targets[t])
  {
    if leaves != [] {
      var front, last := leaves[..|leaves| - 1], leaves[|leaves| - 1];
      assert leaves == front + [last];
      LeavesStand(targets, front, client);
      forall l | l in front ensures l.target != last.target {
        var i :| 0 <= i < |front| && front[i] == l;
        assert leaves[i] == l;
      }
    }
  }

  /** The file after a run of routers: their leaves stand, their routes are there, and nothing
      else is. */
  ghost predicate Describes(file: RoutesFile, routers: map<string, NamedRouter>, done: set<string>) {
    && done <= routers.Keys
    && (forall n, l | n in done && Composed(routers[n].route) && LeafAt(routers, n, l) ::
          Stands(file.targets, l, ClientOf(routers[n].route)))
    && (forall t | t in file.targets ::
          exists n, l :: n in done && Composed(routers[n].route) && LeafAt(routers, n, l) && l.target == t)
    && (forall n :: n in file.routes <==> n in done && Composed(routers[n].route))
    && (forall n | n in file.routes :: file.routes[n] == RouteOf(n, routers[n].route))
  }

  lemma OneMoreRouter(file: RoutesFile, routers: map<string, NamedRouter>, done: set<string>, name: string)
    requires Distinct(routers) && Describes(file, routers, done) && name in routers && name !in done
    ensures Describes(WithRouter(file, name, routers[name].route), routers, done + {name})
  {
    var route := routers[name].route;
    if Composed(route) {
      var leaves := Leaves(name, route);
      var client := ClientOf(route);
      var r := WithLeaves(file.targets, leaves, client);
      LeavesStand(file.targets, leaves, client);
      forall n, l | n in done && Composed(routers[n].route) && LeafAt(routers, n, l)
        ensures Stands(r, l, ClientOf(routers[n].route))
      {
        forall k | k in leaves ensures k.target != l.target {
          assert LeafAt(routers, name, k);
        }
      }
      forall t | t in r
        ensures exists n, l ::
          n in done + {name} && Composed(routers[n].route) && LeafAt(routers, n, l) && l.target == t
      {
        if t in file.targets {
          var n, l :| n in done && Composed(routers[n].route) && LeafAt(routers, n, l) && l.target == t;
          assert n in done + {name};
        } else {
          var l :| l in leaves && l.target == t;
          assert LeafAt(routers, name, l) && name in done + {name};
        }
      }
    }
  }

  lemma {:induction false} RenderedDescribes(routers: map<string, NamedRouter>, baseURL: string, order: seq<string>)
    returns (done: set<string>)
    requires Distinct(routers) && (forall n | n in order :: n in routers)
    requires forall i, j | 0 <= i < j < |order| :: order[i] != order[j]
    ensures forall n :: n in done <==> n in order
    ensures var file := WithRouters(EmptyFile(routers, baseURL), routers, order);
      Describes(file, routers, done) && file.llmClients == EmptyFile(routers, baseURL).llmClients
  {
    if order == [] {
      done := {};
    } else {
      var front, name := order[..|order| - 1], order[|order| - 1];
      assert order == front + [name];
      done := RenderedDescribes(routers, baseURL, front);
      assert name in order && name !in done;
      OneMoreRouter(WithRouters(EmptyFile(routers, baseURL), routers, front), routers, done, name);
      done := done + {name};
    }
  }

  /** Where a target name leads: the leaf that is called, and the client it is called with. */
  function Hop(file: RoutesFile, target: string): Option<(string, LLMClient)> {
    if target in file.targets && file.targets[target].llmClient in file.llmClients
    then Some((file.targets[target].id, file.llmClients[file.targets[target].llmClient]))
    else None
  }

  /** Following a rendered route's target names through the tables leads to the router's own
      leaves, called through Polypus: without retries by a fallback, which tries its next leaf at
      once, and with the client's own by the others. */
  ghost predicate Means(file: RoutesFile, baseURL: string, n: string, route: Route) {
    var client := LLMClient("openai_chat", baseURL, None);
    match route
    case Passthrough(_) => n !in file.routes
    case Unsupported(_) => false
    case StageRouter(capable, efficient, settings) =>
      n in file.routes && var r := file.routes[n];
      r.Stage? && r.id == "router/" + n && r.settings == settings
      && r.capableTarget == n + "_capable" && Hop(file, r.capableTarget) == Some((capable, client))
      && r.efficientTarget == n + "_efficient" && Hop(file, r.efficientTarget) == Some((efficient, client))
    case LLMClassifier(_, classifier, targets, defaultTarget, settings) =>
      n in file.routes && var r := file.routes[n];
      r.Classifier? && r.id == "router/" + n && r.settings == settings
      && r.classifierTarget == n + "_classifier" && Hop(file, r.classifierTarget) == Some((classifier, client))
      && r.defaultTarget == defaultTarget
      && |r.targets| == |targets|
      && forall i | 0 <= i < |targets| ::
            r.targets[i] == targets[i].name && Hop(file, r.targets[i]) == Some((targets[i].model, client))
    case Fallback(leaves) =>
      n in file.routes && var r := file.routes[n];
      r.Random? && r.id == "router/" + n && |r.targets| == |r.weights| == |leaves|
      && forall i | 0 <= i < |leaves| ::
            && r.targets[i] == n + "_" + Decimal(i)
            && Hop(file, r.targets[i]) == Some((leaves[i], client.(maxRetries := Some(0))))
            && r.weights[i] == if i == 0 then 1 else 0
  }

  lemma LeafHops(file: RoutesFile, routers: map<string, NamedRouter>, baseURL: string, n: string, l: RouteLeaf)
    requires Describes(file, routers, routers.Keys) && LeafAt(routers, n, l) && Composed(routers[n].route)
    requires file.llmClients == EmptyFile(routers, baseURL).llmClients
    ensures LeadsTo(file, baseURL, routers[n].route.Fallback?, l)
  {
    assert Stands(file.targets, l, ClientOf(routers[n].route));
  }

  lemma DescribedMeans(file: RoutesFile, routers: map<string, NamedRouter>, baseURL: string, n: string)
    requires Distinct(routers) && Describes(file, routers, routers.Keys) && n in routers
    requires file.llmClients == EmptyFile(routers, baseURL).llmClients
    ensures Means(file, baseURL, n, routers[n].route)
  {
    var route := routers[n].route;
    ValidNameIsTrimmed(n);
    if Composed(route) {
      forall l | l in Leaves(n, route) ensures LeadsTo(file, baseURL, route.Fallback?, l) {
        LeafHops(file, routers, baseURL, n, l);
      }
      LedMeans(file, baseURL, n, route);
    }
  }

  ghost predicate LeadsTo(file: RoutesFile, baseURL: string, fallback: bool, l: RouteLeaf) {
    Hop(file, l.target) == Some((l.leaf, LLMClient("openai_chat", baseURL, if fallback then Some(0) else None)))
  }

  lemma LedMeans(file: RoutesFile, baseURL: string, n: string, route: Route)
    requires Composed(route) && WellFormed(n, route) && TrimSpace(n) == n
    requires n in file.routes && file.routes[n] == RouteOf(n, route)
    requires forall l | l in Leaves(n, route) :: LeadsTo(file, baseURL, route.Fallback?, l)
    ensures Means(file, baseURL, n, route)
  {
    var leaves := Leaves(n, route);
    assert forall i | 0 <= i < |leaves| :: leaves[i] in leaves;
    match route {
      case StageRouter(_, _, _) =>
        assert leaves[0].target == CapableTargetName(n) && leaves[1].target == EfficientTargetName(n);
      case LLMClassifier(_, _, targets, _, _) =>
        ClassifierLeaves(n, route);
        assert leaves[0].target == ClassifierTargetName(n);
        forall i | 0 <= i < |targets| ensures Names(leaves[1..])[i] == targets[i].name {
          assert leaves[1..][i] == leaves[i + 1];
        }
        assert forall i | 0 <= i < |targets| :: leaves[i + 1] == RouteLeaf(targets[i].model, targets[i].name);
      case Fallback(_) =>
      case _ =>
    }
  }

  /** Every target of a described file is some router's leaf, with a client the file defines. */
  lemma TargetsAreLeaves(file: RoutesFile, routers: map<string, NamedRouter>, baseURL: string, t: string)
    requires Describes(file, routers, routers.Keys) && t in file.targets
    requires file.llmClients == EmptyFile(routers, baseURL).llmClients
    ensures file.targets[t].llmClient in file.llmClients
    ensures exists n, l :: LeafAt(routers, n, l) && l.target == t && l.leaf == file.targets[t].id
  {
    var n, l :| n in routers && Composed(routers[n].route) && LeafAt(routers, n, l) && l.target == t;
    assert Stands(file.targets, l, ClientOf(routers[n].route));
  }

  /** Rendering keeps the routers' meaning, in whatever order the router map is walked: every
      route leads to its router's own leaves, there are no other routes, every target is some
      router's leaf with a client the file defines, and the client without retries is there just
      when a fallback needs it. */
  lemma RenderingKeepsMeaning(routers: map<string, NamedRouter>, baseURL: string, order: seq<string>)
    requires Distinct(routers) && Lists(order, routers.Keys)
    ensures var file := WithRouters(EmptyFile(routers, baseURL), routers, order);
      && (forall n | n in routers :: Means(file, baseURL, n, routers[n].route))
      && (forall n | n in file.routes :: n in routers)
      && (forall t | t in file.targets :: file.targets[t].llmClient in file.llmClients
                       && exists n, l :: LeafAt(routers, n, l) && l.target == t && l.leaf == file.targets[t].id)
      && file.llmClients.Keys == if exists n :: n in routers && routers[n].route.Fallback?
                                 then {"polypus", "polypus_fallback"} else {"polypus"}
  {
    var file := WithRouters(EmptyFile(routers, baseURL), routers, order);
    var done := RenderedDescribes(routers, baseURL, order);
    assert done == routers.Keys;
    forall n | n in routers ensures Means(file, baseURL, n, routers[n].route) {
      DescribedMeans(file, routers, baseURL, n);
    }
    forall t | t in file.targets
      ensures file.targets[t].llmClient in file.llmClients
      ensures exists n, l :: LeafAt(routers, n, l) && l.target == t && l.leaf == file.targets[t].id
    {
      TargetsAreLeaves(file, routers, baseURL, t);
    }
  }

  lemma SameDescription(fa: RoutesFile, fb: RoutesFile, routers: map<string, NamedRouter>)
    requires Describes(fa, routers, routers.Keys) && Describes(fb, routers, routers.Keys)
    ensures forall t | t in fa.targets :: t in fb.targets && fb.targets[t] == fa.targets[t]
    ensures forall n | n in fa.routes :: n in fb.routes && fb.routes[n] == fa.routes[n]
  {
    forall t | t in fa.targets ensures t in fb.targets && fb.targets[t] == fa.targets[t] {
      var n, l :| n in routers && Composed(routers[n].route) && LeafAt(routers, n, l) && l.target == t;
      assert Stands(fa.targets, l, ClientOf(routers[n].route)) && Stands(fb.targets, l, ClientOf(routers[n].route));
    }
  }

  /** A description leaves nothing open but the clients. */
  lemma DescriptionIsExact(fa: RoutesFile, fb: RoutesFile, routers: map<string, NamedRouter>)
    requires Describes(fa, routers, routers.Keys) && Describes(fb, routers, routers.Keys)
    requires fa.llmClients == fb.llmClients
    ensures fa == fb
  {
    SameDescription(fa, fb, routers);
    SameDescription(fb, fa, routers);
    SameMap(fa.targets, fb.targets);
    SameMap(fa.routes, fb.routes);
  }

  /** And it does not depend on that order. */
  lemma RenderingIgnoresOrder(routers: map<string, NamedRouter>, baseURL: string, a: seq<string>, b: seq<string>)
    requires Distinct(routers) && Lists(a, routers.Keys) && Lists(b, routers.Keys)
    ensures WithRouters(EmptyFile(routers, baseURL), routers, a) == WithRouters(EmptyFile(routers, baseURL), routers, b)
  {
    var da := RenderedDescribes(routers, baseURL, a);
    var db := RenderedDescribes(routers, baseURL, b);
    assert da == routers.Keys && db == routers.Keys;
    DescriptionIsExact(WithRouters(EmptyFile(routers, baseURL), routers, a),
                       WithRouters(EmptyFile(routers, baseURL), routers, b), routers);
  }

  /** The rendered file is a function of the config file: nothing depends on how Go walks any
      of its maps. */
  lemma CompilingIsAFunction(raw: map<string, RouterFile>, baseURL: string, leafOk: string -> bool,
                             ra: map<string, NamedRouter>, a: seq<string>, rb: map<string, NamedRouter>, b: seq<string>)
    requires ParsedFrom(raw, ra) && Accepted(ra, leafOk) && Lists(a, ra.Keys)
    requires ParsedFrom(raw, rb) && Lists(b, rb.Keys)
    ensures WithRouters(EmptyFile(ra, baseURL), ra, a) == WithRouters(EmptyFile(rb, baseURL), rb, b)
  {
    ParsingIsUnique(raw, ra, rb);
    ParsedIsWellFormed(raw, ra);
    RenderingIgnoresOrder(ra, baseURL, a, b);
  }

  /** From the file to the rendered routes: a config that parses and validates renders, and
      what is rendered means what it says. */
  method Compile(raw: map<string, RouterFile>, leafOk: string -> bool, baseURL: string)
    returns (routers: Option<map<string, NamedRouter>>, file: Option<RoutesFile>)
    ensures routers.Some? <==> forall k | k in raw :: EntryOk(k, raw[k])
    ensures routers.Some? ==> ParsedFrom(raw, routers.value)
    ensures file.Some? <==> routers.Some? && Servable(routers.value, leafOk)
    ensures file.Some? ==>
      && (forall n | n in routers.value :: Means(file.value, baseURL, n, routers.value[n].route))
      && (forall n | n in file.value.routes :: n in routers.value)
      && (forall t | t in file.value.targets :: file.value.targets[t].llmClient in file.value.llmClients)
      && exists order :: Lists(order, routers.value.Keys)
                         && file.value == WithRouters(EmptyFile(routers.value, baseURL), routers.value, order)
  {
    file := None;
    routers := ParseNamedRouters(raw);
    if routers.None? {
      return;
    }
    ParsedIsWellFormed(raw, routers.value);
    AcceptedIffServable(routers.value, leafOk);
    var ok := ValidateRouters(routers.value, leafOk);
    if !ok {
      return;
    }
    var walk := SortedKeys(routers.value);
    file := Render(routers.value, baseURL, walk);
    RenderingKeepsMeaning(routers.value, baseURL, walk);
  }
}
