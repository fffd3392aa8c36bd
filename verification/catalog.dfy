/** The model catalogue (internal/gateway/apicatalog.go): the two surfaces a model can be
    listed on, one public id per backend model, and looking a model up by any of its ids. */
module Catalog {
  import opened GoStrings
  import opened AllowOverlay

  const ROUTER_ID_PREFIX := "router/"
  const DEFAULT_SYSTEM_ONE := "typesafe/jev"

  /** What the catalogue reads of a backend. */
  datatype Served = Served(systemOne: bool, systemOneAllow: Option<seq<string>>)

  /** ids lists the backends in the sorted order the source walks them in; systemOneDefault is
      EffectiveSystemOneBackend, empty when SystemOne is off. */
  datatype Gateway = Gateway(backends: map<string, Served>, ids: seq<string>, systemOneDefault: string)

  /** What a loaded config guarantees about its backend ids. */
  ghost predicate Loaded(g: Gateway) {
    && (forall b | b in g.backends :: b != "" && Trimmed(b) && '/' !in b && b != "router")
    && (g.systemOneDefault == "" || g.systemOneDefault in g.backends)
    && (forall b :: b in g.ids <==> b in g.backends)
  }

  datatype Model = Model(id: string, ownedBy: string)

  function FirstSystemOne(g: Gateway, ids: seq<string>): (b: string)
    ensures b == "" || (b in ids && b in g.backends)
  {
    if ids == [] then ""
    else if ids[0] in g.backends && g.backends[ids[0]].systemOne then ids[0]
    else FirstSystemOne(g, ids[1..])
  }

  /** backendAndDownstreamForPublicID. */
  function Resolve(g: Gateway, publicID: string): (string, string) {
    var id := TrimSpace(publicID);
    var i := IndexByte(id, '/');
    if i > 0 && id[..i] in g.backends then (id[..i], NormalizeDownstream(id[..i], id))
    else if g.systemOneDefault != "" then (g.systemOneDefault, NormalizeDownstream(g.systemOneDefault, id))
    else
      var b := FirstSystemOne(g, g.ids);
      if b != "" then (b, NormalizeDownstream(b, id)) else ("", id)
  }

  /** catalogModelKey: the same for every public id of one backend model. */
  function Key(g: Gateway, publicID: string): string {
    var id := TrimSpace(publicID);
    if ROUTER_ID_PREFIX <= id then id
    else
      var (b, down) := Resolve(g, id);
      var backend, model := TrimSpace(b), TrimSpace(down);
      if backend == "" || model == "" then id else backend + "/" + model
  }

  /** catalogModelIDRank. */
  function Rank(publicID: string, backendID: string): nat {
    var id := TrimSpace(publicID);
    if backendID + "/" <= id then 0 else if '/' in id then 2 else 1
  }

  /** preferCatalogModelID. */
  function Prefer(a: string, b: string, backendID: string): string {
    var ra, rb := Rank(a, backendID), Rank(b, backendID);
    if ra < rb then a else if rb < ra then b else if Utf8Len(a) <= Utf8Len(b) then a else b
  }

  // ----- surfaces -----

  datatype Surface = OpenAI | SystemOne

  /** isSystemOneListedModel. */
  predicate SystemOneListed(g: Gateway, publicID: string) {
    var id := TrimSpace(publicID);
    && id != "" && g.systemOneDefault != ""
    && var (b, down) := Resolve(g, id);
       b in g.backends && g.backends[b].systemOne
       && var allow := match g.backends[b].systemOneAllow case Some(l) => l case None => [DEFAULT_SYSTEM_ONE];
       ModelInAllowList(b, down, allow)
  }

  function OnSurface(g: Gateway, all: seq<Model>, surface: Surface): seq<Model> {
    Filter((m: Model) => SystemOneListed(g, m.id) == surface.SystemOne?, all)
  }

  /** partitionModels. */
  method PartitionModels(g: Gateway, all: seq<Model>, surface: Surface) returns (out: seq<Model>)
    ensures out == OnSurface(g, all, surface)
  {
    out := [];
    for i := 0 to |all|
      invariant out == OnSurface(g, all[..i], surface)
    {
      assert all[..i + 1] == all[..i] + [all[i]];
      FilterSnoc((m: Model) => SystemOneListed(g, m.id) == surface.SystemOne?, all[..i], all[i]);
      var sys := SystemOneListed(g, all[i].id);
      match surface {
        case OpenAI => if !sys { out := out + [all[i]]; }
        case SystemOne => if sys { out := out + [all[i]]; }
      }
    }
    assert all[..|all|] == all;
  }

  /** The two surfaces hold every model once between them. */
  lemma {:induction false} SurfacesPartition(g: Gateway, all: seq<Model>)
    ensures multiset(OnSurface(g, all, OpenAI)) + multiset(OnSurface(g, all, SystemOne)) == multiset(all)
  {
    if all != [] {
      SurfacesPartition(g, all[1..]);
      SurfaceOfFirst(g, all);
      var first, a, b := [all[0]], OnSurface(g, all[1..], OpenAI), OnSurface(g, all[1..], SystemOne);
      assert all == first + all[1..];
      if SystemOneListed(g, all[0].id) {
        assert OnSurface(g, all, SystemOne) == first + b;
      } else {
        assert OnSurface(g, all, OpenAI) == first + a;
      }
    }
  }

  lemma SurfaceOfFirst(g: Gateway, all: seq<Model>)
    requires all != []
    ensures var sys := SystemOneListed(g, all[0].id);
      && OnSurface(g, all, OpenAI) == (if sys then [] else [all[0]]) + OnSurface(g, all[1..], OpenAI)
      && OnSurface(g, all, SystemOne) == (if sys then [all[0]] else []) + OnSurface(g, all[1..], SystemOne)
  {}

  /** And no model is on both. */
  lemma SurfacesAreDisjoint(g: Gateway, all: seq<Model>, m: Model)
    ensures m in OnSurface(g, all, OpenAI) <==> m in all && !SystemOneListed(g, m.id)
    ensures m in OnSurface(g, all, SystemOne) <==> m in all && SystemOneListed(g, m.id)
  {}

  // ----- one id per model -----

  /** What the source's map holds after a run of models: for each key the last one no later
      model of the run replaced. */
  function ByKey(g: Gateway, models: seq<Model>): (r: map<string, Model>)
    ensures forall k | k in r :: r[k] in models && Key(g, r[k].id) == k
    ensures forall m | m in models :: Key(g, m.id) in r
  {
    if models == [] then map[]
    else
      var front, m := models[..|models| - 1], models[|models| - 1];
      assert models == front + [m];
      var r := ByKey(g, front);
      var key := Key(g, m.id);
      if key !in r || Prefer(m.id, r[key].id, Resolve(g, m.id).0) == m.id then r[key := m] else r
  }

  ghost predicate Increasing(models: seq<Model>) {
    forall i, j | 0 <= i < j < |models| :: Less(models[i].id, models[j].id)
  }

  /** dedupeModelsByBackendDownstream: one model per key in strictly increasing id order. The
      map's values are taken out in any order, as Go does, and sorted. */
  method DedupeModels(g: Gateway, models: seq<Model>) returns (out: seq<Model>)
    ensures Increasing(out)
    ensures forall m :: m in out <==> m in ByKey(g, models).Values
  {
    var byKey := CollectByKey(g, models);
    if |models| < 2 {
      FewModels(g, models);
      return models;
    }
    out := [];
    var rest := byKey.Keys;
    while rest != {}
      invariant rest <= byKey.Keys
      invariant Increasing(out)
      invariant forall m :: m in out <==> exists k :: k in byKey && k !in rest && byKey[k] == m
      decreases |rest|
    {
      var k :| k in rest;
      forall m | m in out ensures m.id != byKey[k].id {
        assert Key(g, m.id) != k;
      }
      out := InsertById(out, byKey[k]);
      rest := rest - {k};
    }
  }

  lemma FewModels(g: Gateway, models: seq<Model>)
    requires |models| < 2
    ensures Increasing(models) && forall m :: m in models <==> m in ByKey(g, models).Values
  {
    if models != [] {
      assert models[..0] == [];
      assert ByKey(g, models) == map[Key(g, models[0].id) := models[0]];
    }
  }

  method CollectByKey(g: Gateway, models: seq<Model>) returns (byKey: map<string, Model>)
    ensures byKey == ByKey(g, models)
  {
    byKey := map[];
    for i := 0 to |models|
      invariant byKey == ByKey(g, models[..i])
    {
      assert models[..i + 1][..i] == models[..i];
      var m := models[i];
      var key := Key(g, m.id);
      if key !in byKey || Prefer(m.id, byKey[key].id, Resolve(g, m.id).0) == m.id {
        byKey := byKey[key := m];
      }
    }
    assert models[..|models|] == models;
  }

  method InsertById(models: seq<Model>, m: Model) returns (out: seq<Model>)
    requires Increasing(models) && forall x | x in models :: x.id != m.id
    ensures Increasing(out) && forall x :: x in out <==> x in models || x == m
  {
    var i := 0;
    while i < |models| && Less(models[i].id, m.id)
      invariant 0 <= i <= |models|
      invariant forall j | 0 <= j < i :: Less(models[j].id, m.id)
    {
      i := i + 1;
    }
    out := models[..i] + [m] + models[i..];
    if i < |models| {
      LessTotal(models[i].id, m.id);
      forall j | i < j < |models| ensures Less(m.id, models[j].id) {
        LessTransitive(m.id, models[i].id, models[j].id);
      }
    }
  }

  /** Increasing lists with the same members are the same list, so the order the map was
      emptied in does not show. */
  lemma {:induction false} IncreasingIsCanonical(a: seq<Model>, b: seq<Model>)
    requires Increasing(a) && Increasing(b) && forall m :: m in a <==> m in b
    ensures a == b
  {
    if a != [] || b != [] {
      assert b != [] ==> b[0] in a;
      assert a[0] in b && b != [];
      assert b[0] in a;
      HeadIsLeast(a);
      HeadIsLeast(b);
      LessTotal(a[0].id, b[0].id);
      assert a[0] == b[0];
      forall m ensures m in a[1..] <==> m in b[1..] {
        assert a == [a[0]] + a[1..] && b == [b[0]] + b[1..];
        LessTotal(a[0].id, a[0].id);
      }
      IncreasingIsCanonical(a[1..], b[1..]);
    }
  }

  lemma HeadIsLeast(a: seq<Model>)
    requires Increasing(a) && a != []
    ensures forall m | m in a :: m == a[0] || Less(a[0].id, m.id)
    ensures a[0] !in a[1..]
  {
    LessTotal(a[0].id, a[0].id);
  }

  // ----- listing and retrieval -----

  /** The entry retrieval answers for an id: the listed one with the id's key. */
  function Find(g: Gateway, all: seq<Model>, surface: Surface, id: string): Option<Model> {
    var listed := ByKey(g, OnSurface(g, all, surface));
    if Key(g, id) in listed then Some(listed[Key(g, id)]) else None
  }

  /** modelsForSurface. */
  method ModelsForSurface(g: Gateway, all: seq<Model>, surface: Surface) returns (out: seq<Model>)
    ensures Increasing(out)
    ensures forall m :: m in out <==> m in ByKey(g, OnSurface(g, all, surface)).Values
  {
    var part := PartitionModels(g, all, surface);
    out := DedupeModels(g, part);
  }

  /** lookupModelForSurface. */
  method LookupModelForSurface(g: Gateway, all: seq<Model>, surface: Surface, id: string) returns (found: Option<Model>)
    ensures found == Find(g, all, surface, id)
  {
    var models := ModelsForSurface(g, all, surface);
    var wantKey := Key(g, id);
    for i := 0 to |models|
      invariant forall m | m in models[..i] :: Key(g, m.id) != wantKey
    {
      if models[i].id == id || Key(g, models[i].id) == wantKey {
        assert models[i] in models;
        return Some(models[i]);
      }
    }
    assert models[..|models|] == models;
    ghost var listed := ByKey(g, OnSurface(g, all, surface));
    assert forall k | k in listed :: listed[k] in models;
    found := None;
  }

  /** Looking up a listed id gives that very entry; looking up any id of the surface gives the
      listed entry of its model; an id of no model of the surface finds nothing. */
  lemma ListingAndRetrievalAgree(g: Gateway, all: seq<Model>, surface: Surface, listing: seq<Model>)
    requires forall m :: m in listing <==> m in ByKey(g, OnSurface(g, all, surface)).Values
    ensures forall m | m in listing :: Find(g, all, surface, m.id) == Some(m)
    ensures forall m | m in OnSurface(g, all, surface) ::
      var f := Find(g, all, surface, m.id); f.Some? && f.value in listing && Key(g, f.value.id) == Key(g, m.id)
    ensures forall id :: Find(g, all, surface, id).None? <==>
      forall m | m in OnSurface(g, all, surface) :: Key(g, m.id) != Key(g, id)
  {
    forall id | Find(g, all, surface, id).Some?
      ensures !forall m | m in OnSurface(g, all, surface) :: Key(g, m.id) != Key(g, id)
    {
      assert Find(g, all, surface, id).value in OnSurface(g, all, surface);
    }
  }

  // ----- the best id -----

  /** Lower is better: the id's form first, then its length. */
  predicate NoWorse(g: Gateway, a: string, b: string) {
    var ra, rb := Rank(a, Resolve(g, a).0), Rank(b, Resolve(g, b).0);
    ra < rb || (ra == rb && Utf8Len(a) <= Utf8Len(b))
  }

  /** The key is a backend's id, a slash and a model. */
  predicate Composite(g: Gateway, publicID: string) {
    var id := TrimSpace(publicID);
    !(ROUTER_ID_PREFIX <= id) && Resolve(g, id).0 != "" && TrimSpace(Resolve(g, id).1) != ""
  }

  /** A key splits at its first slash into a backend and a model exactly when it is composite. */
  lemma KeySplits(g: Gateway, publicID: string)
    requires Loaded(g)
    ensures var k := Key(g, publicID);
      var i := IndexByte(k, '/');
      && (Composite(g, publicID) <==> i > 0 && k[..i] in g.backends && TrimSpace(k[i + 1..]) != "")
      && (Composite(g, publicID) ==> k[..i] == Resolve(g, publicID).0)
      && (!Composite(g, publicID) ==> k == TrimSpace(publicID))
  {
    TrimSpaceTrims(publicID);
    var id := TrimSpace(publicID);
    KeyOfTrimmed(g, publicID);
    if Composite(g, publicID) {
      CompositeKey(g, id);
    } else {
      NotCompositeKey(g, id);
    }
  }

  lemma KeyOfTrimmed(g: Gateway, publicID: string)
    ensures var id := TrimSpace(publicID);
      && Key(g, publicID) == Key(g, id) && Resolve(g, publicID) == Resolve(g, id)
      && (Composite(g, publicID) <==> Composite(g, id))
  {
    TrimSpaceTrims(publicID);
    TrimmedFixed(TrimSpace(publicID));
  }

  lemma NotCompositeKey(g: Gateway, id: string)
    requires Loaded(g) && Trimmed(id) && !Composite(g, id)
    ensures Key(g, id) == id
    ensures var i := IndexByte(id, '/'); i > 0 && id[..i] in g.backends ==> TrimSpace(id[i + 1..]) == ""
  {
    TrimmedFixed(id);
    if ROUTER_ID_PREFIX <= id {
      SlashBehind(id, "router");
    } else {
      var b := Resolve(g, id).0;
      if b != "" {
        TrimmedFixed(b);
      }
      PlainKey(g, id);
    }
  }

  lemma CompositeKey(g: Gateway, id: string)
    requires Loaded(g) && Trimmed(id) && Composite(g, id)
    ensures var k, b := Key(g, id), Resolve(g, id).0;
      IndexByte(k, '/') == |b| > 0 && |b| < |k| && k[..|b|] == b && b in g.backends && TrimSpace(k[|b| + 1..]) != ""
  {
    TrimmedFixed(id);
    var k, b, down := Key(g, id), Resolve(g, id).0, Resolve(g, id).1;
    TrimmedFixed(b);
    var model := TrimSpace(down);
    assert k == b + ['/'] + model;
    IndexBytePast(b, '/', model);
    assert k[..|b|] == b && k[|b| + 1..] == model;
    TrimSpaceTrims(down);
    TrimmedFixed(model);
  }

  lemma PlainKey(g: Gateway, id: string)
    requires Loaded(g) && Trimmed(id) && !Composite(g, id) && !(ROUTER_ID_PREFIX <= id)
    ensures var i := IndexByte(id, '/'); i > 0 && id[..i] in g.backends ==> TrimSpace(id[i + 1..]) == ""
  {
    TrimmedFixed(id);
    var i := IndexByte(id, '/');
    if i > 0 && id[..i] in g.backends {
      var down := NormalizeDownstream(id[..i], id);
      assert Resolve(g, id) == (id[..i], down) && TrimSpace(down) == "";
      PrefixComesOff(id, i);
      TrimSpaceTrims(id[i + 1..]);
      TrimmedFixed(down);
    }
  }

  lemma PrefixComesOff(id: string, i: int)
    requires 0 < i < |id| && id[i] == '/' && Trimmed(id) && Trimmed(id[..i])
    ensures NormalizeDownstream(id[..i], id) == TrimSpace(id[i + 1..])
  {
    TrimmedFixed(id);
    TrimmedFixed(id[..i]);
    assert id[..i] + "/" == id[..i + 1];
  }

  // ----- what an id stands for -----

  predicate ServesSystemOne(g: Gateway, b: string) {
    b in g.backends && g.backends[b].systemOne
  }

  /** The backend that ids without a backend's prefix belong to: the SystemOne one, or else the
      first that can serve SystemOne. */
  ghost predicate IsDefault(g: Gateway, b: string) {
    if g.systemOneDefault != "" then b == g.systemOneDefault else IsFirst(g, g.ids, b)
  }

  ghost predicate IsFirst(g: Gateway, ids: seq<string>, b: string) {
    exists i :: 0 <= i < |ids| && b == ids[i] && ServesSystemOne(g, b)
                && forall j | 0 <= j < i :: !ServesSystemOne(g, ids[j])
  }

  ghost predicate Prefixed(g: Gateway, id: string) {
    exists c :: c in g.backends && c + "/" <= id
  }

  /** The id, trimmed, stands for model d of backend b: with the backend's prefix, or bare. */
  ghost predicate IdOf(g: Gateway, publicID: string, b: string, d: string) {
    var id := TrimSpace(publicID);
    || (b in g.backends && exists u :: id == b + "/" + u && d == TrimSpace(u))
    || (!Prefixed(g, id) && IsDefault(g, b) && d == id)
  }

  lemma {:induction false} FirstSystemOneIff(g: Gateway, ids: seq<string>, b: string)
    requires b != "" && "" !in ids
    ensures FirstSystemOne(g, ids) == b <==> IsFirst(g, ids, b)
  {
    if ids != [] {
      var rest := ids[1..];
      if ServesSystemOne(g, ids[0]) {
        assert ids[0] == b ==> IsFirst(g, ids, b);
      } else {
        FirstSystemOneIff(g, rest, b);
        if i :| 0 <= i < |ids| && b == ids[i] && ServesSystemOne(g, b)
                && forall j | 0 <= j < i :: !ServesSystemOne(g, ids[j]) {
          assert rest[i - 1] == b && forall j | 0 <= j < i - 1 :: rest[j] == ids[j + 1];
        }
        if i :| 0 <= i < |rest| && b == rest[i] && ServesSystemOne(g, b)
                && forall j | 0 <= j < i :: !ServesSystemOne(g, rest[j]) {
          assert ids[i + 1] == b && forall j | 0 < j < i + 1 :: ids[j] == rest[j - 1];
        }
      }
    }
  }

  lemma PrefixIsAtSlash(g: Gateway, id: string, c: string)
    requires Loaded(g) && c in g.backends && c + "/" <= id
    ensures IndexByte(id, '/') == |c| && |c| > 0 && id[..|c|] == c && id == c + "/" + id[|c| + 1..]
  {
    SlashBehind(id, c);
  }

  lemma PrefixedIff(g: Gateway, id: string)
    requires Loaded(g)
    ensures var i := IndexByte(id, '/'); Prefixed(g, id) <==> i > 0 && id[..i] in g.backends
  {
    if c :| c in g.backends && c + "/" <= id {
      PrefixIsAtSlash(g, id, c);
    }
    var i := IndexByte(id, '/');
    if i > 0 && id[..i] in g.backends {
      assert id[..i] + "/" == id[..i + 1] <= id;
    }
  }

  /** What the gateway takes an id for is what it stands for. */
  lemma ResolveIff(g: Gateway, publicID: string, b: string, d: string)
    requires Loaded(g) && b != ""
    ensures Resolve(g, publicID) == (b, d) <==> IdOf(g, publicID, b, d)
  {
    TrimSpaceTrims(publicID);
    var id := TrimSpace(publicID);
    TrimmedFixed(id);
    KeyOfTrimmed(g, publicID);
    PrefixedIff(g, id);
    if Prefixed(g, id) {
      ResolvePrefixed(g, id, b, d);
    } else {
      ResolveBare(g, id, b, d);
    }
  }

  lemma ResolvePrefixed(g: Gateway, id: string, b: string, d: string)
    requires Loaded(g) && b != "" && Trimmed(id) && Prefixed(g, id)
    ensures Resolve(g, id) == (b, d) <==> b in g.backends && exists u :: id == b + "/" + u && d == TrimSpace(u)
  {
    PrefixedIff(g, id);
    TrimmedFixed(id);
    var i := IndexByte(id, '/');
    PrefixComesOff(id, i);
    PrefixIsAtSlash(g, id, id[..i]);
    if b in g.backends {
      if u :| id == b + "/" + u && d == TrimSpace(u) {
        assert b + "/" <= id;
        PrefixIsAtSlash(g, id, b);
        assert u == id[i + 1..];
      }
    }
  }

  lemma ResolveBare(g: Gateway, id: string, b: string, d: string)
    requires Loaded(g) && b != "" && Trimmed(id) && !Prefixed(g, id)
    ensures Resolve(g, id) == (b, d) <==> IsDefault(g, b) && d == id
    ensures b in g.backends ==> forall u :: id != b + "/" + u
  {
    PrefixedIff(g, id);
    TrimmedFixed(id);
    BareIsKept(g, id);
    FirstSystemOneIff(g, g.ids, b);
    forall u | id == b + "/" + u ensures b !in g.backends {
      assert b + "/" <= id;
    }
  }

  lemma BareIsKept(g: Gateway, id: string)
    requires Loaded(g) && Trimmed(id) && !Prefixed(g, id)
    ensures forall c | c in g.backends :: NormalizeDownstream(c, id) == id
  {
    TrimmedFixed(id);
    forall c | c in g.backends ensures NormalizeDownstream(c, id) == id {
      TrimmedFixed(c);
    }
  }

  /** A model is on the SystemOne surface exactly when SystemOne is on, the id is not blank, and
      the backend it stands for serves SystemOne and lists the model, or, without a list of its
      own, the model is the default one. */
  lemma ListedIff(g: Gateway, publicID: string)
    requires Loaded(g)
    ensures SystemOneListed(g, publicID) <==>
      g.systemOneDefault != "" && !AllSpace(publicID) &&
      exists b, d :: IdOf(g, publicID, b, d) && b in g.backends && g.backends[b].systemOne && Lists(g.backends[b], b, d)
  {
    BlankIffTrimmedAway(publicID);
    TrimSpaceTrims(publicID);
    var id := TrimSpace(publicID);
    TrimmedFixed(id);
    var (b, d) := Resolve(g, publicID);
    if g.systemOneDefault != "" {
      ResolveIff(g, publicID, b, d);
      forall c, e | c in g.backends && IdOf(g, publicID, c, e) ensures (c, e) == (b, d) {
        ResolveIff(g, publicID, c, e);
      }
      if b in g.backends {
        ListsIff(g.backends[b], b, d);
      }
    }
  }

  /** The backend's SystemOne list, or the default model's id, names the model. */
  ghost predicate Lists(s: Served, b: string, d: string) {
    exists e :: (if s.systemOneAllow.Some? then e in s.systemOneAllow.value else e == "typesafe/jev")
                && !AllSpace(d) && !AllSpace(e)
                && exists x :: NamesModel(b, TrimSpace(d), x) && NamesModel(b, TrimSpace(e), x)
  }

  lemma ListsIff(s: Served, b: string, d: string)
    requires Trimmed(b)
    ensures Lists(s, b, d) <==>
      ModelInAllowList(b, d, match s.systemOneAllow case Some(l) => l case None => [DEFAULT_SYSTEM_ONE])
  {
    var allow := match s.systemOneAllow case Some(l) => l case None => [DEFAULT_SYSTEM_ONE];
    assert forall e ::
      e in allow <==> if s.systemOneAllow.Some? then e in s.systemOneAllow.value else e == "typesafe/jev";
    forall e ensures Matches(b, d, e) <==>
      !AllSpace(d) && !AllSpace(e) && exists x :: NamesModel(b, TrimSpace(d), x) && NamesModel(b, TrimSpace(e), x)
    {
      MatchesIff(b, d, e);
    }
  }

  /** The id is no router's and stands for a model that is not blank. */
  ghost predicate StandsFor(g: Gateway, x: string, b: string, d: string) {
    !("router/" <= TrimSpace(x)) && b != "" && d != "" && IdOf(g, x, b, d)
  }

  lemma CompositeIff(g: Gateway, x: string)
    requires Loaded(g)
    ensures forall b, d :: StandsFor(g, x, b, d) <==> Composite(g, x) && Resolve(g, x) == (b, d)
    ensures Composite(g, x) ==> Key(g, x) == Resolve(g, x).0 + "/" + Resolve(g, x).1
  {
    var (b, d) := Resolve(g, x);
    KeyOfTrimmed(g, x);
    ResolvedIsTrimmed(g, x);
    forall c, e | c != "" ensures Resolve(g, x) == (c, e) <==> IdOf(g, x, c, e) {
      ResolveIff(g, x, c, e);
    }
  }

  lemma ResolvedIsTrimmed(g: Gateway, x: string)
    requires Loaded(g)
    ensures var (b, d) := Resolve(g, x); TrimSpace(b) == b && TrimSpace(d) == d
  {
    TrimSpaceTrims(x);
    var id := TrimSpace(x);
    TrimmedFixed(id);
    var (b, d) := Resolve(g, x);
    DownIsTrimmed(b, id);
    TrimmedFixed(b);
    TrimmedFixed(d);
  }

  /** Two ids are kept apart unless they are the same or stand for one model; a router's own id
      stands for itself. */
  lemma SameKeyIff(g: Gateway, x: string, y: string)
    requires Loaded(g)
    ensures Key(g, x) == Key(g, y) <==>
      TrimSpace(x) == TrimSpace(y) || exists b, d :: StandsFor(g, x, b, d) && StandsFor(g, y, b, d)
  {
    CompositeIff(g, x);
    CompositeIff(g, y);
    KeySplits(g, x);
    KeySplits(g, y);
    if Composite(g, x) && Composite(g, y) {
      SameCompositeKey(g, x, y);
    }
    if TrimSpace(x) == TrimSpace(y) {
      KeyOfTrimmed(g, x);
      KeyOfTrimmed(g, y);
    }
  }

  lemma SameCompositeKey(g: Gateway, x: string, y: string)
    requires Loaded(g) && Composite(g, x) && Composite(g, y)
    ensures Key(g, x) == Key(g, y) <==> Resolve(g, x) == Resolve(g, y)
  {
    CompositeIff(g, x);
    CompositeIff(g, y);
    if Key(g, x) == Key(g, y) {
      SameKeySameBackend(g, x, y);
      var (b, d) := Resolve(g, x);
      assert Key(g, x)[|b| + 1..] == d && Key(g, y)[|b| + 1..] == Resolve(g, y).1;
    }
  }

  /** Of the ids of one model the catalogue keeps one with its backend's prefix, failing that one
      without a slash, and among equals a shortest. */
  lemma KeptSays(g: Gateway, models: seq<Model>, m: Model)
    requires Loaded(g) && m in models
    ensures var kept, b := ByKey(g, models)[Key(g, m.id)].id, Resolve(g, m.id).0;
      var has, hasNo := b + "/" <= TrimSpace(m.id), '/' !in TrimSpace(m.id);
      && (has ==> b + "/" <= TrimSpace(kept))
      && (hasNo ==> b + "/" <= TrimSpace(kept) || '/' !in TrimSpace(kept))
      && (has == (b + "/" <= TrimSpace(kept)) && hasNo == ('/' !in TrimSpace(kept)) ==> Utf8Len(kept) <= Utf8Len(m.id))
  {
    KeptIsBest(g, models, m);
    SameKeySameBackend(g, ByKey(g, models)[Key(g, m.id)].id, m.id);
  }

  /** Ids with one key are ids of one backend. */
  lemma SameKeySameBackend(g: Gateway, a: string, b: string)
    requires Loaded(g) && Key(g, a) == Key(g, b)
    ensures Resolve(g, a).0 == Resolve(g, b).0
  {
    KeySplits(g, a);
    KeySplits(g, b);
  }

  lemma PreferDecides(g: Gateway, next: string, cur: string)
    requires Resolve(g, next).0 == Resolve(g, cur).0
    ensures if Prefer(next, cur, Resolve(g, next).0) == next then NoWorse(g, next, cur) else NoWorse(g, cur, next)
    ensures NoWorse(g, next, cur) ==> Prefer(next, cur, Resolve(g, next).0) == next
  {}

  lemma NoWorseTransitive(g: Gateway, a: string, b: string, c: string)
    requires NoWorse(g, a, b) && NoWorse(g, b, c)
    ensures NoWorse(g, a, c)
  {}

  /** The kept model has the best id of its key: no id of the model beats it in form or length. */
  lemma {:induction false} KeptIsBest(g: Gateway, models: seq<Model>, m: Model)
    requires Loaded(g) && m in models
    ensures NoWorse(g, ByKey(g, models)[Key(g, m.id)].id, m.id)
  {
    var front, last := models[..|models| - 1], models[|models| - 1];
    assert models == front + [last];
    if m in front {
      KeptIsBest(g, front, m);
    }
    LastDecides(g, front, last);
    var before, now := ByKey(g, front), ByKey(g, models);
    var key := Key(g, m.id);
    if key == Key(g, last.id) && key in before {
      if m in front {
        NoWorseTransitive(g, now[key].id, before[key].id, m.id);
      }
    }
  }

  /** What one more model does to the map. */
  lemma LastDecides(g: Gateway, front: seq<Model>, last: Model)
    requires Loaded(g)
    ensures var before, now := ByKey(g, front), ByKey(g, front + [last]);
      var key := Key(g, last.id);
      && (forall k | k in before && k != key :: now[k] == before[k])
      && NoWorse(g, now[key].id, last.id)
      && (key in before ==> NoWorse(g, now[key].id, before[key].id))
      && (key in before && NoWorse(g, last.id, before[key].id) ==> now[key] == last)
      && (key !in before ==> now[key] == last)
  {
    assert (front + [last])[..|front|] == front;
    var before, key := ByKey(g, front), Key(g, last.id);
    if key in before {
      SameKeySameBackend(g, last.id, before[key].id);
      PreferDecides(g, last.id, before[key].id);
    }
  }

  ghost predicate Best(g: Gateway, models: seq<Model>, m: Model) {
    m in models && forall x | x in models && Key(g, x.id) == Key(g, m.id) :: NoWorse(g, m.id, x.id)
  }

  /** No two models tie for the best id of a key. */
  ghost predicate NoTies(g: Gateway, models: seq<Model>) {
    forall x, y | Best(g, models, x) && Best(g, models, y) && Key(g, x.id) == Key(g, y.id) :: x == y
  }

  /** The catalogue is the same whatever order the models arrive in, exactly when no two of
      them tie for best. */
  lemma OrderDoesNotMatterIffNoTies(g: Gateway, models: seq<Model>)
    requires Loaded(g)
    ensures NoTies(g, models) <==>
      forall other | multiset(other) == multiset(models) :: ByKey(g, other) == ByKey(g, models)
  {
    if NoTies(g, models) {
      forall other | multiset(other) == multiset(models) ensures ByKey(g, other) == ByKey(g, models) {
        SameWinners(g, models, other);
      }
    } else {
      var x, y :| Best(g, models, x) && Best(g, models, y) && Key(g, x.id) == Key(g, y.id) && x != y;
      var other := TieShows(g, models, x, y);
    }
  }

  lemma TieShows(g: Gateway, models: seq<Model>, x: Model, y: Model) returns (other: seq<Model>)
    requires Loaded(g) && Best(g, models, x) && Best(g, models, y) && Key(g, x.id) == Key(g, y.id) && x != y
    ensures multiset(other) == multiset(models) && ByKey(g, other) != ByKey(g, models)
  {
    var behindX := MoveLast(models, x);
    var behindY := MoveLast(models, y);
    LastBestWins(g, behindX, x, models);
    LastBestWins(g, behindY, y, models);
    other := if ByKey(g, models) != ByKey(g, behindX + [x]) then behindX + [x] else behindY + [y];
  }

  lemma SameMembers(a: seq<Model>, b: seq<Model>)
    requires multiset(a) == multiset(b)
    ensures forall m :: m in a <==> m in b
  {
    assert forall m :: m in a <==> m in multiset(a);
    assert forall m :: m in b <==> m in multiset(b);
  }

  lemma SameWinners(g: Gateway, a: seq<Model>, b: seq<Model>)
    requires Loaded(g) && NoTies(g, a) && multiset(a) == multiset(b)
    ensures ByKey(g, a) == ByKey(g, b)
  {
    SameMembers(a, b);
    var ra, rb := ByKey(g, a), ByKey(g, b);
    forall k | k in ra || k in rb ensures k in ra && k in rb && ra[k] == rb[k] {
      forall m | m in a ensures NoWorse(g, ra[Key(g, m.id)].id, m.id) && NoWorse(g, rb[Key(g, m.id)].id, m.id) {
        KeptIsBest(g, a, m);
        KeptIsBest(g, b, m);
      }
      assert Best(g, a, ra[k]) && Best(g, a, rb[k]);
    }
  }

  lemma MoveLast(models: seq<Model>, x: Model) returns (front: seq<Model>)
    requires x in models
    ensures multiset(front + [x]) == multiset(models)
  {
    var i :| 0 <= i < |models| && models[i] == x;
    front := models[..i] + models[i + 1..];
    assert models == models[..i] + [x] + models[i + 1..];
  }

  lemma LastBestWins(g: Gateway, front: seq<Model>, m: Model, models: seq<Model>)
    requires Loaded(g) && Best(g, models, m) && multiset(front + [m]) == multiset(models)
    ensures ByKey(g, front + [m])[Key(g, m.id)] == m
  {
    SameMembers(front + [m], models);
    LastDecides(g, front, m);
    var before := ByKey(g, front);
    if Key(g, m.id) in before {
      assert before[Key(g, m.id)] in front + [m];
    }
  }

  // ----- which ids can tie -----

  ghost predicate Tie(g: Gateway, a: string, b: string) {
    Key(g, a) == Key(g, b) && NoWorse(g, a, b) && NoWorse(g, b, a)
  }

  /** The id names a backend and has a blank right behind the slash. */
  predicate BlankAfterBackend(g: Gateway, id: string) {
    var i := IndexByte(id, '/');
    i > 0 && id[..i] in g.backends && i + 1 < |id| && IsSpace(id[i + 1])
  }

  /** The id itself, or the id behind the backend it goes to by default. */
  predicate PlainlyKeyed(g: Gateway, id: string) {
    Key(g, id) == id || (Composite(g, id) && Key(g, id) == Resolve(g, id).0 + "/" + id)
  }

  /** Without such a blank the key adds at most the backend. */
  lemma KeyIsPlain(g: Gateway, id: string)
    requires Loaded(g) && Trimmed(id) && !BlankAfterBackend(g, id)
    ensures PlainlyKeyed(g, id)
  {
    TrimmedFixed(id);
    var i := IndexByte(id, '/');
    if !(ROUTER_ID_PREFIX <= id) {
      var b := Resolve(g, id).0;
      if i > 0 && id[..i] in g.backends {
        PrefixComesOff(id, i);
        var rest := id[i + 1..];
        assert Trimmed(rest);
        TrimmedFixed(rest);
        TrimmedFixed(b);
        assert id == id[..i] + "/" + rest;
      } else if b != "" {
        TrimmedFixed(b);
        NoPrefix(g, id, b);
      }
    }
  }

  /** An id that names no backend does not start with one's prefix. */
  lemma NoPrefix(g: Gateway, id: string, b: string)
    requires Loaded(g) && b in g.backends && Trimmed(id)
    requires var i := IndexByte(id, '/'); !(i > 0 && id[..i] in g.backends)
    ensures !(b + "/" <= id) && NormalizeDownstream(b, id) == id
  {
    TrimmedFixed(id);
    TrimmedFixed(b);
    if b + "/" <= id {
      SlashBehind(id, b);
    }
  }

  lemma SlashBehind(id: string, front: string)
    requires '/' !in front && front + "/" <= id
    ensures IndexByte(id, '/') == |front| && id[..|front|] == front
  {
    assert id == front + ['/'] + id[|front| + 1..];
    IndexBytePast(front, '/', id[|front| + 1..]);
  }

  /** With such a blank the key leaves it out. */
  lemma KeyDropsBlank(g: Gateway, id: string)
    requires Loaded(g) && Trimmed(id) && BlankAfterBackend(g, id)
    ensures var i := IndexByte(id, '/');
      Resolve(g, id).0 == id[..i] && Key(g, id) == id[..i] + "/" + TrimSpace(id[i + 2..])
  {
    TrimmedFixed(id);
    var i := IndexByte(id, '/');
    var rest, inner := id[i + 1..], id[i + 2..];
    NotRouter(g, id);
    PrefixComesOff(id, i);
    BlankComesOff(rest);
    assert rest[1..] == inner;
    TrimmedFixed(id[..i]);
    var x, y := TrimSpaceSplits(inner);
    InnerIsNotBlank(id, i, x, y);
    TrimmedFixed(TrimSpace(inner));
  }

  lemma BlankComesOff(s: string)
    requires s != "" && IsSpace(s[0])
    ensures TrimSpace(s) == TrimSpace(s[1..])
  {}

  /** So it is shorter than the id. */
  lemma KeyIsShorter(g: Gateway, id: string)
    requires Loaded(g) && Trimmed(id) && BlankAfterBackend(g, id)
    ensures Utf8Len(Key(g, id)) < Utf8Len(id)
  {
    KeyDropsBlank(g, id);
    var i := IndexByte(id, '/');
    var inner := id[i + 2..];
    var x, y := TrimSpaceSplits(inner);
    SplitAt(id, i);
    LongerWithBlanks(id[..i] + "/", id[i + 1], x, TrimSpace(inner), y);
  }

  lemma SplitAt(id: string, i: int)
    requires 0 <= i && i + 1 < |id| && id[i] == '/'
    ensures id == id[..i] + "/" + ([id[i + 1]] + id[i + 2..])
  {}

  lemma LongerWithBlanks(front: string, c: char, x: string, t: string, y: string)
    ensures Utf8Len(front + t) < Utf8Len(front + ([c] + (x + t + y)))
  {
    Utf8LenAppend(front, t);
    Utf8LenAppend(front, [c] + (x + t + y));
    Utf8LenAppend([c], x + t + y);
    Utf8LenAppend(x + t, y);
    Utf8LenAppend(x, t);
  }

  lemma InnerIsNotBlank(id: string, i: int, x: string, y: string)
    requires Trimmed(id) && 0 <= i && i + 1 < |id| && IsSpace(id[i + 1]) && AllSpace(x) && AllSpace(y)
    requires id[i + 2..] == x + TrimSpace(id[i + 2..]) + y
    ensures TrimSpace(id[i + 2..]) != ""
  {
    var inner := id[i + 2..];
    assert inner != "" && !IsSpace(inner[|inner| - 1]);
    BlanksAreBlank(x, TrimSpace(inner), y);
  }

  lemma BlanksAreBlank(x: string, t: string, y: string)
    requires AllSpace(x) && AllSpace(y)
    ensures t == "" ==> AllSpace(x + t + y)
  {}

  lemma NotRouter(g: Gateway, id: string)
    requires Loaded(g) && (var i := IndexByte(id, '/'); i > 0 && id[..i] in g.backends)
    ensures !(ROUTER_ID_PREFIX <= id)
  {
    if ROUTER_ID_PREFIX <= id {
      SlashBehind(id, "router");
    }
  }

  /** A trimmed id without such a blank ties with no other trimmed id. */
  lemma PlainNeverTies(g: Gateway, x: string, y: string)
    requires Loaded(g) && Trimmed(x) && Trimmed(y) && !BlankAfterBackend(g, x) && Tie(g, x, y)
    ensures x == y
  {
    SameKeySameBackend(g, x, y);
    assert Utf8Len(x) == Utf8Len(y);
    KeyIsPlain(g, x);
    KeyIsNoShorter(g, x);
    if BlankAfterBackend(g, y) {
      KeyIsShorter(g, y);
      assert false;
    } else {
      KeyIsPlain(g, y);
      SamePlainKey(g, x, y);
    }
  }

  lemma KeyIsNoShorter(g: Gateway, x: string)
    requires PlainlyKeyed(g, x)
    ensures Utf8Len(x) <= Utf8Len(Key(g, x))
    ensures Key(g, x) != x ==> Utf8Len(x) < Utf8Len(Key(g, x))
  {
    if Key(g, x) != x {
      Utf8LenAppend(Resolve(g, x).0 + "/", x);
    }
  }

  lemma SamePlainKey(g: Gateway, x: string, y: string)
    requires PlainlyKeyed(g, x) && PlainlyKeyed(g, y) && Key(g, x) == Key(g, y)
    requires Resolve(g, x).0 == Resolve(g, y).0 && Utf8Len(x) == Utf8Len(y)
    ensures x == y
  {
    KeyIsNoShorter(g, x);
    KeyIsNoShorter(g, y);
    if Key(g, x) != x {
      var front := Resolve(g, x).0 + "/";
      assert (front + x)[|front|..] == x && (front + y)[|front|..] == y;
    }
  }

  /** Another blank of the same width. */
  function OtherBlank(c: char): (d: char)
    requires IsSpace(c)
    ensures IsSpace(d) && d != c && Utf8Width(d) == Utf8Width(c)
  {
    if c == ' ' then '\t'
    else if c < '\U{80}' then ' '
    else if c == '\U{A0}' then '\U{85}'
    else if c == '\U{85}' then '\U{A0}'
    else if c == '\U{3000}' then '\U{2000}' else '\U{3000}'
  }

  /** A trimmed id with such a blank ties with the one that has another blank there. */
  lemma BlankTies(g: Gateway, x: string) returns (y: string)
    requires Loaded(g) && Trimmed(x) && BlankAfterBackend(g, x)
    ensures Trimmed(y) && y != x && Tie(g, x, y)
  {
    var i := IndexByte(x, '/');
    y := x[i + 1 := OtherBlank(x[i + 1])];
    SwappedIsBlank(g, x, y, i);
    assert y[..i] == x[..i] && y[i + 2..] == x[i + 2..];
    KeyDropsBlank(g, x);
    KeyDropsBlank(g, y);
    SwappedRank(x, y, i, y[i + 1]);
    SwappedLength(x, y, i + 1);
  }

  lemma SwappedIsBlank(g: Gateway, x: string, y: string, i: int)
    requires Trimmed(x) && BlankAfterBackend(g, x) && i == IndexByte(x, '/') && y == x[i + 1 := OtherBlank(x[i + 1])]
    ensures Trimmed(y) && BlankAfterBackend(g, y) && IndexByte(y, '/') == i
  {
    assert y == y[..i] + ['/'] + y[i + 1..] && y[..i] == x[..i];
    IndexBytePast(y[..i], '/', y[i + 1..]);
    assert y[|y| - 1] == x[|x| - 1];
  }

  lemma SameLength(front: string, c: char, d: char, back: string)
    requires Utf8Width(c) == Utf8Width(d)
    ensures Utf8Len(front + [c] + back) == Utf8Len(front + [d] + back)
  {
    Utf8LenAppend(front + [c], back);
    Utf8LenAppend(front + [d], back);
    Utf8LenAppend(front, [c]);
    Utf8LenAppend(front, [d]);
    assert [c][1..] == [] && [d][1..] == [];
  }

  lemma PrefixedRank(id: string, b: string)
    requires Trimmed(id) && b + "/" <= id
    ensures Rank(id, b) == 0
  {
    TrimmedFixed(id);
  }

  lemma SwappedLength(x: string, y: string, i: int)
    requires 0 <= i < |x| && IsSpace(x[i]) && y == x[i := OtherBlank(x[i])]
    ensures Utf8Len(x) == Utf8Len(y)
  {
    assert x == x[..i] + [x[i]] + x[i + 1..] && y == x[..i] + [y[i]] + x[i + 1..];
    SameLength(x[..i], x[i], y[i], x[i + 1..]);
  }

  lemma SwappedRank(x: string, y: string, i: int, c: char)
    requires 0 < i && i + 1 < |x| && x[i] == '/' && y == x[i + 1 := c] && Trimmed(x) && Trimmed(y)
    ensures Rank(x, x[..i]) == Rank(y, x[..i])
  {
    assert x[..i] + "/" == x[..i + 1] && x[..i + 1] == y[..i + 1];
    PrefixedRank(x, x[..i]);
    PrefixedRank(y, x[..i]);
  }

  /** Exactly which ids can tie: a trimmed id ties with another trimmed id if and only if it has a
      blank right behind its backend's slash. */
  lemma TiesIffBlankAfterBackend(g: Gateway, x: string)
    requires Loaded(g) && Trimmed(x)
    ensures (exists y :: Trimmed(y) && y != x && Tie(g, x, y)) <==> BlankAfterBackend(g, x)
  {
    if BlankAfterBackend(g, x) {
      var y := BlankTies(g, x);
    } else {
      forall y | Trimmed(y) && Tie(g, x, y) ensures y == x {
        PlainNeverTies(g, x, y);
      }
    }
  }

  /** Trimmed and different ids, none with such a blank. */
  ghost predicate PlainIds(g: Gateway, models: seq<Model>) {
    && (forall m | m in models :: Trimmed(m.id) && !BlankAfterBackend(g, m.id))
    && (forall x, y | x in models && y in models && x.id == y.id :: x == y)
  }

  /** One best-ranked model for each key, the same whatever order the models arrive in. */
  lemma OrderDoesNotMatter(g: Gateway, models: seq<Model>, other: seq<Model>)
    requires Loaded(g) && PlainIds(g, models) && multiset(other) == multiset(models)
    ensures ByKey(g, other) == ByKey(g, models)
    ensures forall m | m in models :: var k := Key(g, m.id);
      k in ByKey(g, models) && Best(g, models, ByKey(g, models)[k])
  {
    forall x, y | Best(g, models, x) && Best(g, models, y) && Key(g, x.id) == Key(g, y.id) ensures x == y {
      PlainNeverTies(g, x.id, y.id);
    }
    SameWinners(g, models, other);
    forall m | m in models ensures Best(g, models, ByKey(g, models)[Key(g, m.id)]) {
      forall x | x in models ensures NoWorse(g, ByKey(g, models)[Key(g, x.id)].id, x.id) {
        KeptIsBest(g, models, x);
      }
    }
  }

  /** And the condition is needed of every single id: next to one with such a blank another
      trimmed id can be listed so that the order of the two decides which one is kept. */
  lemma OrderMattersIffBlankAfterBackend(g: Gateway, x: Model)
    requires Loaded(g) && Trimmed(x.id)
    ensures (exists y: Model :: Trimmed(y.id) && y.id != x.id && ByKey(g, [x, y]) != ByKey(g, [y, x]))
        <==> BlankAfterBackend(g, x.id)
  {
    if BlankAfterBackend(g, x.id) {
      var id := BlankTies(g, x.id);
      LaterWins(g, x, Model(id, x.ownedBy));
    } else {
      forall y: Model | Trimmed(y.id) && y.id != x.id ensures ByKey(g, [x, y]) == ByKey(g, [y, x]) {
        NeverTied(g, x, y);
      }
    }
  }

  lemma LaterWins(g: Gateway, x: Model, y: Model)
    requires Loaded(g) && x != y && Tie(g, x.id, y.id)
    ensures ByKey(g, [x, y]) != ByKey(g, [y, x])
  {
    assert [x] + [y] == [x, y] && [y] + [x] == [y, x];
    LastDecides(g, [x], y);
    LastDecides(g, [y], x);
    assert ByKey(g, [x, y])[Key(g, x.id)] == y && ByKey(g, [y, x])[Key(g, x.id)] == x by {
      assert x in [x] && y in [y];
      assert ByKey(g, [x])[Key(g, x.id)] in [x] && ByKey(g, [y])[Key(g, y.id)] in [y];
    }
  }

  lemma BestPairTies(g: Gateway, x: Model, y: Model, a: Model, b: Model)
    requires Best(g, [x, y], a) && Best(g, [x, y], b) && Key(g, a.id) == Key(g, b.id) && a != b
    ensures Tie(g, x.id, y.id)
  {
    assert forall m :: m in [x, y] <==> m == x || m == y;
    assert NoWorse(g, a.id, b.id) && NoWorse(g, b.id, a.id);
  }

  lemma NeverTied(g: Gateway, x: Model, y: Model)
    requires Loaded(g) && Trimmed(x.id) && Trimmed(y.id) && x.id != y.id && !BlankAfterBackend(g, x.id)
    ensures ByKey(g, [x, y]) == ByKey(g, [y, x])
  {
    forall a, b | Best(g, [x, y], a) && Best(g, [x, y], b) && Key(g, a.id) == Key(g, b.id) ensures a == b {
      if a != b {
        BestPairTies(g, x, y, a, b);
        PlainNeverTies(g, x.id, y.id);
      }
    }
    SameWinners(g, [x, y], [y, x]);
  }
}
