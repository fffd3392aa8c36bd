/** Model allow lists: matching a model against a list (internal/config/models.go), the
    runtime overlay that extends the lists (internal/config/allow_overlay.go), and pruning
    the overlay of what the YAML already allows (internal/deploy/overlay/prune.go). */
module AllowOverlay {
  import opened GoStrings

  /** NormalizeDownstream: the id with blanks and a known backend prefix gone. */
  function NormalizeDownstream(backendID: string, model: string): string {
    var b, m := TrimSpace(backendID), TrimSpace(model);
    if m == "" then ""
    else if b != "" && b + "/" <= m then TrimSpace(m[|b| + 1..])
    else m
  }

  /** One allow entry matches a model, bare or prefixed on either side. */
  predicate Matches(backendID: string, model: string, entry: string) {
    var m, e := TrimSpace(model), TrimSpace(entry);
    var down, entryDown := NormalizeDownstream(backendID, m), NormalizeDownstream(backendID, e);
    && m != "" && e != ""
    && (|| m == e || m == entryDown || down == e || down == entryDown
        || (backendID != ""
            && (m == backendID + "/" + entryDown || m == backendID + "/" + e || e == backendID + "/" + down)))
  }

  predicate ModelInAllowList(backendID: string, model: string, allow: seq<string>) {
    exists entry | entry in allow :: Matches(backendID, model, entry)
  }

  /** The text s, bare or with the backend's prefix, names model x of the backend. */
  ghost predicate NamesModel(backendID: string, s: string, x: string) {
    s == x || (backendID != "" && exists u :: s == backendID + "/" + u && TrimSpace(u) == x)
  }

  /** What an entry is for: it matches a model exactly when the two, neither of them blank, name
      one model of the backend. */
  lemma MatchesIff(backendID: string, model: string, entry: string)
    requires Trimmed(backendID)
    ensures Matches(backendID, model, entry) <==>
      !AllSpace(model) && !AllSpace(entry) &&
      exists x :: NamesModel(backendID, TrimSpace(model), x) && NamesModel(backendID, TrimSpace(entry), x)
  {
    BlankIffTrimmedAway(model);
    BlankIffTrimmedAway(entry);
    TrimSpaceTrims(model);
    TrimSpaceTrims(entry);
    var m, e := TrimSpace(model), TrimSpace(entry);
    TwoNames(backendID, m);
    TwoNames(backendID, e);
    if m != "" && e != "" {
      MatchesByNames(backendID, m, e);
      var down, entryDown := NormalizeDownstream(backendID, m), NormalizeDownstream(backendID, e);
      assert NamesModel(backendID, m, m) && NamesModel(backendID, m, down);
      assert NamesModel(backendID, e, e) && NamesModel(backendID, e, entryDown);
      assert Matches(backendID, model, entry) == Matches(backendID, m, e);
    }
  }

  /** A text names what it says, and what is left of it without the prefix. */
  lemma TwoNames(b: string, s: string)
    requires Trimmed(b) && Trimmed(s)
    ensures forall x :: s != "" ==> (NamesModel(b, s, x) <==> x == s || x == NormalizeDownstream(b, s))
    ensures TrimSpace(s) == s && TrimSpace(b) == b
  {
    TrimmedFixed(b);
    TrimmedFixed(s);
    if b != "" && b + "/" <= s {
      assert s == b + "/" + s[|b| + 1..];
    }
    forall u | s == b + "/" + u ensures u == s[|b| + 1..] {
      assert s[|b| + 1..] == u;
    }
  }

  lemma MatchesByNames(b: string, m: string, e: string)
    requires Trimmed(b) && m != "" && e != "" && Trimmed(m) && Trimmed(e)
    ensures var down, entryDown := NormalizeDownstream(b, m), NormalizeDownstream(b, e);
      Matches(b, m, e) <==> m == e || m == entryDown || down == e || down == entryDown
  {
    TrimmedFixed(m);
    TrimmedFixed(e);
    if b != "" {
      PrefixedIsThere(b, m, e);
      PrefixedIsThere(b, m, NormalizeDownstream(b, e));
      PrefixedIsThere(b, e, NormalizeDownstream(b, m));
      DownIsTrimmed(b, m);
      DownIsTrimmed(b, e);
      TrimmedFixed(NormalizeDownstream(b, m));
      TrimmedFixed(NormalizeDownstream(b, e));
    }
  }

  /** A text that is the prefix and another names the other. */
  lemma PrefixedIsThere(b: string, s: string, t: string)
    requires b != "" && Trimmed(b) && Trimmed(s)
    ensures s == b + "/" + t ==> NormalizeDownstream(b, s) == TrimSpace(t)
  {
    PrefixIsStripped(b, t);
  }

  lemma PrefixIsStripped(b: string, s: string)
    requires b != "" && Trimmed(b)
    ensures Trimmed(b + "/" + s) ==> NormalizeDownstream(b, b + "/" + s) == TrimSpace(s)
  {
    TrimmedFixed(b);
    if Trimmed(b + "/" + s) {
      TrimmedFixed(b + "/" + s);
      assert (b + "/" + s)[|b| + 1..] == s;
    }
  }

  // ----- applying the overlay -----

  /** A backend of the router config; gated is "models.allow is configured". */
  datatype BackendDef = BackendDef(gated: bool, allow: seq<string>)

  type Config = map<string, BackendDef>

  /** The overlay file: extra models for each backend. */
  type Overlay = map<string, seq<string>>

  datatype SkipReason = UnknownBackend | NoAllowGate
  datatype Skipped = Skipped(backend: string, reason: SkipReason)

  /** The allow list after the overlay's entries for one gated backend. */
  function ApplyEntries(backendID: string, entries: seq<string>, allow: seq<string>): seq<string> {
    if entries == [] then allow
    else
      var entry := TrimSpace(entries[0]);
      ApplyEntries(backendID, entries[1..],
                   if entry == "" || ModelInAllowList(backendID, entry, allow) then allow
                   else allow + [NormalizeDownstream(backendID, entry)])
  }

  /** The config after an overlay: each gated backend's list grown by its own entries. */
  function Applied(cfg: Config, overlay: Overlay): Config {
    map b | b in cfg ::
      if b in overlay && cfg[b].gated then cfg[b].(allow := ApplyEntries(b, overlay[b], cfg[b].allow)) else cfg[b]
  }

  /** applyAllowOverlay, with `order` the overlay's backends as the source sorts them. */
  method ApplyAllowOverlay(cfg: Config, overlay: Overlay, order: seq<string>)
    returns (out: Config, skipped: seq<Skipped>)
    requires Lists(order, overlay.Keys)
    ensures out == Applied(cfg, overlay)
    ensures forall s :: s in skipped <==>
      s.backend in overlay && (if s.backend !in cfg then s.reason == UnknownBackend
                               else !cfg[s.backend].gated && s.reason == NoAllowGate)
  {
    out, skipped := cfg, [];
    for i := 0 to |order|
      invariant out.Keys == cfg.Keys
      invariant forall b | b in cfg && b !in order[..i] :: out[b] == cfg[b]
      invariant forall b | b in cfg && b in order[..i] :: out[b] == Applied(cfg, overlay)[b]
      invariant forall s :: s in skipped <==>
        s.backend in order[..i] && (if s.backend !in cfg then s.reason == UnknownBackend
                                    else !cfg[s.backend].gated && s.reason == NoAllowGate)
    {
      var backendID := order[i];
      assert order[..i + 1] == order[..i] + [backendID];
      assert backendID in overlay && backendID !in order[..i];
      if backendID !in out {
        skipped := skipped + [Skipped(backendID, UnknownBackend)];
      } else if !out[backendID].gated {
        skipped := skipped + [Skipped(backendID, NoAllowGate)];
      } else {
        var grown := AppendEntries(backendID, overlay[backendID], out[backendID].allow);
        out := out[backendID := out[backendID].(allow := grown)];
      }
    }
  }

  method AppendEntries(backendID: string, entries: seq<string>, allow: seq<string>) returns (out: seq<string>)
    ensures out == ApplyEntries(backendID, entries, allow)
  {
    out := allow;
    for i := 0 to |entries|
      invariant ApplyEntries(backendID, entries[i..], out) == ApplyEntries(backendID, entries, allow)
    {
      var entry := TrimSpace(entries[i]);
      assert entries[i..][1..] == entries[i + 1..];
      if entry == "" || ModelInAllowList(backendID, entry, out) {
        continue;
      }
      out := out + [NormalizeDownstream(backendID, entry)];
    }
  }

  /** An overlay only adds: whatever was allowed stays allowed, every entry that names a model is
      allowed afterwards, and what is allowed then is what was or what some entry names. */
  lemma {:induction false} OverlayExtends(b: string, entries: seq<string>, allow: seq<string>, m: string)
    requires b != "" && Trimmed(b)
    ensures allow <= ApplyEntries(b, entries, allow)
    ensures forall e | e in entries && !AllSpace(e) && TrimSpace(e) != b + "/" ::
              ModelInAllowList(b, e, ApplyEntries(b, entries, allow))
    ensures ModelInAllowList(b, m, ApplyEntries(b, entries, allow)) ==>
              ModelInAllowList(b, m, allow) || exists e :: e in entries && Matches(b, m, NormalizeDownstream(b, e))
  {
    if entries != [] {
      var entry := TrimSpace(entries[0]);
      var next := if entry == "" || ModelInAllowList(b, entry, allow) then allow
                  else allow + [NormalizeDownstream(b, entry)];
      OverlayExtends(b, entries[1..], next, m);
      EntryIsAllowed(b, entries[0], allow);
      var after := ApplyEntries(b, entries, allow);
      forall e | e in entries && !AllSpace(e) && TrimSpace(e) != b + "/" ensures ModelInAllowList(b, e, after) {
        if e == entries[0] {
          var y :| y in next && Matches(b, e, y);
          assert y in after;
        } else {
          assert e in entries[1..];
        }
      }
      if ModelInAllowList(b, m, after) && !ModelInAllowList(b, m, allow) {
        if ModelInAllowList(b, m, next) {
          var y :| y in next && Matches(b, m, y);
          assert y == NormalizeDownstream(b, entries[0]);
          assert entries[0] in entries;
        } else {
          var e :| e in entries[1..] && Matches(b, m, NormalizeDownstream(b, e));
          assert e in entries;
        }
      }
    }
  }

  /** So for the whole config: gated backends of the overlay get their entries, the others stay. */
  lemma OverlayApplied(cfg: Config, overlay: Overlay, b: string)
    requires b in cfg && b != "" && Trimmed(b)
    ensures Applied(cfg, overlay).Keys == cfg.Keys
    ensures var after := Applied(cfg, overlay)[b];
      && after.gated == cfg[b].gated && cfg[b].allow <= after.allow
      && (!cfg[b].gated || b !in overlay ==> after == cfg[b])
      && (cfg[b].gated && b in overlay ==>
            forall e | e in overlay[b] && !AllSpace(e) && TrimSpace(e) != b + "/" ::
              ModelInAllowList(b, e, after.allow))
  {
    if cfg[b].gated && b in overlay {
      OverlayExtends(b, overlay[b], cfg[b].allow, "");
    }
  }

  lemma EntryIsAllowed(b: string, slug: string, allow: seq<string>)
    requires b != "" && Trimmed(b)
    ensures var entry := TrimSpace(slug);
      && NormalizeDownstream(b, entry) == NormalizeDownstream(b, slug)
      && (!AllSpace(slug) && entry != b + "/" ==>
            ModelInAllowList(b, slug, if entry == "" || ModelInAllowList(b, entry, allow) then allow
                                      else allow + [NormalizeDownstream(b, entry)]))
  {
    var entry := TrimSpace(slug);
    BlankIffTrimmedAway(slug);
    TrimSpaceTrims(slug);
    TrimmedFixed(entry);
    var d := NormalizeDownstream(b, entry);
    if entry != "" && entry != b + "/" {
      if d == "" {
        BlankSlugIsPrefix(b, entry);
      }
      if ModelInAllowList(b, entry, allow) {
        var y :| y in allow && Matches(b, entry, y);
        assert Matches(b, slug, y);
      } else {
        DownIsTrimmed(b, entry);
        TrimmedFixed(d);
        assert Matches(b, slug, d);
        assert d in allow + [d];
      }
    }
  }

  lemma DownIsTrimmed(b: string, s: string)
    requires Trimmed(s)
    ensures Trimmed(NormalizeDownstream(b, s))
  {
    TrimmedFixed(s);
    if TrimSpace(b) + "/" <= s {
      TrimSpaceTrims(s[|TrimSpace(b)| + 1..]);
    }
  }

  // ----- pruning -----

  /** prune.go's own normal form of a slug. */
  function Canonical(backendID: string, slug: string): string {
    var s := TrimSpace(slug);
    if backendID + "/" <= s then TrimSpace(s[|backendID| + 1..]) else s
  }

  predicate SlugInYAML(backendID: string, slug: string, yaml: seq<string>) {
    exists ys | ys in yaml :: Canonical(backendID, ys) == Canonical(backendID, slug)
  }

  function Kept(backendID: string, slugs: seq<string>, yaml: seq<string>): seq<string> {
    Filter((slug: string) => !SlugInYAML(backendID, slug, yaml), slugs)
  }

  function YamlFor(yamlAllow: map<string, seq<string>>, b: string): seq<string> {
    if b in yamlAllow then yamlAllow[b] else []
  }

  /** The pruned overlay: each backend's kept slugs, backends with none left dropped. */
  function Pruned(overlay: Overlay, yamlAllow: map<string, seq<string>>): Overlay {
    map b | b in overlay && KeptFor(overlay, yamlAllow, b) != [] :: KeptFor(overlay, yamlAllow, b)
  }

  function KeptFor(overlay: Overlay, yamlAllow: map<string, seq<string>>, b: string): seq<string>
    requires b in overlay
  {
    Kept(b, overlay[b], YamlFor(yamlAllow, b))
  }

  predicate RemovedFrom(b: string, slugs: seq<string>, yaml: seq<string>, r: Removal) {
    r.backend == b && r.model in slugs && SlugInYAML(b, r.model, yaml)
  }

  predicate IsRemoved(overlay: Overlay, yamlAllow: map<string, seq<string>>, r: Removal) {
    r.backend in overlay && RemovedFrom(r.backend, overlay[r.backend], YamlFor(yamlAllow, r.backend), r)
  }

  datatype Removal = Removal(backend: string, model: string)

  /** What the loop has gathered from these backends. */
  ghost predicate PrunedSoFar(overlay: Overlay, yamlAllow: map<string, seq<string>>, done: set<string>,
                              out: Overlay, removed: seq<Removal>) {
    && done <= overlay.Keys
    && (forall b :: b in out <==> b in done && KeptFor(overlay, yamlAllow, b) != [])
    && (forall b | b in out :: out[b] == KeptFor(overlay, yamlAllow, b))
    && (forall r :: r in removed <==> r.backend in done && IsRemoved(overlay, yamlAllow, r))
  }

  lemma OneMorePruned(overlay: Overlay, yamlAllow: map<string, seq<string>>, done: set<string>, out: Overlay,
                      removed: seq<Removal>, b: string, gone: seq<Removal>)
    requires PrunedSoFar(overlay, yamlAllow, done, out, removed) && b in overlay && b !in done
    requires forall r :: r in gone <==> RemovedFrom(b, overlay[b], YamlFor(yamlAllow, b), r)
    ensures var kept := KeptFor(overlay, yamlAllow, b);
      PrunedSoFar(overlay, yamlAllow, done + {b}, if kept == [] then out else out[b := kept], removed + gone)
  {
    forall r ensures r in removed + gone <==> r.backend in done + {b} && IsRemoved(overlay, yamlAllow, r) {
      assert r in removed + gone <==> r in removed || r in gone;
    }
  }

  /** prune, for any order the overlay's map is walked in. */
  method Prune(overlay: Overlay, yamlAllow: map<string, seq<string>>, order: seq<string>)
    returns (out: Overlay, removed: seq<Removal>)
    requires Lists(order, overlay.Keys)
    ensures out == Pruned(overlay, yamlAllow)
    ensures forall r :: r in removed <==>
              r.backend in overlay && r.model in overlay[r.backend] && InYAML(yamlAllow, r.backend, r.model)
    ensures forall b :: b in out <==> b in overlay && exists m :: m in overlay[b] && !InYAML(yamlAllow, b, m)
    ensures forall b, m | b in out :: m in out[b] <==> m in overlay[b] && !InYAML(yamlAllow, b, m)
  {
    out, removed := map[], [];
    ghost var done: set<string> := {};
    for i := 0 to |order|
      invariant forall k :: k in done <==> k in order[..i]
      invariant PrunedSoFar(overlay, yamlAllow, done, out, removed)
    {
      var b := order[i];
      assert b in overlay && b !in done;
      var kept, gone := PruneBackend(b, overlay[b], YamlFor(yamlAllow, b));
      OneMorePruned(overlay, yamlAllow, done, out, removed, b, gone);
      removed := removed + gone;
      if kept != [] {
        out := out[b := kept];
      }
      done := done + {b};
    }
    assert done == overlay.Keys;
    SameMap(out, Pruned(overlay, yamlAllow));
    PrunedSays(overlay, yamlAllow);
  }

  /** The backend's YAML list has an entry of this slug's normal form. */
  ghost predicate InYAML(yamlAllow: map<string, seq<string>>, b: string, slug: string) {
    b in yamlAllow && exists ys :: ys in yamlAllow[b] && Canonical(b, ys) == Canonical(b, slug)
  }

  lemma PrunedSays(overlay: Overlay, yamlAllow: map<string, seq<string>>)
    ensures forall r :: IsRemoved(overlay, yamlAllow, r) <==>
              r.backend in overlay && r.model in overlay[r.backend] && InYAML(yamlAllow, r.backend, r.model)
    ensures var out := Pruned(overlay, yamlAllow);
      && (forall b :: b in out <==> b in overlay && exists m :: m in overlay[b] && !InYAML(yamlAllow, b, m))
      && (forall b, m | b in out :: m in out[b] <==> m in overlay[b] && !InYAML(yamlAllow, b, m))
  {
    forall b, m | b in overlay
      ensures m in KeptFor(overlay, yamlAllow, b) <==> m in overlay[b] && !InYAML(yamlAllow, b, m)
    {
      assert SlugInYAML(b, m, YamlFor(yamlAllow, b)) <==> InYAML(yamlAllow, b, m);
    }
    forall b | b in overlay
      ensures KeptFor(overlay, yamlAllow, b) != [] <==> exists m :: m in overlay[b] && !InYAML(yamlAllow, b, m)
    {
      var kept := KeptFor(overlay, yamlAllow, b);
      assert kept != [] ==> kept[0] in kept;
    }
  }

  method PruneBackend(b: string, slugs: seq<string>, yaml: seq<string>) returns (kept: seq<string>, gone: seq<Removal>)
    ensures kept == Kept(b, slugs, yaml)
    ensures forall r :: r in gone <==> RemovedFrom(b, slugs, yaml, r)
  {
    kept, gone := [], [];
    for i := 0 to |slugs|
      invariant kept == Kept(b, slugs[..i], yaml)
      invariant forall r :: r in gone <==> RemovedFrom(b, slugs[..i], yaml, r)
    {
      assert slugs[..i + 1] == slugs[..i] + [slugs[i]];
      FilterSnoc((slug: string) => !SlugInYAML(b, slug, yaml), slugs[..i], slugs[i]);
      if SlugInYAML(b, slugs[i], yaml) {
        gone := gone + [Removal(b, slugs[i])];
      } else {
        kept := kept + [slugs[i]];
      }
    }
    assert slugs[..|slugs|] == slugs;
  }

  /** The two normal forms agree on a backend id without outer blanks. */
  lemma CanonicalIsNormalize(b: string, slug: string)
    requires b != "" && Trimmed(b)
    ensures Canonical(b, slug) == NormalizeDownstream(b, slug)
  {
    TrimmedFixed(b);
  }

  predicate NoBlank(yaml: seq<string>) {
    forall ys | ys in yaml :: TrimSpace(ys) != ""
  }

  /** A list the pruner may compare against: without blank entries, or one that allows the
      only slug a blank entry prunes wrongly, the backend's bare prefix. */
  predicate PruneSafe(b: string, yaml: seq<string>) {
    NoBlank(yaml) || ModelInAllowList(b, b + "/", yaml)
  }

  /** A pruned slug adds nothing: it is blank or already allowed by a list that only grew. */
  lemma PrunedAddsNothing(b: string, slug: string, yaml: seq<string>, allow: seq<string>)
    requires b != "" && Trimmed(b) && PruneSafe(b, yaml)
    requires SlugInYAML(b, slug, yaml) && (forall ys | ys in yaml :: ys in allow)
    ensures TrimSpace(slug) == "" || ModelInAllowList(b, TrimSpace(slug), allow)
  {
    TrimmedFixed(b);
    var s := TrimSpace(slug);
    TrimSpaceTrims(slug);
    TrimmedFixed(s);
    if s != "" {
      var ys :| ys in yaml && Canonical(b, ys) == Canonical(b, slug);
      CanonicalIsNormalize(b, ys);
      CanonicalIsNormalize(b, slug);
      var y := TrimSpace(ys);
      TrimSpaceTrims(ys);
      TrimmedFixed(y);
      if y != "" {
        assert Matches(b, s, ys);
      } else {
        BlankSlugIsPrefix(b, s);
        var entry :| entry in yaml && Matches(b, b + "/", entry);
        assert entry in allow;
      }
    }
  }

  /** The one trimmed, non-blank slug whose normal form is empty. */
  lemma BlankSlugIsPrefix(b: string, s: string)
    requires b != "" && Trimmed(b) && Trimmed(s) && s != "" && NormalizeDownstream(b, s) == ""
    ensures s == b + "/"
  {
    TrimmedFixed(b);
    TrimmedFixed(s);
    var rest := s[|b| + 1..];
    var x, y := TrimSpaceSplits(rest);
    assert rest == x + y;
    assert s == (b + "/") + rest;
  }

  lemma {:induction false} KeptAppliesTheSame(b: string, slugs: seq<string>, yaml: seq<string>, allow: seq<string>)
    requires b != "" && Trimmed(b) && PruneSafe(b, yaml) && (forall ys | ys in yaml :: ys in allow)
    ensures ApplyEntries(b, Kept(b, slugs, yaml), allow) == ApplyEntries(b, slugs, allow)
  {
    if slugs != [] {
      var entry := TrimSpace(slugs[0]);
      var next := if entry == "" || ModelInAllowList(b, entry, allow) then allow
                  else allow + [NormalizeDownstream(b, entry)];
      KeptAppliesTheSame(b, slugs[1..], yaml, next);
      if SlugInYAML(b, slugs[0], yaml) {
        PrunedAddsNothing(b, slugs[0], yaml, allow);
        assert Kept(b, slugs, yaml) == Kept(b, slugs[1..], yaml);
      } else {
        assert Kept(b, slugs, yaml)[1..] == Kept(b, slugs[1..], yaml);
      }
    }
  }

  /** Pruning changes no allow list: with the YAML lists the config was loaded from, applying
      the pruned overlay gives exactly the config that applying the original gives. */
  lemma PruneKeepsConfig(cfg: Config, overlay: Overlay, yamlAllow: map<string, seq<string>>)
    requires forall b | b in cfg :: b != "" && Trimmed(b)
    requires forall b | b in cfg && cfg[b].gated :: YamlFor(yamlAllow, b) == cfg[b].allow && PruneSafe(b, cfg[b].allow)
    ensures Applied(cfg, Pruned(overlay, yamlAllow)) == Applied(cfg, overlay)
  {
    forall b | b in cfg && cfg[b].gated && b in overlay
      ensures Applied(cfg, Pruned(overlay, yamlAllow))[b] == Applied(cfg, overlay)[b]
    {
      KeptAppliesTheSame(b, overlay[b], cfg[b].allow, cfg[b].allow);
    }
  }

  /** PruneSafe is exact: without it some overlay loses an entry to the pruner. */
  lemma PruneSafeIsExact(b: string, yaml: seq<string>)
    requires b != "" && Trimmed(b)
    ensures PruneSafe(b, yaml) <==>
      forall slugs :: ApplyEntries(b, Kept(b, slugs, yaml), yaml) == ApplyEntries(b, slugs, yaml)
  {
    if PruneSafe(b, yaml) {
      forall slugs {
        KeptAppliesTheSame(b, slugs, yaml, yaml);
      }
    } else {
      var ys :| ys in yaml && TrimSpace(ys) == "";
      BlankHidesPrefix(b, yaml, ys);
    }
  }

  /** A blank entry in the YAML list makes the pruner drop the bare prefix, which is applied
      where the list does not allow it yet. */
  lemma BlankHidesPrefix(b: string, yaml: seq<string>, ys: string)
    requires b != "" && Trimmed(b) && ys in yaml && TrimSpace(ys) == "" && !ModelInAllowList(b, b + "/", yaml)
    ensures ApplyEntries(b, Kept(b, [b + "/"], yaml), yaml) != ApplyEntries(b, [b + "/"], yaml)
  {
    var prefix := b + "/";
    assert !IsSpace('/') && Trimmed(prefix);
    TrimmedFixed(prefix);
    TrimmedFixed(b);
    assert Canonical(b, prefix) == "" == Canonical(b, ys);
    assert [prefix][1..] == [];
    assert Kept(b, [prefix], yaml) == [];
    assert ApplyEntries(b, [prefix], yaml) == ApplyEntries(b, [prefix][1..], yaml + [""]);
  }

  ghost predicate SameAnswers(b: string, x: seq<string>, y: seq<string>) {
    forall m :: ModelInAllowList(b, m, x) <==> ModelInAllowList(b, m, y)
  }

  lemma BlankEntryAnswersNothing(b: string, allow: seq<string>)
    ensures SameAnswers(b, allow + [""], allow)
  {
    forall m ensures ModelInAllowList(b, m, allow + [""]) <==> ModelInAllowList(b, m, allow) {
      assert forall e :: e in allow + [""] <==> e in allow || e == "";
      assert !Matches(b, m, "");
    }
  }

  lemma SameAnswersWithOneMore(b: string, x: seq<string>, y: seq<string>, e: string)
    requires SameAnswers(b, x, y)
    ensures SameAnswers(b, x + [e], y + [e])
  {
    forall m ensures ModelInAllowList(b, m, x + [e]) <==> ModelInAllowList(b, m, y + [e]) {
      assert ModelInAllowList(b, m, x) <==> ModelInAllowList(b, m, y);
      assert forall z :: z in x + [e] <==> z in x || z == e;
      assert forall z :: z in y + [e] <==> z in y || z == e;
    }
  }

  function AfterEntry(b: string, slug: string, allow: seq<string>): seq<string> {
    var entry := TrimSpace(slug);
    if entry == "" || ModelInAllowList(b, entry, allow) then allow else allow + [NormalizeDownstream(b, entry)]
  }

  /** A pruned slug adds nothing but, in the one case, a blank entry that matches no model. */
  lemma PrunedAnswersNothing(b: string, slug: string, yaml: seq<string>, allow: seq<string>)
    requires b != "" && Trimmed(b) && SlugInYAML(b, slug, yaml) && (forall ys | ys in yaml :: ys in allow)
    ensures SameAnswers(b, AfterEntry(b, slug, allow), allow)
  {
    TrimmedFixed(b);
    var s := TrimSpace(slug);
    TrimSpaceTrims(slug);
    TrimmedFixed(s);
    var ys :| ys in yaml && Canonical(b, ys) == Canonical(b, slug);
    CanonicalIsNormalize(b, ys);
    CanonicalIsNormalize(b, slug);
    TrimSpaceTrims(ys);
    TrimmedFixed(TrimSpace(ys));
    if s != "" && TrimSpace(ys) != "" {
      assert Matches(b, s, ys);
    }
    BlankEntryAnswersNothing(b, allow);
  }

  lemma {:induction false} KeptAnswersTheSame(b: string, slugs: seq<string>, yaml: seq<string>, x: seq<string>,
                                              y: seq<string>)
    requires b != "" && Trimmed(b) && SameAnswers(b, x, y) && (forall ys | ys in yaml :: ys in y)
    ensures SameAnswers(b, ApplyEntries(b, Kept(b, slugs, yaml), x), ApplyEntries(b, slugs, y))
  {
    if slugs != [] {
      var next := AfterEntry(b, slugs[0], y);
      if SlugInYAML(b, slugs[0], yaml) {
        PrunedAnswersNothing(b, slugs[0], yaml, y);
        assert Kept(b, slugs, yaml) == Kept(b, slugs[1..], yaml);
        KeptAnswersTheSame(b, slugs[1..], yaml, x, next);
      } else {
        assert Kept(b, slugs, yaml)[1..] == Kept(b, slugs[1..], yaml);
        SameAnswersWithOneMore(b, x, y, NormalizeDownstream(b, TrimSpace(slugs[0])));
        KeptAnswersTheSame(b, slugs[1..], yaml, AfterEntry(b, slugs[0], x), next);
      }
    }
  }

  /** And whatever the YAML lists hold, blank entries too, pruning never changes which models a
      backend allows. */
  lemma PruneKeepsAnswers(cfg: Config, overlay: Overlay, yamlAllow: map<string, seq<string>>, b: string, m: string)
    requires b in cfg && b != "" && Trimmed(b) && (cfg[b].gated ==> YamlFor(yamlAllow, b) == cfg[b].allow)
    ensures var before, after := Applied(cfg, overlay)[b], Applied(cfg, Pruned(overlay, yamlAllow))[b];
      after.gated == before.gated && (ModelInAllowList(b, m, after.allow) <==> ModelInAllowList(b, m, before.allow))
  {
    if cfg[b].gated && b in overlay {
      KeptAnswersTheSame(b, overlay[b], cfg[b].allow, cfg[b].allow, cfg[b].allow);
    }
  }

  // ----- editing the overlay file -----

  predicate Present(b: string, allow: seq<string>, down: string) {
    exists e | e in allow :: NormalizeDownstream(b, e) == down
  }

  function AllowFor(file: Overlay, b: string): seq<string> {
    if b in file then file[b] else []
  }

  function Without(b: string, allow: seq<string>, down: string): seq<string> {
    Filter((e: string) => NormalizeDownstream(b, e) != down, allow)
  }

  function Added(file: Overlay, b: string, down: string): Overlay {
    if Present(b, AllowFor(file, b), down) then file else file[b := AllowFor(file, b) + [down]]
  }

  function Removed(file: Overlay, b: string, down: string): Overlay {
    var kept := Without(b, AllowFor(file, b), down);
    if !Present(b, AllowFor(file, b), down) then file
    else if kept == [] then file - {b}
    else file[b := kept]
  }

  /** The overlay file, read and replaced whole under its file lock. */
  class OverlayFile {
    var file: Overlay

    constructor (file: Overlay)
      ensures this.file == file
    {
      this.file := file;
    }

    /** overlayAdd; false when the backend or model is blank. */
    method Add(backendID: string, downstream: string) returns (ok: bool)
      modifies this
      ensures var b := TrimSpace(backendID);
        var down := TrimSpace(NormalizeDownstream(b, downstream));
        && ok == (b != "" && down != "")
        && file == (if ok then Added(old(file), b, down) else old(file))
        && (ok ==> var allow := if b in old(file) then old(file)[b] else [];
              file == if exists e :: e in allow && NormalizeDownstream(b, e) == down then old(file)
                      else old(file)[b := allow + [down]])
    {
      var b := TrimSpace(backendID);
      var down := TrimSpace(NormalizeDownstream(b, downstream));
      if b == "" || down == "" {
        return false;
      }
      var allow := AllowFor(file, b);
      for i := 0 to |allow|
        invariant file == old(file)
        invariant forall e | e in allow[..i] :: NormalizeDownstream(b, e) != down
      {
        if NormalizeDownstream(b, allow[i]) == down {
          return true;
        }
      }
      file := file[b := allow + [down]];
      ok := true;
    }

    /** overlayRemove; a model that is not there changes nothing. */
    method Remove(backendID: string, downstream: string) returns (ok: bool)
      modifies this
      ensures var b := TrimSpace(backendID);
        var down := TrimSpace(NormalizeDownstream(b, downstream));
        && ok == (b != "" && down != "")
        && file == (if ok then Removed(old(file), b, down) else old(file))
        && (ok ==> forall c | c != b :: (c in file <==> c in old(file)) && (c in file ==> file[c] == old(file)[c]))
        && (ok && b in file ==> b in old(file))
        && (ok && b in file ==>
              forall e :: e in file[b] <==> e in old(file)[b] && NormalizeDownstream(b, e) != down)
        && (ok && b in old(file) && b !in file ==> forall e | e in old(file)[b] :: NormalizeDownstream(b, e) == down)
    {
      var b := TrimSpace(backendID);
      var down := TrimSpace(NormalizeDownstream(b, downstream));
      if b == "" || down == "" {
        return false;
      }
      ok := true;
      if b !in file {
        return;
      }
      var kept, removed := DropMatches(b, file[b], down);
      if removed {
        file := if kept == [] then file - {b} else file[b := kept];
      }
    }
  }

  method DropMatches(b: string, allow: seq<string>, down: string) returns (kept: seq<string>, removed: bool)
    ensures kept == Without(b, allow, down) && removed == Present(b, allow, down)
  {
    kept, removed := [], false;
    for i := 0 to |allow|
      invariant kept == Without(b, allow[..i], down)
      invariant removed == Present(b, allow[..i], down)
    {
      assert allow[..i + 1] == allow[..i] + [allow[i]];
      WithoutSnoc(b, allow[..i], down, allow[i]);
      if NormalizeDownstream(b, allow[i]) == down {
        removed := true;
      } else {
        kept := kept + [allow[i]];
      }
    }
    assert allow[..|allow|] == allow;
  }

  lemma WithoutSnoc(b: string, allow: seq<string>, down: string, last: string)
    ensures Without(b, allow + [last], down)
         == Without(b, allow, down) + if NormalizeDownstream(b, last) == down then [] else [last]
    ensures Present(b, allow + [last], down) <==> Present(b, allow, down) || NormalizeDownstream(b, last) == down
  {
    FilterSnoc((e: string) => NormalizeDownstream(b, e) != down, allow, last);
    assert forall e :: e in allow + [last] <==> e in allow || e == last;
  }

  lemma WithoutAppend(b: string, allow: seq<string>, down: string, last: string)
    requires !Present(b, allow, down)
    ensures Without(b, allow + [last], down) == allow + if NormalizeDownstream(b, last) == down then [] else [last]
  {
    var keep := (e: string) => NormalizeDownstream(b, e) != down;
    FilterSnoc(keep, allow, last);
    FilterAll(keep, allow);
  }

  /** Removing a model undoes adding it exactly when the model's own id does not start with the
      backend's prefix again (adding backend/backend/x stores backend/x, which reads back as x)
      and the file held no empty list for the backend. */
  lemma RemoveUndoesAddIff(file: Overlay, b: string, down: string)
    requires b != "" && Trimmed(b) && down != "" && Trimmed(down)
    requires !Present(b, AllowFor(file, b), down)
    ensures Removed(Added(file, b, down), b, down) == file
        <==> !(b + "/" <= down) && !(b in file && file[b] == [])
  {
    TrimmedFixed(b);
    TrimmedFixed(down);
    if b + "/" <= down {
      PrefixedIsNotFound(file, b, down);
    } else {
      PlainComesOff(file, b, down);
    }
  }

  lemma PrefixedIsNotFound(file: Overlay, b: string, down: string)
    requires b != "" && Trimmed(b) && Trimmed(down) && b + "/" <= down && !Present(b, AllowFor(file, b), down)
    ensures Removed(Added(file, b, down), b, down) != file
  {
    TrimmedFixed(b);
    TrimmedFixed(down);
    var allow := AllowFor(file, b);
    TrimSpaceTrims(down[|b| + 1..]);
    assert NormalizeDownstream(b, down) != down;
    assert !Present(b, allow + [down], down);
    assert |allow + [down]| == |allow| + 1;
  }

  lemma PlainComesOff(file: Overlay, b: string, down: string)
    requires b != "" && Trimmed(b) && down != "" && Trimmed(down) && !(b + "/" <= down)
    requires !Present(b, AllowFor(file, b), down)
    ensures Removed(Added(file, b, down), b, down) == file <==> !(b in file && file[b] == [])
  {
    TrimmedFixed(b);
    TrimmedFixed(down);
    var allow := AllowFor(file, b);
    WithoutAppend(b, allow, down, down);
    assert NormalizeDownstream(b, down) == down && down in allow + [down];
    assert Present(b, allow + [down], down) && Without(b, allow + [down], down) == allow;
  }
}
