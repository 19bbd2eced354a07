/** Where reruns fall short: a stop between the two renames of a legacy link that
    leaves a recorded target missing for good, and another package's link leading
    nowhere, so that the same manifest is refused. */
module Shortfalls {
  import opened Wrappers
  import opened Paths
  import opened Trees
  import opened Texts
  import opened Temps
  import opened Packages
  import opened Disks
  import opened Progress
  import opened Convergence

  /** The recorded target of `k` is still the link to its output, and `aside` is a
      temporary name that is free in its area. */
  predicate Legacy(cfg: Config, plan: Plan, w: World, k: string, aside: string)
  {
    && k in plan.present && k in Entries(w.ledger)
    && OwnLink(Before(cfg, plan, w, k), Source(plan, Entries(w.ledger), k))
    && TempName(aside) && Key(plan.present[k].kind, aside) !in plan.present
    && Get(w.root, Area(cfg, plan.present[k].kind) + [aside]).None?
  }

  /** The target of `j` is a link, in the same area, to the entry of `k`. */
  predicate Through(cfg: Config, plan: Plan, w: World, j: string, k: string)
    requires k in plan.present
  {
    && j in plan.present && j != k && plan.present[j].kind == plan.present[k].kind
    && var n := Before(cfg, plan, w, j);
       n.Some? && n.value.Link? && Components(n.value.target) == [Normal(plan.present[k].id)]
  }

  /** The world after the first rename of the swap of `k`. */
  function MovedAway(cfg: Config, plan: Plan, w: World, k: string, aside: string): World
    requires Legacy(cfg, plan, w, k, aside)
  {
    World(Put(Del(w.root, TargetOf(cfg, plan, k)), Area(cfg, plan.present[k].kind) + [aside],
              Before(cfg, plan, w, k).value), w.ledger)
  }

  /** Every run with such a package may stop right there: the link is lost, and nothing
      else has changed. */
  lemma StopBetweenRenames(cfg: Config, plan: Plan, w: World, k: string, aside: string)
    requires WellKeyed(plan) && Legacy(cfg, plan, w, k, aside)
    ensures var stopped := MovedAway(cfg, plan, w, k, aside);
      && MidRun(cfg, plan, w, stopped) && LostLink(cfg, plan, w, stopped, k)
      && IsDir(stopped.root, Area(cfg, plan.present[k].kind))
      && forall j :: j in plan.present && j != k ==> Before(cfg, plan, stopped, j) == Before(cfg, plan, w, j)
  {
    var stopped := MovedAway(cfg, plan, w, k, aside);
    var target, area := TargetOf(cfg, plan, k), Area(cfg, plan.present[k].kind);
    ParentIsDir(w.root, target);
    assert target[..|target| - 1] == area;
    StartsSoFar(cfg, plan, w);
    DisplaceStep(cfg, plan, w, {}, w, k, aside);
    assert SoFar(cfg, plan, w, {}, Some(k), stopped);
    SoFarIsMidRun(cfg, plan, w, {}, Some(k), stopped);
  }

  /** While the link is away, a link through it leads nowhere. */
  lemma LeadsNowhere(root: Node, area: Path, j: string, k: string)
    requires IsDir(root, area) && Get(root, area + [k]).None?
    requires var n := Get(root, area + [j]); n.Some? && n.value.Link? && Components(n.value.target) == [Normal(k)]
    ensures !LeadsToDir(root, area + [j])
  {
    GetAppend(root, area, [j]);
    GetAppend(root, area, [k]);
    var es := Get(root, area).value.entries;
    assert [j][1..] == [] && [k][1..] == [];
    assert j in es && es[j].Link? && k !in es;
    var p, rest := area + [j], [];
    assert p[..|p| - 1] == area && [Normal(j)] + rest == [Normal(j)] && [Normal(k)] + rest == [Normal(k)];
    FollowStep(root, area, j, rest, MAX_LINKS);
    assert Walk(root, area, [Normal(k)], true, MAX_LINKS - 1) == Missing;
  }

  /** Whenever an accepted manifest has a legacy package and another package linked
      through it, the run may stop at a place from which the same manifest is refused. */
  lemma RerunRefused(cfg: Config, desired: Manifest, w: World, k: string, j: string, aside: string)
    requires Admissible(cfg, desired, w) && StoreOutside(cfg, desired.packages, Entries(w.ledger))
    requires Legacy(cfg, PlanOf(desired.packages), w, k, aside) && Through(cfg, PlanOf(desired.packages), w, j, k)
    ensures var plan := PlanOf(desired.packages);
      var stopped := MovedAway(cfg, plan, w, k, aside);
      && MidRun(cfg, plan, w, stopped) && LostLink(cfg, plan, w, stopped, k)
      && !LeadsToDir(stopped.root, TargetOf(cfg, plan, j))
      && !Admissible(cfg, desired, stopped)
  {
    var plan := PlanOf(desired.packages);
    var stopped := MovedAway(cfg, plan, w, k, aside);
    AcceptedPlan(w.root, desired.packages);
    StopBetweenRenames(cfg, plan, w, k, aside);
    LeadsNowhere(stopped.root, Area(cfg, plan.present[k].kind), plan.present[j].id, plan.present[k].id);
    ThroughIsForeign(cfg, desired, w, j, k);
    RerunAccepted(cfg, desired, w, stopped);
  }

  lemma ThroughIsForeign(cfg: Config, desired: Manifest, w: World, j: string, k: string)
    requires Admissible(cfg, desired, w)
    requires k in PlanOf(desired.packages).present && Through(cfg, PlanOf(desired.packages), w, j, k)
    ensures ForeignLink(cfg, PlanOf(desired.packages), w, j)
  {
    var plan := PlanOf(desired.packages);
    FaultMeans(w.root, TargetOf(cfg, plan, j), Source(plan, Entries(w.ledger), j));
  }

  // ------------------------------------------------------------------- such an input

  /** Two modules: `a` recorded and still the link to `store`, `b` a link to `a`. */
  function TwoModules(a: string, b: string, version: string, store: string): seq<Package>
  {
    [Package("module", a, "present", version, store), Package("module", b, "present", version, store)]
  }

  function HostTree(d: string, s: string, a: string, b: string, store: string, m: Mode): Node
  {
    var modules := Dir(m, map[a := Link(store), b := Link(a)]);
    Dir(m, map[d := Dir(m, map["Data" := Dir(m, map["modules" := modules])]), s := Dir(m, map[])])
  }

  function Remembered(a: string, version: string, store: string): LedgerFile
  {
    Recorded(SCHEMA_VERSION, map[Key("module", a) := Managed("module", a, version, store)])
  }

  /** Names for the example: data directory `d`, store output `/s`, modules `a` and `b`. */
  predicate Example(d: string, s: string, a: string, b: string, version: string, store: string)
  {
    && ValidName(d) && ValidName(s) && d != s
    && ValidId(a) && ValidId(b) && a != b && !Blank(version) && store == "/" + s
  }

  lemma ExampleParts(d: string, s: string, a: string, b: string, version: string, store: string)
    requires Example(d, s, a, b, version, store)
    ensures Components(a) == [Normal(a)] && Components(store) == [RootDir, Normal(s)]
  {
    IdIsName(a);
    ComponentsOfName(a);
    ComponentsOfRoot(s, "/");
  }

  lemma PlanOfTwo(p: Package, q: Package)
    requires p.state == "present" && q.state == "present"
    ensures PlanOf([p, q]) == Plan(map[KeyOf(p) := p, KeyOf(q) := q], {})
  {
    assert [p, q][..1] == [p] && [p][..0] == [];
    assert PlanOf([]) == Plan(map[], {});
    assert PlanOf([p]) == Plan(map[KeyOf(p) := p], {});
  }

  /** What lies where in the example. */
  lemma HostPlaces(d: string, s: string, a: string, b: string, store: string, m: Mode)
    requires d != s && a != b && Components(store) == [RootDir, Normal(s)]
    ensures var root, area := HostTree(d, s, a, b, store, m), Area(Config([d], m), "module");
      && StoreNode(root, store) == Some(Dir(m, map[]))
      && Get(root, area) == Some(Dir(m, map[a := Link(store), b := Link(a)]))
      && Get(root, area + [a]) == Some(Link(store)) && Get(root, area + [b]) == Some(Link(a))
      && Get(root, [s]) == Some(Dir(m, map[]))
  {
    var root, area := HostTree(d, s, a, b, store, m), Area(Config([d], m), "module");
    var modules := Dir(m, map[a := Link(store), b := Link(a)]);
    var data := root.entries[d];
    assert area == [d, "Data"] + ["modules"];
    GetTwo(root, d, "Data");
    GetAppend(root, [d, "Data"], ["modules"]);
    OneDown(data.entries["Data"], "modules");
    assert Get(root, area) == Some(modules);
    GetAppend(root, area, [a]);
    GetAppend(root, area, [b]);
    OneDown(modules, a);
    OneDown(modules, b);
    OneDown(root, s);
    StorePlaceOf(store, s);
  }

  lemma OneDown(t: Node, n: string)
    requires t.Dir? && n in t.entries
    ensures Get(t, [n]) == Some(t.entries[n])
  {
    assert [n][1..] == [];
  }

  lemma StorePlaceOf(store: string, s: string)
    requires Components(store) == [RootDir, Normal(s)]
    ensures StorePlace(store) == Some([s])
  {
    var cs := Components(store);
    assert cs[1..] == [Normal(s)] && [Normal(s)][1..] == [];
    assert Names([]) == Some([]);
    assert Names([Normal(s)]) == Some([s]) by { assert [s] + [] == [s]; }
  }

  /** A link through a link to the store leads to the store's directory. */
  lemma LeadsThrough(root: Node, area: Path, a: string, b: string, s: string)
    requires IsDir(root, []) && IsDir(root, area) && IsDir(root, [s])
    requires var es := Get(root, area).value.entries;
      && a in es && b in es && es[a].Link? && es[b].Link?
      && Components(es[a].target) == [RootDir, Normal(s)] && Components(es[b].target) == [Normal(a)]
    ensures LeadsToDir(root, area + [b])
  {
    var p, none := area + [b], [];
    assert p[..|p| - 1] == area;
    assert [Normal(b)] + none == [Normal(b)] && [Normal(a)] + none == [Normal(a)];
    FollowStep(root, area, b, none, MAX_LINKS);
    FollowStep(root, area, a, none, MAX_LINKS - 1);
    var todo := [RootDir, Normal(s)];
    assert todo + none == todo && todo[1..] == [Normal(s)] && [Normal(s)][1..] == [];
    assert Walk(root, area, todo, true, MAX_LINKS - 2) == Walk(root, [], [Normal(s)], true, MAX_LINKS - 2);
    assert [s][1..] == [] && [] + [s] == [s];
    assert Get(root, []) == Some(root) && s in root.entries;
    OneDown(root, s);
    assert Walk(root, [], [Normal(s)], true, MAX_LINKS - 2) == Walk(root, [s], [], true, MAX_LINKS - 2);
  }

  lemma ExampleManifestOk(d: string, s: string, a: string, b: string, version: string, store: string, m: Mode)
    requires Example(d, s, a, b, version, store)
    ensures ManifestOk(HostTree(d, s, a, b, store, m), TwoModules(a, b, version, store))
  {
    ExampleParts(d, s, a, b, version, store);
    var root, ps := HostTree(d, s, a, b, store, m), TwoModules(a, b, version, store);
    HostPlaces(d, s, a, b, store, m);
    forall i | 0 <= i < |ps| ensures PackageFault(root, ps[i]).None? {
      assert ps[i].kind == "module" && ps[i].state == "present" && StoreIsDir(root, ps[i].storePath);
    }
    if KeyOf(ps[0]) == KeyOf(ps[1]) { KeyInjective("module", a, "module", b); }
  }

  lemma ExamplePreflightOk(d: string, s: string, a: string, b: string, version: string, store: string, m: Mode)
    requires Example(d, s, a, b, version, store)
    ensures PreflightOk(Config([d], m), PlanOf(TwoModules(a, b, version, store)),
                        World(HostTree(d, s, a, b, store, m), Remembered(a, version, store)))
  {
    ExampleParts(d, s, a, b, version, store);
    var cfg, ps := Config([d], m), TwoModules(a, b, version, store);
    var w := World(HostTree(d, s, a, b, store, m), Remembered(a, version, store));
    var plan, area := PlanOf(ps), Area(cfg, "module");
    PlanOfTwo(ps[0], ps[1]);
    HostPlaces(d, s, a, b, store, m);
    LeadsThrough(w.root, area, a, b, s);
    forall k | k in plan.present
      ensures TargetFault(w.root, TargetOf(cfg, plan, k), Source(plan, Entries(w.ledger), k)).None?
    {
      assert Source(plan, Entries(w.ledger), k) == store;
      FaultMeans(w.root, TargetOf(cfg, plan, k), store);
      assert TargetOf(cfg, plan, k) == area + [a] || TargetOf(cfg, plan, k) == area + [b];
    }
  }

  /** There is such an input: all of this is met by two modules, the first recorded and
      still a link to its output, the second a link to the first. The manifest is accepted,
      and after a stop between the two renames it is refused. */
  lemma RefusedAfterStop(d: string, s: string, a: string, b: string, version: string, store: string, aside: string, m: Mode)
    requires Example(d, s, a, b, version, store) && TempName(aside) && aside != a && aside != b
    ensures var cfg, desired := Config([d], m), Manifest(SCHEMA_VERSION, TwoModules(a, b, version, store));
      var w := World(HostTree(d, s, a, b, store, m), Remembered(a, version, store));
      var plan, k := PlanOf(desired.packages), Key("module", a);
      && Admissible(cfg, desired, w) && StoreOutside(cfg, desired.packages, Entries(w.ledger))
      && Legacy(cfg, plan, w, k, aside)
      && MidRun(cfg, plan, w, MovedAway(cfg, plan, w, k, aside))
      && LostLink(cfg, plan, w, MovedAway(cfg, plan, w, k, aside), k)
      && !Admissible(cfg, desired, MovedAway(cfg, plan, w, k, aside))
  {
    ExampleParts(d, s, a, b, version, store);
    var cfg, desired := Config([d], m), Manifest(SCHEMA_VERSION, TwoModules(a, b, version, store));
    var w := World(HostTree(d, s, a, b, store, m), Remembered(a, version, store));
    ExampleManifestOk(d, s, a, b, version, store, m);
    ExamplePreflightOk(d, s, a, b, version, store, m);
    StorePlaceOf(store, s);
    ExampleIsLegacy(d, s, a, b, version, store, aside, m);
    RerunRefused(cfg, desired, w, Key("module", a), Key("module", b), aside);
  }

  lemma ExampleIsLegacy(d: string, s: string, a: string, b: string, version: string, store: string, aside: string, m: Mode)
    requires Example(d, s, a, b, version, store) && TempName(aside) && aside != a && aside != b
    ensures var cfg, plan := Config([d], m), PlanOf(TwoModules(a, b, version, store));
      var w := World(HostTree(d, s, a, b, store, m), Remembered(a, version, store));
      Legacy(cfg, plan, w, Key("module", a), aside) && Through(cfg, plan, w, Key("module", b), Key("module", a))
  {
    ExampleParts(d, s, a, b, version, store);
    var ps := TwoModules(a, b, version, store);
    PlanOfTwo(ps[0], ps[1]);
    HostPlaces(d, s, a, b, store, m);
    GetAppend(HostTree(d, s, a, b, store, m), Area(Config([d], m), "module"), [aside]);
    KeysApart("module", a, b);
    KeysApart("module", aside, a);
    KeysApart("module", aside, b);
  }

  lemma KeysApart(kind: string, x: string, y: string)
    requires ValidKind(kind) && x != y
    ensures Key(kind, x) != Key(kind, y)
  {
    if Key(kind, x) == Key(kind, y) { KeyInjective(kind, x, kind, y); }
  }
}
