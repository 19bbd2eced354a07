/** What the package reconciler is asked to do, what it remembers, and the
    exact meaning of one run: manifests, the ledger, targets and store paths. */
module Packages {
  import opened Wrappers
  import opened Paths
  import opened Trees
  import opened Texts
  import opened Temps

  const SCHEMA_VERSION := 1

  datatype Error = UnsafeId | InvalidStorePath | InvalidTarget | StateInvalid | Io

  datatype Package = Package(kind: string, id: string, state: string, version: string, storePath: string)

  datatype Manifest = Manifest(schemaVersion: nat, packages: seq<Package>)

  datatype Managed = Managed(kind: string, id: string, version: string, storePath: string)

  type Ledger = map<string, Managed>

  /** The state file: absent, not readable as a ledger, or a ledger. */
  datatype LedgerFile = NoFile | Garbage | Recorded(schemaVersion: nat, packages: Ledger)

  /** Everything a run can see or change. */
  datatype World = World(root: Node, ledger: LedgerFile)

  /** Where the data directory lies, and the mode new directories get. */
  datatype Config = Config(data: Path, dirMode: Mode)

  function Entries(file: LedgerFile): Ledger
  {
    if file.Recorded? then file.packages else map[]
  }

  // ----------------------------------------------------------- keys and targets

  predicate IdChar(c: char)
  {
    'a' <= c <= 'z' || 'A' <= c <= 'Z' || '0' <= c <= '9' || c == '.' || c == '_' || c == '-'
  }

  predicate ValidId(id: string)
  {
    id != "" && id != "." && id != ".." && forall i :: 0 <= i < |id| ==> IdChar(id[i])
  }

  predicate ValidKind(kind: string)
  {
    kind == "module" || kind == "system"
  }

  function Key(kind: string, id: string): string
  {
    kind + "/" + id
  }

  function AreaName(kind: string): string
  {
    if kind == "module" then "modules" else "systems"
  }

  function Area(cfg: Config, kind: string): (p: Path)
    ensures |p| == |cfg.data| + 2
  {
    cfg.data + ["Data", AreaName(kind)]
  }

  function Target(cfg: Config, kind: string, id: string): (p: Path)
    ensures |p| == |cfg.data| + 3
  {
    Area(cfg, kind) + [id]
  }

  /** Keys name packages uniquely. */
  lemma KeyInjective(kind: string, id: string, kind': string, id': string)
    requires ValidKind(kind) && ValidKind(kind')
    requires Key(kind, id) == Key(kind', id')
    ensures kind == kind' && id == id'
  {
    assert kind[0] == Key(kind, id)[0] == Key(kind', id')[0] == kind'[0];
    assert kind == kind';
    assert id == Key(kind, id)[|kind| + 1..];
  }

  /** Targets of different packages are different, and none lies inside another. */
  lemma TargetsApart(cfg: Config, kind: string, id: string, kind': string, id': string)
    requires ValidKind(kind) && ValidKind(kind')
    requires Target(cfg, kind, id) <= Target(cfg, kind', id')
    ensures kind == kind' && id == id'
  {
    var t, t' := Target(cfg, kind, id), Target(cfg, kind', id');
    assert t[|cfg.data| + 1] == t'[|cfg.data| + 1];
    assert t[|cfg.data| + 2] == t'[|cfg.data| + 2];
    assert AreaName(kind) == AreaName(kind');
    assert |"modules"| == 7 && "modules"[0] == 'm' && "systems"[0] == 's';
  }

  // ------------------------------------------------------------------ store paths

  function Names(cs: seq<Component>): Option<Path>
  {
    if cs == [] then Some([])
    else if !cs[0].Normal? then None
    else match Names(cs[1..])
      case Some(rest) => Some([cs[0].name] + rest)
      case None => None
  }

  /** An absolute path without dots, as a place in the host's tree. */
  function StorePlace(s: string): Option<Path>
  {
    var cs := Components(s);
    if cs != [] && cs[0] == RootDir then Names(cs[1..]) else None
  }

  function StoreNode(root: Node, s: string): Option<Node>
  {
    match StorePlace(s)
    case Some(p) => Get(root, p)
    case None => None
  }

  /** `validate_store_path`: absolute, and a directory itself rather than a link. */
  predicate StoreIsDir(root: Node, s: string)
  {
    StoreNode(root, s).Some? && StoreNode(root, s).value.Dir?
  }

  /** Two spellings of the same path. */
  predicate SamePath(a: string, b: string)
  {
    Components(a) == Components(b)
  }

  lemma {:induction false} NamesOfNormals(p: Path)
    ensures Names(Normals(p)) == Some(p)
  {
    if p != [] {
      assert Normals(p)[1..] == Normals(p[1..]);
      NamesOfNormals(p[1..]);
      assert [p[0]] + p[1..] == p;
    }
  }

  /** An absolute text of plain names stands for exactly that place. */
  lemma AbsolutePlace(p: Path, slash: string)
    requires p != [] && slash == "/" && forall i :: 0 <= i < |p| ==> ValidName(p[i])
    ensures StorePlace(slash + Join(p)) == Some(p)
  {
    ComponentsOfAbsolute(p, slash);
    NamesOfNormals(p);
    var cs := [RootDir] + Normals(p);
    assert cs[1..] == Normals(p);
  }

  /** Any other text stands for none: the source demands an absolute path. */
  lemma RelativeHasNoPlace(s: string)
    requires s == "" || s[0] != '/'
    ensures StorePlace(s).None?
  {
    if s != "" { NoRootDir(s); } else { SplitPlain(s); OnePart(s); }
  }

  /** A store path passes exactly when it is absolute and a directory lies at its place. */
  lemma StoreIsDirExactly(root: Node, p: Path, slash: string)
    requires p != [] && slash == "/" && forall i :: 0 <= i < |p| ==> ValidName(p[i])
    ensures StoreIsDir(root, slash + Join(p)) <==> Get(root, p).Some? && Get(root, p).value.Dir?
    ensures StoreNode(root, slash + Join(p)) == Get(root, p)
  {
    AbsolutePlace(p, slash);
  }

  // -------------------------------------------------------------------- validation

  /** `validate_package`: the first complaint, if any. */
  function PackageFault(root: Node, p: Package): Option<Error>
  {
    if !ValidKind(p.kind) then Some(UnsafeId)
    else if p.state != "present" && p.state != "absent" then Some(UnsafeId)
    else if !ValidId(p.id) then Some(UnsafeId)
    else if p.state == "absent" then None
    else if Blank(p.version) then Some(UnsafeId)
    else if !StoreIsDir(root, p.storePath) then Some(InvalidStorePath)
    else None
  }

  lemma IdIsName(id: string)
    requires ValidId(id)
    ensures ValidName(id)
  {
    forall i | 0 <= i < |id| ensures id[i] != '/' { assert IdChar(id[i]); }
  }

  /** The id of an accepted package is the name of one entry of its area: as a path it is
      that single name, and its target lies directly below the area. */
  lemma IdIsOneName(cfg: Config, root: Node, p: Package)
    requires PackageFault(root, p).None?
    ensures ValidName(p.id) && Components(p.id) == [Normal(p.id)]
    ensures Lex(Area(cfg, p.kind), Components(p.id)) == Target(cfg, p.kind, p.id)
    ensures |Target(cfg, p.kind, p.id)| == |Area(cfg, p.kind)| + 1
  {
    IdIsName(p.id);
    assert Join([p.id]) == p.id;
    ComponentsOfJoin([p.id]);
    assert Normals([p.id]) == [Normal(p.id)];
    assert [Normal(p.id)][1..] == [];
  }

  /** The keys of the ledger and the places of the targets, letter by letter. */
  lemma PlacesSpelled(cfg: Config, id: string)
    ensures Key("module", id) == "module/" + id && Key("system", id) == "system/" + id
    ensures Target(cfg, "module", id) == cfg.data + ["Data", "modules", id]
    ensures Target(cfg, "system", id) == cfg.data + ["Data", "systems", id]
    ensures Area(cfg, "module") == cfg.data + ["Data", "modules"] && Area(cfg, "system") == cfg.data + ["Data", "systems"]
  {
  }

  /** The characters an id may have, by code point. */
  lemma IdCharsExactly(c: char)
    ensures IdChar(c) <==>
      var n := c as int; 48 <= n <= 57 || 65 <= n <= 90 || 97 <= n <= 122 || n == 46 || n == 95 || n == 45
  {
  }

  /** A version says something: it has a character that is not white space. */
  lemma BlankExactly(s: string)
    ensures Blank(s) <==> !(exists i :: 0 <= i < |s| && !IsSpace(s[i]))
  {
  }

  /** Exactly which packages are accepted: a module or a system, wanted present or absent,
      with a proper id; if present, also with a version and an absolute store directory. */
  lemma AcceptedExactly(root: Node, p: Package)
    ensures PackageFault(root, p).None? <==>
      && (p.kind == "module" || p.kind == "system")
      && (p.state == "present" || p.state == "absent")
      && p.id != "" && p.id != "." && p.id != ".."
      && (forall i :: 0 <= i < |p.id| ==> IdChar(p.id[i]))
      && (p.state == "present" ==>
            (exists i :: 0 <= i < |p.version| && !IsSpace(p.version[i]))
            && StorePlace(p.storePath).Some? && IsDir(root, StorePlace(p.storePath).value))
  {
    BlankExactly(p.version);
  }

  /** Which complaint it is: the store path is named only when everything else is right. */
  lemma FaultsExactly(root: Node, p: Package)
    ensures PackageFault(root, p) == Some(InvalidStorePath) <==>
      && (p.kind == "module" || p.kind == "system") && p.state == "present"
      && p.id != "" && p.id != "." && p.id != ".." && (forall i :: 0 <= i < |p.id| ==> IdChar(p.id[i]))
      && (exists i :: 0 <= i < |p.version| && !IsSpace(p.version[i]))
      && !(StorePlace(p.storePath).Some? && IsDir(root, StorePlace(p.storePath).value))
    ensures PackageFault(root, p).None? || PackageFault(root, p) == Some(InvalidStorePath)
      || PackageFault(root, p) == Some(UnsafeId)
  {
    BlankExactly(p.version);
  }

  /** The packages a manifest wants present, and the keys it wants absent. */
  datatype Plan = Plan(present: map<string, Package>, absent: set<string>)

  function KeyOf(p: Package): string
  {
    Key(p.kind, p.id)
  }

  predicate Distinct(ps: seq<Package>)
  {
    forall i, j :: 0 <= i < j < |ps| ==> KeyOf(ps[i]) != KeyOf(ps[j])
  }

  /** What the first loop of a run makes of the package list. */
  function PlanOf(ps: seq<Package>): Plan
  {
    if ps == [] then Plan(map[], {})
    else
      var before, p := PlanOf(ps[..|ps| - 1]), ps[|ps| - 1];
      if p.state == "present" then before.(present := before.present[KeyOf(p) := p])
      else before.(absent := before.absent + {KeyOf(p)})
  }

  /** Every package is acceptable and none is listed twice. */
  predicate ManifestOk(root: Node, ps: seq<Package>)
  {
    (forall i :: 0 <= i < |ps| ==> PackageFault(root, ps[i]).None?) && Distinct(ps)
  }

  /** The keys of a plan are the keys of acceptable packages. */
  predicate WellKeyed(plan: Plan)
  {
    && (forall k :: k in plan.present ==>
          KeyOf(plan.present[k]) == k && ValidKind(plan.present[k].kind) && ValidId(plan.present[k].id))
    && plan.present.Keys !! plan.absent
  }

  /** Some package of the list has key `k` and is wanted present, or is not. */
  predicate Lists(ps: seq<Package>, k: string, present: bool)
  {
    exists i :: 0 <= i < |ps| && (ps[i].state == "present") == present && KeyOf(ps[i]) == k
  }

  lemma ListsFront(ps: seq<Package>, k: string, present: bool)
    requires ps != []
    ensures var p := ps[|ps| - 1];
      Lists(ps, k, present)
      <==> Lists(ps[..|ps| - 1], k, present) || ((p.state == "present") == present && KeyOf(p) == k)
  {
    var front := ps[..|ps| - 1];
    if Lists(front, k, present) {
      var i :| 0 <= i < |front| && (front[i].state == "present") == present && KeyOf(front[i]) == k;
      assert ps[i] == front[i];
    }
    if Lists(ps, k, present) {
      var i :| 0 <= i < |ps| && (ps[i].state == "present") == present && KeyOf(ps[i]) == k;
      if i < |front| { assert front[i] == ps[i]; }
    }
  }

  /** The plan says exactly what the list says. */
  lemma {:induction false} PlanOfMeans(ps: seq<Package>)
    ensures forall k :: k in PlanOf(ps).present <==> Lists(ps, k, true)
    ensures forall k :: k in PlanOf(ps).absent <==> Lists(ps, k, false)
    ensures forall k :: k in PlanOf(ps).present ==>
      PlanOf(ps).present[k] in ps && PlanOf(ps).present[k].state == "present" && KeyOf(PlanOf(ps).present[k]) == k
  {
    if ps != [] {
      var front := ps[..|ps| - 1];
      PlanOfMeans(front);
      forall k ensures k in PlanOf(ps).present <==> Lists(ps, k, true) { ListsFront(ps, k, true); }
      forall k ensures k in PlanOf(ps).absent <==> Lists(ps, k, false) { ListsFront(ps, k, false); }
    }
  }

  /** An acceptable manifest gives a well-keyed plan of its own packages. */
  lemma AcceptedPlan(root: Node, ps: seq<Package>)
    requires ManifestOk(root, ps)
    ensures WellKeyed(PlanOf(ps))
    ensures forall k :: k in PlanOf(ps).present ==>
      PlanOf(ps).present[k] in ps && StoreIsDir(root, PlanOf(ps).present[k].storePath)
  {
    PlanOfMeans(ps);
    var plan := PlanOf(ps);
    forall k | k in plan.present
      ensures ValidKind(plan.present[k].kind) && ValidId(plan.present[k].id)
      ensures StoreIsDir(root, plan.present[k].storePath)
      ensures k !in plan.absent
    {
      var i :| 0 <= i < |ps| && ps[i] == plan.present[k];
      assert PackageFault(root, ps[i]).None?;
    }
  }

  function TargetOf(cfg: Config, plan: Plan, k: string): Path
    requires k in plan.present
  {
    Target(cfg, plan.present[k].kind, plan.present[k].id)
  }

  // ----------------------------------------------------------------------- preflight

  datatype Stat = Found(node: Node) | NotFound | Failed

  /** `symlink_metadata`: a name missing from a directory is not found; passing
      through something that is no directory fails. */
  function Lstat(t: Node, p: Path): Stat
  {
    if p == [] then Found(t)
    else if !t.Dir? then Failed
    else if p[0] !in t.entries then NotFound
    else Lstat(t.entries[p[0]], p[1..])
  }

  /** How many links the kernel follows before it gives up. */
  const MAX_LINKS: nat := 40

  /** `metadata(path).is_dir()`, following the target if it is a link. */
  predicate LeadsToDir(root: Node, p: Path)
    requires p != []
  {
    var w := Walk(root, p[..|p| - 1], [Normal(p[|p| - 1])], true, MAX_LINKS);
    w.Reached? && IsDir(root, w.path)
  }

  predicate OwnLink(n: Option<Node>, source: string)
  {
    n.Some? && n.value.Link? && SamePath(n.value.target, source)
  }

  /** Only a link can be the own link, and it is exactly when its text has the components of
      the source. */
  lemma OwnLinkMeans(n: Option<Node>, source: string)
    ensures OwnLink(n, source) <==> n.Some? && n.value.Link? && Components(n.value.target) == Components(source)
    ensures OwnLink(n, source) ==> StorePlace(n.value.target) == StorePlace(source)
  {
  }

  /** For plain absolute texts: exactly when they are the same place. A relative text is
      never the own link. */
  lemma OwnLinkExactly(p: Path, q: Path, text: string, slash: string)
    requires p != [] && q != [] && slash == "/"
    requires forall i :: 0 <= i < |p| ==> ValidName(p[i])
    requires forall i :: 0 <= i < |q| ==> ValidName(q[i])
    ensures OwnLink(Some(Link(slash + Join(p))), slash + Join(q)) <==> p == q
    ensures text == "" || text[0] != '/' ==> !OwnLink(Some(Link(text)), slash + Join(q))
  {
    AbsolutePlace(p, slash);
    AbsolutePlace(q, slash);
    OwnLinkMeans(Some(Link(slash + Join(p))), slash + Join(q));
    OwnLinkMeans(Some(Link(text)), slash + Join(q));
    if text == "" || text[0] != '/' { RelativeHasNoPlace(text); }
  }

  /** `check_seed_target` and `check_initialized_target`, which are the same test. */
  function TargetFault(root: Node, p: Path, source: string): Option<Error>
    requires p != []
  {
    match Lstat(root, p)
    case NotFound => None
    case Failed => Some(Io)
    case Found(n) =>
      if OwnLink(Some(n), source) then (if StoreIsDir(root, source) then None else Some(InvalidStorePath))
      else if LeadsToDir(root, p) then None
      else Some(InvalidTarget)
  }

  /** Where a target would be copied from: the recorded output if the key is
      recorded, otherwise the declared one. */
  function Source(plan: Plan, ledger: Ledger, k: string): string
    requires k in plan.present
  {
    if k in ledger then ledger[k].storePath else plan.present[k].storePath
  }

  predicate PreflightOk(cfg: Config, plan: Plan, w: World)
  {
    forall k :: k in plan.present ==>
      TargetFault(w.root, TargetOf(cfg, plan, k), Source(plan, Entries(w.ledger), k)).None?
  }

  // ------------------------------------------------------------- what one run means

  function Before(cfg: Config, plan: Plan, w: World, k: string): Option<Node>
    requires k in plan.present
  {
    Get(w.root, TargetOf(cfg, plan, k))
  }

  /** The run replaces or fills this target: it is the link to its own source,
      or it is missing and was never recorded. */
  predicate NeedsCopy(cfg: Config, plan: Plan, w: World, k: string)
    requires k in plan.present
  {
    OwnLink(Before(cfg, plan, w, k), Source(plan, Entries(w.ledger), k))
    || (Before(cfg, plan, w, k).None? && k !in Entries(w.ledger))
  }

  function CopyFrom(root: Node, source: string): Option<Node>
  {
    match StoreNode(root, source)
    case Some(n) => Some(Mutable(n))
    case None => None
  }

  /** What a completed run leaves at a declared target. */
  function After(cfg: Config, plan: Plan, w: World, k: string): Option<Node>
    requires k in plan.present
  {
    if NeedsCopy(cfg, plan, w, k) then CopyFrom(w.root, Source(plan, Entries(w.ledger), k))
    else Before(cfg, plan, w, k)
  }

  function ManagedOf(p: Package): Managed
  {
    Managed(p.kind, p.id, p.version, p.storePath)
  }

  /** The ledger a completed run writes. */
  function NextLedger(plan: Plan, old_: Ledger): Ledger
  {
    map k | k in (old_.Keys + plan.present.Keys) - plan.absent ::
      if k in old_ then old_[k] else ManagedOf(plan.present[k])
  }

  // ----------------------------------------------------------- places a run may touch

  /** A directory on the way down to one of the two package areas, or an area. */
  predicate AboveAreas(cfg: Config, q: Path)
  {
    q <= Area(cfg, "module") || q <= Area(cfg, "system")
  }

  /** `q` lies inside one of the areas, so it has a kind and a first name there. */
  predicate InArea(cfg: Config, q: Path)
  {
    |q| > |cfg.data| + 2
    && (q[..|cfg.data| + 2] == Area(cfg, "module") || q[..|cfg.data| + 2] == Area(cfg, "system"))
  }

  function KeyAt(cfg: Config, q: Path): string
    requires InArea(cfg, q)
  {
    Key(if q[..|cfg.data| + 2] == Area(cfg, "module") then "module" else "system", q[|cfg.data| + 2])
  }

  predicate UnderTarget(cfg: Config, plan: Plan, q: Path)
  {
    InArea(cfg, q) && KeyAt(cfg, q) in plan.present
  }

  predicate UnderTemp(cfg: Config, q: Path)
  {
    InArea(cfg, q) && TempName(q[|cfg.data| + 2])
  }

  /** Nothing that existed elsewhere is touched, and nothing new appears there
      except under temporary names. */
  ghost predicate Kept(cfg: Config, plan: Plan, before: Node, now: Node)
  {
    forall q: Path {:trigger Get(now, q)} {:trigger Get(before, q)} ::
      !AboveAreas(cfg, q) && !UnderTarget(cfg, plan, q) ==>
        && (Get(before, q).Some? ==> Get(now, q) == Get(before, q))
        && (Get(now, q).Some? ==> Get(before, q).Some? || UnderTemp(cfg, q))
  }

  /** A directory above the targets keeps its mode; a missing one may appear. */
  predicate DirKept(cfg: Config, before: Option<Node>, now: Option<Node>)
  {
    match before
    case None => now.None? || (now.value.Dir? && now.value.mode == cfg.dirMode)
    case Some(n) => if n.Dir? then SameDir(before, now) else now == before
  }

  ghost predicate DirsKept(cfg: Config, before: Node, now: Node)
  {
    forall q: Path {:trigger Get(now, q)} {:trigger Get(before, q)} ::
      AboveAreas(cfg, q) ==> DirKept(cfg, Get(before, q), Get(now, q))
  }

  // -------------------------------------------- the state of a run that may be stopped

  /** Where a declared target can be while a run is under way: as it was, as the
      run will leave it, or - for the link to its own source - just moved away. */
  predicate TargetMidway(cfg: Config, plan: Plan, w: World, k: string, now: Option<Node>)
    requires k in plan.present
  {
    || now == Before(cfg, plan, w, k)
    || now == After(cfg, plan, w, k)
    || (now.None? && OwnLink(Before(cfg, plan, w, k), Source(plan, Entries(w.ledger), k)))
  }

  predicate AllDone(cfg: Config, plan: Plan, w: World, now: Node)
  {
    forall k :: k in plan.present ==> Get(now, TargetOf(cfg, plan, k)) == After(cfg, plan, w, k)
  }

  /** What holds of `now` whenever a run begun at `w` stops: after any step, by
      an error, or by a crash. */
  ghost predicate MidRun(cfg: Config, plan: Plan, w: World, now: World)
  {
    && Kept(cfg, plan, w.root, now.root)
    && DirsKept(cfg, w.root, now.root)
    && (forall k :: k in plan.present ==>
          TargetMidway(cfg, plan, w, k, Get(now.root, TargetOf(cfg, plan, k))))
    && (now.ledger == w.ledger
        || (now.ledger == Recorded(SCHEMA_VERSION, NextLedger(plan, Entries(w.ledger)))
            && AllDone(cfg, plan, w, now.root)))
  }

  /** What a run that reports success has done. */
  ghost predicate Outcome(cfg: Config, plan: Plan, w: World, now: World)
  {
    && MidRun(cfg, plan, w, now)
    && AllDone(cfg, plan, w, now.root)
    && now.ledger == Recorded(SCHEMA_VERSION, NextLedger(plan, Entries(w.ledger)))
  }

  /** Store outputs lie apart from the data directory. */
  predicate Apart(cfg: Config, source: string)
  {
    match StorePlace(source)
    case Some(p) => !(cfg.data <= p) && !(p <= cfg.data)
    case None => true
  }

  /** For a plain absolute store path: neither lies in the other. */
  lemma ApartExactly(cfg: Config, p: Path, slash: string)
    requires p != [] && slash == "/" && forall i :: 0 <= i < |p| ==> ValidName(p[i])
    ensures Apart(cfg, slash + Join(p)) <==> !(cfg.data <= p) && !(p <= cfg.data)
  {
    AbsolutePlace(p, slash);
  }

  /** Every store path a run may read is apart from the data directory. */
  predicate StoreOutside(cfg: Config, ps: seq<Package>, ledger: Ledger)
  {
    (forall i :: 0 <= i < |ps| ==> Apart(cfg, ps[i].storePath))
    && (forall k :: k in ledger ==> Apart(cfg, ledger[k].storePath))
  }

  /** The tree a target is copied from can be copied. */
  predicate SourceCopyable(plan: Plan, w: World, k: string)
    requires k in plan.present
  {
    var n := StoreNode(w.root, Source(plan, Entries(w.ledger), k));
    n.Some? && n.value.Dir? && Copyable(n.value, [])
  }

  predicate CopiesPossible(cfg: Config, plan: Plan, w: World)
  {
    forall k :: k in plan.present && NeedsCopy(cfg, plan, w, k) ==> SourceCopyable(plan, w, k)
  }

  /** What is wrong with the `i`-th package of a list: itself, or that its key was
      listed before. */
  function FaultAt(root: Node, ps: seq<Package>, i: nat): Option<Error>
    requires i < |ps|
  {
    if PackageFault(root, ps[i]).Some? then PackageFault(root, ps[i])
    else if exists j :: 0 <= j < i && KeyOf(ps[j]) == KeyOf(ps[i]) then Some(UnsafeId)
    else None
  }

  /** A package after good ones is at fault for itself, or as an unsafe id if its kind and
      id were listed before. */
  lemma FaultAtExactly(root: Node, ps: seq<Package>, i: nat)
    requires i < |ps| && forall j :: 0 <= j < i ==> PackageFault(root, ps[j]).None?
    ensures PackageFault(root, ps[i]).Some? ==> FaultAt(root, ps, i) == PackageFault(root, ps[i])
    ensures PackageFault(root, ps[i]).None? ==>
      FaultAt(root, ps, i) ==
      if exists j :: 0 <= j < i && ps[j].kind == ps[i].kind && ps[j].id == ps[i].id then Some(UnsafeId) else None
  {
    if PackageFault(root, ps[i]).None? {
      forall j | 0 <= j < i
        ensures KeyOf(ps[j]) == KeyOf(ps[i]) <==> ps[j].kind == ps[i].kind && ps[j].id == ps[i].id
      {
        SameKey(root, ps[j], ps[i]);
      }
    }
  }

  /** The state file can be read as a ledger of this program's schema. */
  predicate Readable(file: LedgerFile)
  {
    file.NoFile? || (file.Recorded? && file.schemaVersion == SCHEMA_VERSION)
  }

  /** Everything a run checks before it changes anything. */
  predicate Admissible(cfg: Config, desired: Manifest, w: World)
  {
    && desired.schemaVersion == SCHEMA_VERSION
    && Readable(w.ledger)
    && ManifestOk(w.root, desired.packages)
    && PreflightOk(cfg, PlanOf(desired.packages), w)
  }

  /** What a run checks, spelled out. */
  lemma AdmissibleExactly(cfg: Config, desired: Manifest, w: World)
    ensures Admissible(cfg, desired, w) <==>
      var ps, plan := desired.packages, PlanOf(desired.packages);
      && desired.schemaVersion == 1
      && (w.ledger == NoFile || (w.ledger.Recorded? && w.ledger.schemaVersion == 1))
      && (forall i :: 0 <= i < |ps| ==> PackageFault(w.root, ps[i]).None?)
      && (forall i, j :: 0 <= i < j < |ps| ==> ps[i].kind != ps[j].kind || ps[i].id != ps[j].id)
      && PreflightOk(cfg, plan, w)
  {
    ManifestOkExactly(w.root, desired.packages);
  }

  /** Each target is held against the recorded store path of its package, or the declared
      one if none is recorded. */
  lemma PreflightExactly(cfg: Config, plan: Plan, w: World)
    ensures PreflightOk(cfg, plan, w) <==>
      forall k :: k in plan.present ==>
        TargetFault(w.root, Target(cfg, plan.present[k].kind, plan.present[k].id),
                    if k in Entries(w.ledger) then Entries(w.ledger)[k].storePath else plan.present[k].storePath).None?
  {
  }

  lemma ManifestOkExactly(root: Node, ps: seq<Package>)
    ensures ManifestOk(root, ps) <==>
      && (forall i :: 0 <= i < |ps| ==> PackageFault(root, ps[i]).None?)
      && (forall i, j :: 0 <= i < j < |ps| ==> ps[i].kind != ps[j].kind || ps[i].id != ps[j].id)
  {
    if forall i :: 0 <= i < |ps| ==> PackageFault(root, ps[i]).None? { DistinctExactly(root, ps); }
  }

  lemma DistinctExactly(root: Node, ps: seq<Package>)
    requires forall i :: 0 <= i < |ps| ==> PackageFault(root, ps[i]).None?
    ensures Distinct(ps) <==>
      forall i, j :: 0 <= i < j < |ps| ==> ps[i].kind != ps[j].kind || ps[i].id != ps[j].id
  {
    forall i, j | 0 <= i < j < |ps|
      ensures KeyOf(ps[i]) != KeyOf(ps[j]) <==> ps[i].kind != ps[j].kind || ps[i].id != ps[j].id
    {
      assert PackageFault(root, ps[i]).None? && PackageFault(root, ps[j]).None?;
      SameKey(root, ps[i], ps[j]);
    }
    if forall i, j :: 0 <= i < j < |ps| ==> ps[i].kind != ps[j].kind || ps[i].id != ps[j].id {
      forall i, j | 0 <= i < j < |ps| ensures KeyOf(ps[i]) != KeyOf(ps[j]) {
        assert ps[i].kind != ps[j].kind || ps[i].id != ps[j].id;
      }
    }
    if Distinct(ps) {
      forall i, j | 0 <= i < j < |ps| ensures ps[i].kind != ps[j].kind || ps[i].id != ps[j].id {
        assert KeyOf(ps[i]) != KeyOf(ps[j]);
      }
    }
  }

  lemma SameKey(root: Node, p: Package, q: Package)
    requires PackageFault(root, p).None? && PackageFault(root, q).None?
    ensures KeyOf(p) == KeyOf(q) <==> p.kind == q.kind && p.id == q.id
  {
    if KeyOf(p) == KeyOf(q) { KeyInjective(p.kind, p.id, q.kind, q.id); }
  }
}
