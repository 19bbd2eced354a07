/** How far a run has come, and what each kind of step does to that. */
module Progress {
  import opened Wrappers
  import opened Paths
  import opened Trees
  import opened Packages
  import opened Temps
  import opened Disks

  /** What a declared target holds once the packages in `done` are finished and
      the link at `lost`, if any, has been moved away. */
  function Expect(cfg: Config, plan: Plan, w: World, done: set<string>, lost: Option<string>, k: string): Option<Node>
    requires k in plan.present
  {
    if k in done then After(cfg, plan, w, k)
    else if lost == Some(k) then None
    else Before(cfg, plan, w, k)
  }

  /** A run of `plan` begun at `w` has finished `done`. */
  ghost predicate SoFar(cfg: Config, plan: Plan, w: World, done: set<string>, lost: Option<string>, now: World)
  {
    && WellKeyed(plan)
    && Kept(cfg, plan, w.root, now.root)
    && DirsKept(cfg, w.root, now.root)
    && now.ledger == w.ledger
    && done <= plan.present.Keys
    && (lost.Some? ==>
          lost.value in plan.present
          && OwnLink(Before(cfg, plan, w, lost.value), Source(plan, Entries(w.ledger), lost.value)))
    && forall k :: k in plan.present ==>
         Get(now.root, TargetOf(cfg, plan, k)) == Expect(cfg, plan, w, done, lost, k)
  }

  /** Every step since `past` is one a stopped run may be found at. */
  ghost predicate StepsMidRun(cfg: Config, plan: Plan, w: World, past: seq<World>, h: seq<World>)
  {
    |past| <= |h| && h[..|past|] == past
    && forall i :: |past| <= i < |h| ==> MidRun(cfg, plan, w, h[i])
  }

  lemma StepsJoin(cfg: Config, plan: Plan, w: World, past: seq<World>, mid: seq<World>, h: seq<World>)
    requires StepsMidRun(cfg, plan, w, past, mid) && StepsMidRun(cfg, plan, w, mid, h)
    ensures StepsMidRun(cfg, plan, w, past, h)
  {
    assert h[..|past|] == h[..|mid|][..|past|];
    forall i | |past| <= i < |h| ensures MidRun(cfg, plan, w, h[i]) {
      if i < |mid| { assert h[i] == h[..|mid|][i]; }
    }
  }

  lemma StepsOne(cfg: Config, plan: Plan, w: World, past: seq<World>, now: World)
    requires MidRun(cfg, plan, w, now)
    ensures StepsMidRun(cfg, plan, w, past, past + [now])
  {
  }

  lemma SoFarIsMidRun(cfg: Config, plan: Plan, w: World, done: set<string>, lost: Option<string>, now: World)
    requires SoFar(cfg, plan, w, done, lost, now)
    ensures MidRun(cfg, plan, w, now)
  {
  }

  lemma StartsSoFar(cfg: Config, plan: Plan, w: World)
    requires WellKeyed(plan)
    ensures SoFar(cfg, plan, w, {}, None, w)
  {
  }

  // ------------------------------------------------------------ changes at one place

  /** The two trees differ only at and below `p`. */
  ghost predicate SlotOnly(before: Node, now: Node, p: Path)
  {
    forall q: Path {:trigger Get(now, q)} {:trigger Get(before, q)} ::
      && (!(p <= q) && !(q <= p) ==> Get(now, q) == Get(before, q))
      && (q < p ==> SameDir(Get(before, q), Get(now, q)))
  }

  lemma PutSlot(t: Node, p: Path, n: Node)
    requires HasParent(t, p)
    ensures SlotOnly(t, Put(t, p, n), p)
    ensures Get(Put(t, p, n), p) == Some(n)
  {
    forall q: Path
      ensures !(p <= q) && !(q <= p) ==> Get(Put(t, p, n), q) == Get(t, q)
      ensures q < p ==> SameDir(Get(t, q), Get(Put(t, p, n), q))
    {
      GetPut(t, p, n, q);
    }
    AfterPutThere(t, p, n);
  }

  lemma DelSlot(t: Node, p: Path)
    requires HasParent(t, p)
    ensures SlotOnly(t, Del(t, p), p)
    ensures Get(Del(t, p), p).None?
  {
    forall q: Path
      ensures !(p <= q) && !(q <= p) ==> Get(Del(t, p), q) == Get(t, q)
      ensures q < p ==> SameDir(Get(t, q), Get(Del(t, p), q))
    {
      GetDel(t, p, q);
    }
    GetDel(t, p, p);
  }

  /** A place in an area has a parent as long as the area is a directory. */
  lemma SlotParent(cfg: Config, t: Node, kind: string, name: string)
    ensures HasParent(t, Area(cfg, kind) + [name]) <==> IsDir(t, Area(cfg, kind))
  {
    var p := Area(cfg, kind) + [name];
    assert p[..|p| - 1] == Area(cfg, kind);
  }

  lemma SlotFacts(cfg: Config, kind: string, name: string, q: Path)
    requires ValidKind(kind)
    ensures var p := Area(cfg, kind) + [name];
      && (p <= q ==> InArea(cfg, q) && KeyAt(cfg, q) == Key(kind, name) && q[|cfg.data| + 2] == name
                     && !AboveAreas(cfg, q))
      && (q < p ==> AboveAreas(cfg, q))
  {
    var a := Area(cfg, kind);
    var p := a + [name];
    assert Area(cfg, "module")[|cfg.data| + 1] == "modules";
    assert Area(cfg, "system")[|cfg.data| + 1] == "systems";
    assert |"modules"| == 7 && "modules"[0] == 'm' && "systems"[0] == 's';
    if p <= q {
      assert q[..|cfg.data| + 2] == p[..|cfg.data| + 2] == a;
      assert q[|cfg.data| + 2] == p[|cfg.data| + 2];
    }
    if q < p {
      assert q == p[..|q|] == a[..|q|];
    }
  }

  /** An area's own path, and what lies under its targets, by their keys. */
  lemma TargetFacts(cfg: Config, plan: Plan, k: string, q: Path)
    requires WellKeyed(plan) && k in plan.present
    ensures TargetOf(cfg, plan, k) <= q ==> UnderTarget(cfg, plan, q) && KeyAt(cfg, q) == k
    ensures q < TargetOf(cfg, plan, k) ==> AboveAreas(cfg, q)
  {
    var pkg := plan.present[k];
    SlotFacts(cfg, pkg.kind, pkg.id, q);
  }

  /** The same key is needed for one of two slots to lie on the way of the other. */
  lemma SlotsApart(cfg: Config, plan: Plan, k: string, kind: string, name: string)
    requires WellKeyed(plan) && k in plan.present && ValidKind(kind) && Key(kind, name) != k
    ensures var p, t := Area(cfg, kind) + [name], TargetOf(cfg, plan, k); !(p <= t) && !(t <= p)
  {
    var p, t := Area(cfg, kind) + [name], TargetOf(cfg, plan, k);
    assert |p| == |t|;
    if p == t { TargetsApart(cfg, kind, name, plan.present[k].kind, plan.present[k].id); }
  }

  lemma DirKeptThenSame(cfg: Config, a: Option<Node>, b: Option<Node>, c: Option<Node>)
    requires DirKept(cfg, a, b) && SameDir(b, c)
    ensures DirKept(cfg, a, c)
  {
  }

  /** A change in one slot leaves the directories above as they should be. */
  lemma SlotDirs(cfg: Config, before: Node, now: Node, kind: string, name: string, next: Node)
    requires ValidKind(kind) && DirsKept(cfg, before, now)
    requires SlotOnly(now, next, Area(cfg, kind) + [name])
    ensures DirsKept(cfg, before, next)
  {
    var p := Area(cfg, kind) + [name];
    forall q: Path | AboveAreas(cfg, q) ensures DirKept(cfg, Get(before, q), Get(next, q)) {
      SlotFacts(cfg, kind, name, q);
      if q < p { DirKeptThenSame(cfg, Get(before, q), Get(now, q), Get(next, q)); }
      else { assert Get(next, q) == Get(now, q); }
    }
  }

  /** A change under a temporary name that was free touches nothing of the user's. */
  lemma TempKept(cfg: Config, plan: Plan, before: Node, now: Node, kind: string, name: string, next: Node)
    requires ValidKind(kind) && TempName(name) && Kept(cfg, plan, before, now)
    requires Get(before, Area(cfg, kind) + [name]).None?
    requires SlotOnly(now, next, Area(cfg, kind) + [name])
    ensures Kept(cfg, plan, before, next)
  {
    var p := Area(cfg, kind) + [name];
    forall q: Path | !AboveAreas(cfg, q) && !UnderTarget(cfg, plan, q)
      ensures Get(before, q).Some? ==> Get(next, q) == Get(before, q)
      ensures Get(next, q).Some? ==> Get(before, q).Some? || UnderTemp(cfg, q)
    {
      SlotFacts(cfg, kind, name, q);
      if p <= q {
        assert q == p + q[|p|..];
        GetAppend(before, p, q[|p|..]);
      } else {
        assert Get(next, q) == Get(now, q);
      }
    }
  }

  /** A change under a fresh temporary name. */
  lemma TempStep(cfg: Config, plan: Plan, w: World, done: set<string>, lost: Option<string>, now: World,
                 kind: string, name: string, next: Node)
    requires SoFar(cfg, plan, w, done, lost, now)
    requires ValidKind(kind) && TempName(name) && Key(kind, name) !in plan.present
    requires Get(w.root, Area(cfg, kind) + [name]).None?
    requires SlotOnly(now.root, next, Area(cfg, kind) + [name])
    ensures SoFar(cfg, plan, w, done, lost, World(next, now.ledger))
  {
    TempKept(cfg, plan, w.root, now.root, kind, name, next);
    SlotDirs(cfg, w.root, now.root, kind, name, next);
    forall k | k in plan.present
      ensures Get(next, TargetOf(cfg, plan, k)) == Expect(cfg, plan, w, done, lost, k)
    {
      SlotsApart(cfg, plan, k, kind, name);
      assert Get(next, TargetOf(cfg, plan, k)) == Get(now.root, TargetOf(cfg, plan, k));
    }
  }

  /** A change at a declared target touches nothing that is to be kept. */
  lemma TargetKept(cfg: Config, plan: Plan, before: Node, now: Node, k: string, next: Node)
    requires WellKeyed(plan) && k in plan.present && Kept(cfg, plan, before, now)
    requires SlotOnly(now, next, TargetOf(cfg, plan, k))
    ensures Kept(cfg, plan, before, next)
  {
    forall q: Path | !AboveAreas(cfg, q) && !UnderTarget(cfg, plan, q) ensures Get(next, q) == Get(now, q) {
      TargetFacts(cfg, plan, k, q);
    }
  }

  /** A change at the target of `k`, to what is expected next. */
  lemma TargetStep(cfg: Config, plan: Plan, w: World, done: set<string>, lost: Option<string>, now: World,
                   k: string, next: Node, done': set<string>, lost': Option<string>)
    requires SoFar(cfg, plan, w, done, lost, now) && k in plan.present
    requires SlotOnly(now.root, next, TargetOf(cfg, plan, k))
    requires Get(next, TargetOf(cfg, plan, k)) == Expect(cfg, plan, w, done', lost', k)
    requires done' - {k} == done - {k}
    requires lost in {None, Some(k)} && lost' in {None, Some(k)}
    requires lost'.Some? ==> OwnLink(Before(cfg, plan, w, k), Source(plan, Entries(w.ledger), k))
    ensures SoFar(cfg, plan, w, done', lost', World(next, now.ledger))
  {
    var pkg := plan.present[k];
    TargetKept(cfg, plan, w.root, now.root, k, next);
    SlotDirs(cfg, w.root, now.root, pkg.kind, pkg.id, next);
    forall j | j in plan.present
      ensures Get(next, TargetOf(cfg, plan, j)) == Expect(cfg, plan, w, done', lost', j)
    {
      if j != k {
        SlotsApart(cfg, plan, j, pkg.kind, pkg.id);
        assert Get(next, TargetOf(cfg, plan, j)) == Get(now.root, TargetOf(cfg, plan, j));
        assert j in done' <==> j in done' - {k};
        assert j in done <==> j in done - {k};
      }
    }
    assert done' <= plan.present.Keys by {
      forall j | j in done' ensures j in plan.present { if j != k { assert j in done' - {k}; } }
    }
  }

  /** Creating a missing directory above the areas. */
  lemma MkdirStep(cfg: Config, plan: Plan, w: World, done: set<string>, lost: Option<string>, now: World, p: Path)
    requires SoFar(cfg, plan, w, done, lost, now)
    requires AboveAreas(cfg, p) && HasParent(now.root, p) && Get(now.root, p).None?
    ensures SoFar(cfg, plan, w, done, lost, World(Put(now.root, p, Dir(cfg.dirMode, map[])), now.ledger))
  {
    var next := Put(now.root, p, Dir(cfg.dirMode, map[]));
    PutSlot(now.root, p, Dir(cfg.dirMode, map[]));
    forall q: Path | p < q ensures Get(now.root, q).None? && Get(next, q).None? {
      assert q == p + q[|p|..];
      GetAppend(now.root, p, q[|p|..]);
      GetAppend(next, p, q[|p|..]);
    }
    forall q: Path | !AboveAreas(cfg, q) ensures Get(next, q) == Get(now.root, q) {
      if p <= q { assert p < q; }
      if q <= p { AbovePrefix(cfg, q, p); }
    }
    forall q: Path | AboveAreas(cfg, q) ensures DirKept(cfg, Get(w.root, q), Get(next, q)) {
      if q < p { DirKeptThenSame(cfg, Get(w.root, q), Get(now.root, q), Get(next, q)); }
      else if q == p { assert DirKept(cfg, Get(w.root, q), Get(now.root, q)); }
      else if p <= q { assert p < q; assert DirKept(cfg, Get(w.root, q), Get(now.root, q)); }
      else { assert Get(next, q) == Get(now.root, q); }
    }
    forall k | k in plan.present
      ensures Get(next, TargetOf(cfg, plan, k)) == Get(now.root, TargetOf(cfg, plan, k))
    {
      var pkg := plan.present[k];
      SlotFacts(cfg, pkg.kind, pkg.id, TargetOf(cfg, plan, k));
    }
  }

  lemma AbovePrefix(cfg: Config, q: Path, p: Path)
    requires q <= p && AboveAreas(cfg, p)
    ensures AboveAreas(cfg, q)
  {
    if p <= Area(cfg, "module") { assert q == p[..|q|] == Area(cfg, "module")[..|q|]; }
    if p <= Area(cfg, "system") { assert q == p[..|q|] == Area(cfg, "system")[..|q|]; }
  }

  // ---------------------------------------------------------------- what stays put

  /** A place apart from the data directory is outside everything a run touches. */
  lemma ApartIsKept(cfg: Config, plan: Plan, w: World, done: set<string>, lost: Option<string>, now: World, source: string)
    requires SoFar(cfg, plan, w, done, lost, now)
    requires Apart(cfg, source) && StoreNode(w.root, source).Some?
    ensures StoreNode(now.root, source) == StoreNode(w.root, source)
  {
    var p := StorePlace(source).value;
    ApartPlace(cfg, plan, p);
    assert Get(w.root, p).Some?;
  }

  lemma ApartPlace(cfg: Config, plan: Plan, p: Path)
    requires !(cfg.data <= p) && !(p <= cfg.data)
    ensures !AboveAreas(cfg, p) && !UnderTarget(cfg, plan, p)
  {
    PrefixesOfOne(p, cfg.data, Area(cfg, "module"));
    PrefixesOfOne(p, cfg.data, Area(cfg, "system"));
    if InArea(cfg, p) {
      PrefixOfPrefix(cfg.data, p, |cfg.data| + 2);
    }
  }

  /** Two prefixes of one path are prefixes of one another. */
  lemma PrefixesOfOne(p: Path, q: Path, whole: Path)
    ensures p <= whole && q <= whole ==> p <= q || q <= p
  {
    if p <= whole && q <= whole {
      assert p == whole[..|p|] && q == whole[..|q|];
    }
  }

  lemma PrefixTransitive(p: Path, q: Path, r: Path)
    ensures p <= q && q <= r ==> p <= r
  {
  }

  lemma PrefixOfPrefix(p: Path, whole: Path, n: nat)
    requires n <= |whole|
    ensures p <= whole[..n] ==> p <= whole
  {
  }

  /** A place apart from the data directory is apart from every temporary one. */
  lemma ApartFromSlot(cfg: Config, kind: string, name: string, p: Path)
    requires !(cfg.data <= p) && !(p <= cfg.data)
    ensures var t := Area(cfg, kind) + [name]; !(t <= p) && !(p <= t)
  {
    var t := Area(cfg, kind) + [name];
    assert cfg.data <= t;
    PrefixesOfOne(p, cfg.data, t);
    PrefixTransitive(cfg.data, t, p);
  }

  /** A name that is free now, is no declared id and looks temporary was free when
      the run began. */
  lemma FreshWasFree(cfg: Config, plan: Plan, w: World, done: set<string>, lost: Option<string>, now: World,
                     kind: string, name: string)
    requires SoFar(cfg, plan, w, done, lost, now)
    requires ValidKind(kind) && Key(kind, name) !in plan.present
    requires Get(now.root, Area(cfg, kind) + [name]).None?
    ensures Get(w.root, Area(cfg, kind) + [name]).None?
  {
    var p := Area(cfg, kind) + [name];
    SlotFacts(cfg, kind, name, p);
    assert KeyAt(cfg, p) == Key(kind, name);
  }

  /** Steps that write only under a fresh temporary name leave the run where it was. */
  lemma TempSteps(cfg: Config, plan: Plan, w: World, done: set<string>, lost: Option<string>, now: World,
                  kind: string, name: string, past: seq<World>, h: seq<World>)
    requires SoFar(cfg, plan, w, done, lost, now)
    requires ValidKind(kind) && TempName(name) && Key(kind, name) !in plan.present
    requires Get(w.root, Area(cfg, kind) + [name]).None?
    requires HasParent(now.root, Area(cfg, kind) + [name])
    requires StepsOnlyAt(past, h, now.root, now.ledger, Area(cfg, kind) + [name])
    ensures StepsMidRun(cfg, plan, w, past, h)
  {
    forall i | |past| <= i < |h| ensures MidRun(cfg, plan, w, h[i]) {
      OnlyAtTemp(cfg, plan, w, done, lost, now, kind, name, h[i].root);
      SoFarIsMidRun(cfg, plan, w, done, lost, h[i]);
    }
  }

  lemma OnlyAtTemp(cfg: Config, plan: Plan, w: World, done: set<string>, lost: Option<string>, now: World,
                   kind: string, name: string, next: Node)
    requires SoFar(cfg, plan, w, done, lost, now)
    requires ValidKind(kind) && TempName(name) && Key(kind, name) !in plan.present
    requires Get(w.root, Area(cfg, kind) + [name]).None?
    requires HasParent(now.root, Area(cfg, kind) + [name])
    requires OnlyAt(now.root, Area(cfg, kind) + [name], next)
    ensures SoFar(cfg, plan, w, done, lost, World(next, now.ledger))
    ensures IsDir(next, Area(cfg, kind))
  {
    var p := Area(cfg, kind) + [name];
    SlotParent(cfg, now.root, kind, name);
    if next != now.root {
      var n :| next == Put(now.root, p, n);
      PutSlot(now.root, p, n);
      TempStep(cfg, plan, w, done, lost, now, kind, name, next);
      assert SameDir(Get(now.root, Area(cfg, kind)), Get(next, Area(cfg, kind)));
    }
  }

  /** A temporary entry is removed. */
  lemma TempGone(cfg: Config, plan: Plan, w: World, done: set<string>, lost: Option<string>, now: World,
                 kind: string, name: string)
    requires SoFar(cfg, plan, w, done, lost, now)
    requires ValidKind(kind) && TempName(name) && Key(kind, name) !in plan.present
    requires Get(w.root, Area(cfg, kind) + [name]).None?
    requires HasParent(now.root, Area(cfg, kind) + [name])
    ensures SoFar(cfg, plan, w, done, lost, World(Del(now.root, Area(cfg, kind) + [name]), now.ledger))
    ensures IsDir(Del(now.root, Area(cfg, kind) + [name]), Area(cfg, kind))
  {
    var p := Area(cfg, kind) + [name];
    DelSlot(now.root, p);
    SlotParent(cfg, now.root, kind, name);
    assert SameDir(Get(now.root, Area(cfg, kind)), Get(Del(now.root, p), Area(cfg, kind)));
    TempStep(cfg, plan, w, done, lost, now, kind, name, Del(now.root, p));
  }

  /** The steps of removing a temporary entry, successful or not. */
  lemma RemovedTemp(cfg: Config, plan: Plan, w: World, done: set<string>, lost: Option<string>, was: World,
                    kind: string, name: string, past: seq<World>, h: seq<World>, gone: bool, next: Node)
    requires SoFar(cfg, plan, w, done, lost, was)
    requires ValidKind(kind) && TempName(name) && Key(kind, name) !in plan.present
    requires Get(w.root, Area(cfg, kind) + [name]).None?
    requires HasParent(was.root, Area(cfg, kind) + [name])
    requires gone ==> next == Del(was.root, Area(cfg, kind) + [name])
    requires !gone ==> OnlyAt(was.root, Area(cfg, kind) + [name], next)
    requires |h| == |past| + 2 && h[..|past|] == past
    requires h[|past|].ledger == was.ledger && OnlyAt(was.root, Area(cfg, kind) + [name], h[|past|].root)
    requires h[|past| + 1] == World(next, was.ledger)
    ensures SoFar(cfg, plan, w, done, lost, World(next, was.ledger))
    ensures StepsMidRun(cfg, plan, w, past, h)
    ensures IsDir(next, Area(cfg, kind))
  {
    if gone {
      TempGone(cfg, plan, w, done, lost, was, kind, name);
    } else {
      OnlyAtTemp(cfg, plan, w, done, lost, was, kind, name, next);
    }
    assert MidRun(cfg, plan, w, h[|past|]) by {
      OnlyAtTemp(cfg, plan, w, done, lost, was, kind, name, h[|past|].root);
      SoFarIsMidRun(cfg, plan, w, done, lost, h[|past|]);
    }
    assert MidRun(cfg, plan, w, h[|past| + 1]) by {
      SoFarIsMidRun(cfg, plan, w, done, lost, h[|past| + 1]);
    }
    StepsTwo(cfg, plan, w, past, h);
  }

  lemma StepsTwo(cfg: Config, plan: Plan, w: World, past: seq<World>, h: seq<World>)
    requires |h| == |past| + 2 && h[..|past|] == past
    requires MidRun(cfg, plan, w, h[|past|]) && MidRun(cfg, plan, w, h[|past| + 1])
    ensures StepsMidRun(cfg, plan, w, past, h)
  {
  }

  // ----------------------------------------------------------------------- renames

  /** A rename inside one area, seen as a removal and a write. */
  lemma MoveFacts(cfg: Config, t: Node, kind: string, from: string, to: string)
    requires IsDir(t, Area(cfg, kind)) && from != to
    requires Get(t, Area(cfg, kind) + [from]).Some?
    ensures var p, q := Area(cfg, kind) + [from], Area(cfg, kind) + [to];
      var n, mid := Get(t, p).value, Del(t, p);
      var next := Put(mid, q, n);
      && SlotOnly(t, mid, p) && Get(mid, p).None?
      && SlotOnly(mid, next, q) && Get(next, q) == Some(n) && Get(next, p).None?
      && IsDir(next, Area(cfg, kind))
  {
    var p, q := Area(cfg, kind) + [from], Area(cfg, kind) + [to];
    var n, mid := Get(t, p).value, Del(t, p);
    SlotParent(cfg, t, kind, from);
    DelSlot(t, p);
    assert SameDir(Get(t, Area(cfg, kind)), Get(mid, Area(cfg, kind)));
    SlotParent(cfg, mid, kind, to);
    PutSlot(mid, q, n);
    assert SameDir(Get(mid, Area(cfg, kind)), Get(Put(mid, q, n), Area(cfg, kind)));
    assert p[|p| - 1] == from && q[|q| - 1] == to;
    assert !(p <= q) && !(q <= p);
  }

  /** The link to the store is moved aside. */
  lemma DisplaceStep(cfg: Config, plan: Plan, w: World, done: set<string>, now: World, k: string, aside: string)
    requires SoFar(cfg, plan, w, done, None, now) && k in plan.present && k !in done
    requires OwnLink(Before(cfg, plan, w, k), Source(plan, Entries(w.ledger), k))
    requires var kind := plan.present[k].kind;
      TempName(aside) && Key(kind, aside) !in plan.present && Get(w.root, Area(cfg, kind) + [aside]).None?
      && IsDir(now.root, Area(cfg, kind))
    ensures var pkg := plan.present[k];
      var next := Put(Del(now.root, TargetOf(cfg, plan, k)), Area(cfg, pkg.kind) + [aside], Get(now.root, TargetOf(cfg, plan, k)).value);
      SoFar(cfg, plan, w, done, Some(k), World(next, now.ledger)) && IsDir(next, Area(cfg, pkg.kind))
      && Get(next, Area(cfg, pkg.kind) + [aside]) == Before(cfg, plan, w, k)
  {
    var pkg := plan.present[k];
    MoveFacts(cfg, now.root, pkg.kind, pkg.id, aside);
    var mid := Del(now.root, TargetOf(cfg, plan, k));
    TargetStep(cfg, plan, w, done, None, now, k, mid, done, Some(k));
    TempStep(cfg, plan, w, done, Some(k), World(mid, now.ledger), pkg.kind, aside,
             Put(mid, Area(cfg, pkg.kind) + [aside], Get(now.root, TargetOf(cfg, plan, k)).value));
  }

  /** What lies under a temporary name is renamed to the free target: the finished
      copy, or the link that was moved aside. */
  lemma InstallStep(cfg: Config, plan: Plan, w: World, done: set<string>, lost: Option<string>, now: World,
                    k: string, temp: string, done': set<string>)
    requires SoFar(cfg, plan, w, done, lost, now) && k in plan.present && k !in done
    requires lost in {None, Some(k)}
    requires done' in {done, done + {k}}
    requires var kind := plan.present[k].kind;
      TempName(temp) && Key(kind, temp) !in plan.present && Get(w.root, Area(cfg, kind) + [temp]).None?
      && IsDir(now.root, Area(cfg, kind))
      && Get(now.root, Area(cfg, kind) + [temp]).Some?
      && Get(now.root, Area(cfg, kind) + [temp]) == Expect(cfg, plan, w, done', None, k)
    ensures var pkg := plan.present[k];
      var next := Put(Del(now.root, Area(cfg, pkg.kind) + [temp]), TargetOf(cfg, plan, k), Get(now.root, Area(cfg, pkg.kind) + [temp]).value);
      SoFar(cfg, plan, w, done', None, World(next, now.ledger)) && IsDir(next, Area(cfg, pkg.kind))
  {
    var pkg := plan.present[k];
    MoveFacts(cfg, now.root, pkg.kind, temp, pkg.id);
    var mid := Del(now.root, Area(cfg, pkg.kind) + [temp]);
    TempStep(cfg, plan, w, done, lost, now, pkg.kind, temp, mid);
    TargetStep(cfg, plan, w, done, lost, World(mid, now.ledger), k,
               Put(mid, TargetOf(cfg, plan, k), Get(now.root, Area(cfg, pkg.kind) + [temp]).value), done', None);
  }

  /** A package that needs no copy is finished as it stands. */
  lemma NothingToDo(cfg: Config, plan: Plan, w: World, done: set<string>, now: World, k: string)
    requires SoFar(cfg, plan, w, done, None, now) && k in plan.present
    requires !NeedsCopy(cfg, plan, w, k)
    ensures SoFar(cfg, plan, w, done + {k}, None, now)
  {
  }

  // ------------------------------------------------------------------------- lstat

  /** Nothing on the way to `p` is in the way: each prefix is a directory or missing. */
  ghost predicate ClearWay(t: Node, p: Path)
  {
    forall i :: 0 <= i <= |p| ==> Get(t, p[..i]).None? || Get(t, p[..i]).value.Dir?
  }

  lemma {:induction false} LstatMeans(t: Node, p: Path)
    ensures forall n :: Lstat(t, p) == Found(n) <==> Get(t, p) == Some(n)
    ensures p != [] ==> (Lstat(t, p).NotFound? <==> Get(t, p).None? && ClearWay(t, p[..|p| - 1]))
    decreases p
  {
    if p != [] {
      var up := p[..|p| - 1];
      if t.Dir? && p[0] in t.entries {
        var c := t.entries[p[0]];
        LstatMeans(c, p[1..]);
        if |p| > 1 {
          assert up[1..] == p[1..][..|p[1..]| - 1];
          forall i | 1 <= i <= |up| ensures Get(t, up[..i]) == Get(c, up[1..][..i - 1]) {
            assert up[..i][1..] == up[1..][..i - 1];
          }
          if ClearWay(c, up[1..]) {
            forall i | 0 <= i <= |up| ensures Get(t, up[..i]).None? || Get(t, up[..i]).value.Dir? {
              if i > 0 { assert Get(t, up[..i]) == Get(c, up[1..][..i - 1]); }
            }
          }
          if ClearWay(t, up) {
            forall j | 0 <= j <= |up[1..]| ensures Get(c, up[1..][..j]).None? || Get(c, up[1..][..j]).value.Dir? {
              assert Get(t, up[..j + 1]) == Get(c, up[1..][..j]);
            }
          }
        }
      } else {
        assert up[..0] == [];
        assert ClearWay(t, up) ==> t.Dir?;
        if t.Dir? {
          forall i | 0 <= i <= |up| ensures Get(t, up[..i]).None? || Get(t, up[..i]).value.Dir? {
            if i > 0 { assert up[..i][0] == p[0]; }
          }
        }
      }
    }
  }

  /** The way to a target stays clear while a run goes on. */
  lemma ClearWayKept(cfg: Config, before: Node, now: Node, kind: string)
    requires DirsKept(cfg, before, now) && ValidKind(kind)
    requires ClearWay(before, Area(cfg, kind))
    ensures ClearWay(now, Area(cfg, kind))
  {
    var a := Area(cfg, kind);
    forall i | 0 <= i <= |a| ensures Get(now, a[..i]).None? || Get(now, a[..i]).value.Dir? {
      assert AboveAreas(cfg, a[..i]);
      assert DirKept(cfg, Get(before, a[..i]), Get(now, a[..i]));
    }
  }

  /** A target that is out of reach now was out of reach when the run began. */
  lemma BlockedWasBlocked(cfg: Config, plan: Plan, w: World, done: set<string>, now: World, k: string)
    requires SoFar(cfg, plan, w, done, None, now) && k in plan.present && k !in done
    ensures Lstat(now.root, TargetOf(cfg, plan, k)).Failed? ==> Lstat(w.root, TargetOf(cfg, plan, k)).Failed?
  {
    var p := TargetOf(cfg, plan, k);
    LstatMeans(now.root, p);
    LstatMeans(w.root, p);
    assert p[..|p| - 1] == Area(cfg, plan.present[k].kind);
    if ClearWay(w.root, Area(cfg, plan.present[k].kind)) {
      ClearWayKept(cfg, w.root, now.root, plan.present[k].kind);
    }
  }
}
