/** What runs promise about user data, and what a stopped run leaves for the next. */
module Convergence {
  import opened Wrappers
  import opened Paths
  import opened Trees
  import opened Packages
  import opened Temps
  import opened Disks
  import opened Progress

  // ------------------------------------------------------------------- user data

  /** Whenever a run stops, an existing node away from the directories above the
      areas is different only if it is the very link to its own store output, and
      whatever is new lies at a declared target or under a temporary name. */
  lemma UserDataPreserved(cfg: Config, plan: Plan, w: World, now: World, q: Path)
    requires WellKeyed(plan) && MidRun(cfg, plan, w, now)
    requires !AboveAreas(cfg, q)
    ensures Get(w.root, q).Some? && Get(now.root, q) != Get(w.root, q) ==>
      exists k :: k in plan.present && q == TargetOf(cfg, plan, k)
        && OwnLink(Before(cfg, plan, w, k), Source(plan, Entries(w.ledger), k))
    ensures Get(w.root, q).Some? && Get(now.root, q) != Get(w.root, q) ==>
      && Get(w.root, q).value.Link?
      && exists k ::
        && k in plan.present && q == TargetOf(cfg, plan, k)
        && StorePlace(Get(w.root, q).value.target) == StorePlace(Source(plan, Entries(w.ledger), k))
    ensures Get(w.root, q).None? && Get(now.root, q).Some? ==>
      UnderTemp(cfg, q)
      || exists k :: k in plan.present && TargetOf(cfg, plan, k) <= q && NeedsCopy(cfg, plan, w, k)
  {
    if UnderTarget(cfg, plan, q) && Get(now.root, q) != Get(w.root, q) {
      var k := KeyAt(cfg, q);
      var t := TargetOf(cfg, plan, k);
      UnderItsTarget(cfg, plan, q);
      assert q == t + q[|t|..];
      GetAppend(w.root, t, q[|t|..]);
      GetAppend(now.root, t, q[|t|..]);
      assert TargetMidway(cfg, plan, w, k, Get(now.root, t));
      assert Get(now.root, t) != Get(w.root, t);
      assert NeedsCopy(cfg, plan, w, k);
      if Get(w.root, q).Some? {
        assert q[|t|..] == [];
        assert q == t;
        OwnLinkMeans(Before(cfg, plan, w, k), Source(plan, Entries(w.ledger), k));
      }
    }
  }

  /** The recorded store path of a package, or the declared one if none is recorded. */
  function StoreOf(ledger: Ledger, p: Package): string
  {
    if p.kind + "/" + p.id in ledger then ledger[p.kind + "/" + p.id].storePath else p.storePath
  }

  /** The link at `q` is the link to the store directory of a package that is to be present
      and whose target is `q`. */
  ghost predicate LinkToStoreOf(cfg: Config, w: World, q: Path, p: Package)
  {
    && p.state == "present"
    && q == cfg.data + ["Data", if p.kind == "module" then "modules" else "systems", p.id]
    && Get(w.root, q).Some? && Get(w.root, q).value.Link?
    && var text, source := Get(w.root, q).value.target, StoreOf(Entries(w.ledger), p);
       Components(text) == Components(source) && StorePlace(text) == StorePlace(source)
       && StorePlace(source).Some? && IsDir(w.root, StorePlace(source).value)
  }

  /** The promise in terms of the manifest itself. Whenever a run of an accepted manifest
      stops, a node outside the directories above the areas has changed only if it was the
      link, at the target of a package wanted present, to that package's store directory;
      and new nodes lie only under temporary names, or at or below a target that was such a
      link, or was missing and unrecorded. */
  lemma OnlyOwnLinksChange(cfg: Config, desired: Manifest, w: World, now: World, q: Path)
    requires Admissible(cfg, desired, w) && MidRun(cfg, PlanOf(desired.packages), w, now)
    requires !(q <= cfg.data + ["Data", "modules"]) && !(q <= cfg.data + ["Data", "systems"])
    ensures Get(w.root, q).Some? && Get(now.root, q) != Get(w.root, q) ==>
      exists p :: p in desired.packages && LinkToStoreOf(cfg, w, q, p)
    ensures Get(w.root, q).None? && Get(now.root, q).Some? ==>
      (|q| > |cfg.data| + 2 && ".tmp" <= q[|cfg.data| + 2])
      || exists p :: p in desired.packages && p.state == "present" && Filled(cfg, w, q, p)
  {
    assert !AboveAreas(cfg, q);
    if Get(w.root, q).Some? && Get(now.root, q) != Get(w.root, q) {
      ChangedLink(cfg, desired, w, now, q);
    }
    if Get(w.root, q).None? && Get(now.root, q).Some? {
      FilledTarget(cfg, desired, w, now, q);
    }
  }

  lemma ChangedLink(cfg: Config, desired: Manifest, w: World, now: World, q: Path)
    requires Admissible(cfg, desired, w) && MidRun(cfg, PlanOf(desired.packages), w, now) && !AboveAreas(cfg, q)
    requires Get(w.root, q).Some? && Get(now.root, q) != Get(w.root, q)
    ensures exists p :: p in desired.packages && LinkToStoreOf(cfg, w, q, p)
  {
    var plan := PlanOf(desired.packages);
    AcceptedPlan(w.root, desired.packages);
    UserDataPreserved(cfg, plan, w, now, q);
    var k :| k in plan.present && q == TargetOf(cfg, plan, k)
      && OwnLink(Before(cfg, plan, w, k), Source(plan, Entries(w.ledger), k));
    PackageOfKey(cfg, desired, w, k);
    assert LinkToStoreOf(cfg, w, q, plan.present[k]);
  }

  lemma FilledTarget(cfg: Config, desired: Manifest, w: World, now: World, q: Path)
    requires Admissible(cfg, desired, w) && MidRun(cfg, PlanOf(desired.packages), w, now) && !AboveAreas(cfg, q)
    requires Get(w.root, q).None? && Get(now.root, q).Some?
    ensures (|q| > |cfg.data| + 2 && ".tmp" <= q[|cfg.data| + 2])
      || exists p :: p in desired.packages && p.state == "present" && Filled(cfg, w, q, p)
  {
    var plan := PlanOf(desired.packages);
    AcceptedPlan(w.root, desired.packages);
    UserDataPreserved(cfg, plan, w, now, q);
    if !UnderTemp(cfg, q) {
      var k :| k in plan.present && TargetOf(cfg, plan, k) <= q && NeedsCopy(cfg, plan, w, k);
      PackageOfKey(cfg, desired, w, k);
      assert Filled(cfg, w, q, plan.present[k]);
    }
  }

  /** The package's target is at or above `q`, and was the own link, or missing and
      unrecorded. */
  ghost predicate Filled(cfg: Config, w: World, q: Path, p: Package)
  {
    var t := cfg.data + ["Data", if p.kind == "module" then "modules" else "systems", p.id];
    t <= q && (LinkToStoreOf(cfg, w, t, p) || (Get(w.root, t).None? && p.kind + "/" + p.id !in Entries(w.ledger)))
  }

  lemma PackageOfKey(cfg: Config, desired: Manifest, w: World, k: string)
    requires Admissible(cfg, desired, w) && k in PlanOf(desired.packages).present
    ensures var plan := PlanOf(desired.packages);
      var p := plan.present[k];
      && p in desired.packages && p.state == "present" && k == p.kind + "/" + p.id
      && TargetOf(cfg, plan, k) == cfg.data + ["Data", if p.kind == "module" then "modules" else "systems", p.id]
      && Source(plan, Entries(w.ledger), k) == StoreOf(Entries(w.ledger), p)
      && (OwnLink(Before(cfg, plan, w, k), Source(plan, Entries(w.ledger), k)) ==>
            LinkToStoreOf(cfg, w, TargetOf(cfg, plan, k), p))
  {
    var plan := PlanOf(desired.packages);
    PlanOfMeans(desired.packages);
    AcceptedPlan(w.root, desired.packages);
    PlacesSpelled(cfg, plan.present[k].id);
    OwnLinkMeans(Before(cfg, plan, w, k), Source(plan, Entries(w.ledger), k));
    FaultMeans(w.root, TargetOf(cfg, plan, k), Source(plan, Entries(w.ledger), k));
  }

  /** Directories on the way to the areas, and the areas, keep their permission bits; what
      is no directory there is not touched; what was missing may have become a directory. */
  lemma UpperDirectoriesKept(cfg: Config, plan: Plan, w: World, now: World, q: Path)
    requires MidRun(cfg, plan, w, now)
    requires q <= cfg.data + ["Data", "modules"] || q <= cfg.data + ["Data", "systems"]
    ensures Get(w.root, q).Some? && !Get(w.root, q).value.Dir? ==> Get(now.root, q) == Get(w.root, q)
    ensures IsDir(w.root, q) ==> IsDir(now.root, q) && Get(now.root, q).value.mode == Get(w.root, q).value.mode
    ensures Get(w.root, q).None? && Get(now.root, q).Some? ==>
      IsDir(now.root, q) && Get(now.root, q).value.mode == cfg.dirMode
  {
    var id := "";
    PlacesSpelled(cfg, id);
    assert AboveAreas(cfg, q);
    assert DirKept(cfg, Get(w.root, q), Get(now.root, q));
  }

  /** What a completed run leaves at a declared target, case by case, and in the ledger. */
  lemma CompletedTarget(cfg: Config, plan: Plan, w: World, now: World, k: string)
    requires Outcome(cfg, plan, w, now) && k in plan.present
    ensures var p := plan.present[k];
      var before, after := Get(w.root, Target(cfg, p.kind, p.id)), Get(now.root, Target(cfg, p.kind, p.id));
      var recorded := k in Entries(w.ledger);
      var source := if recorded then Entries(w.ledger)[k].storePath else p.storePath;
      var node := StoreNode(w.root, source);
      && (before.Some? && !before.value.Link? ==> after == before)
      && (before.Some? && before.value.Link? && Components(before.value.target) != Components(source) ==> after == before)
      && (before.Some? && before.value.Link? && Components(before.value.target) == Components(source) && node.Some? ==>
            after == Some(Mutable(node.value)))
      && (before.None? && recorded ==> after.None?)
      && (before.None? && !recorded && node.Some? ==> after == Some(Mutable(node.value)))
    ensures now.ledger.Recorded? && now.ledger.schemaVersion == 1
  {
    OwnLinkMeans(Before(cfg, plan, w, k), Source(plan, Entries(w.ledger), k));
    assert Get(now.root, TargetOf(cfg, plan, k)) == After(cfg, plan, w, k);
  }

  lemma UnderItsTarget(cfg: Config, plan: Plan, q: Path)
    requires WellKeyed(plan) && UnderTarget(cfg, plan, q)
    ensures TargetOf(cfg, plan, KeyAt(cfg, q)) <= q
  {
    var k := KeyAt(cfg, q);
    var pkg := plan.present[k];
    var kind := if q[..|cfg.data| + 2] == Area(cfg, "module") then "module" else "system";
    KeyInjective(pkg.kind, pkg.id, kind, q[|cfg.data| + 2]);
    assert q == q[..|cfg.data| + 2] + [q[|cfg.data| + 2]] + q[|cfg.data| + 3..];
  }

  // ------------------------------------------------------------- crash convergence

  /** Every source a run at `w` copies from is a store directory apart from the data. */
  predicate SourcesReady(cfg: Config, plan: Plan, w: World)
  {
    forall k :: k in plan.present && NeedsCopy(cfg, plan, w, k) ==>
      StoreIsDir(w.root, Source(plan, Entries(w.ledger), k)) && Apart(cfg, Source(plan, Entries(w.ledger), k))
  }

  /** Stopped between the two renames, with the link to a recorded output away. */
  predicate LostLink(cfg: Config, plan: Plan, w: World, stopped: World, k: string)
    requires k in plan.present
  {
    k in Entries(w.ledger)
    && OwnLink(Before(cfg, plan, w, k), Source(plan, Entries(w.ledger), k))
    && Before(cfg, plan, stopped, k).None?
  }

  lemma NextLedgerTwice(plan: Plan, ledger: Ledger)
    requires WellKeyed(plan)
    ensures NextLedger(plan, NextLedger(plan, ledger)) == NextLedger(plan, ledger)
    ensures forall k :: k in plan.present ==>
      k in NextLedger(plan, ledger)
      && Source(plan, NextLedger(plan, ledger), k) == Source(plan, ledger, k)
  {
    forall k | k in plan.present ensures k in NextLedger(plan, ledger) {
      assert k !in plan.absent;
    }
    assert NextLedger(plan, NextLedger(plan, ledger)) == NextLedger(plan, ledger);
  }

  /** A store directory a run needs is the same whenever the run stops. */
  lemma StoreStays(cfg: Config, plan: Plan, w: World, now: World, source: string)
    requires MidRun(cfg, plan, w, now) && Apart(cfg, source) && StoreNode(w.root, source).Some?
    ensures StoreNode(now.root, source) == StoreNode(w.root, source)
  {
    SourceStays(cfg, plan, w, now, source);
  }

  /** One target: after the rerun it is what the uninterrupted run would have left,
      unless its link was lost. */
  lemma TargetConverges(cfg: Config, plan: Plan, w: World, stopped: World, k: string)
    requires WellKeyed(plan) && k in plan.present
    requires MidRun(cfg, plan, w, stopped) && SourcesReady(cfg, plan, w)
    ensures After(cfg, plan, stopped, k) == After(cfg, plan, w, k) <==> !LostLink(cfg, plan, w, stopped, k)
    ensures NeedsCopy(cfg, plan, stopped, k) ==>
      NeedsCopy(cfg, plan, w, k)
      && Source(plan, Entries(stopped.ledger), k) == Source(plan, Entries(w.ledger), k)
  {
    NextLedgerTwice(plan, Entries(w.ledger));
    assert TargetMidway(cfg, plan, w, k, Before(cfg, plan, stopped, k));
    assert Source(plan, Entries(stopped.ledger), k) == Source(plan, Entries(w.ledger), k);
    if NeedsCopy(cfg, plan, w, k) {
      StoreStays(cfg, plan, w, stopped, Source(plan, Entries(w.ledger), k));
      assert After(cfg, plan, w, k).Some? && After(cfg, plan, w, k).value.Dir?;
    }
  }

  /** Stop a run of any manifest after any step and run the manifest again with no
      edits between: the ledger is the one an uninterrupted run writes, and each
      target is too, exactly when it is not a recorded link stopped between its
      two renames. */
  lemma CrashConvergence(cfg: Config, plan: Plan, w: World, straight: World, stopped: World, again: World)
    requires WellKeyed(plan) && SourcesReady(cfg, plan, w)
    requires Outcome(cfg, plan, w, straight)
    requires MidRun(cfg, plan, w, stopped)
    requires Outcome(cfg, plan, stopped, again)
    ensures again.ledger == straight.ledger
    ensures forall k :: k in plan.present ==>
      (Before(cfg, plan, again, k) == Before(cfg, plan, straight, k) <==> !LostLink(cfg, plan, w, stopped, k))
    ensures forall q: Path :: !AboveAreas(cfg, q) && !UnderTarget(cfg, plan, q) && !UnderTemp(cfg, q) ==>
      Get(again.root, q) == Get(straight.root, q)
  {
    NextLedgerTwice(plan, Entries(w.ledger));
    forall k | k in plan.present
      ensures Before(cfg, plan, again, k) == Before(cfg, plan, straight, k) <==> !LostLink(cfg, plan, w, stopped, k)
    {
      TargetConverges(cfg, plan, w, stopped, k);
    }
    forall q: Path | !AboveAreas(cfg, q) && !UnderTarget(cfg, plan, q) && !UnderTemp(cfg, q)
      ensures Get(again.root, q) == Get(straight.root, q)
    {
      assert Get(stopped.root, q) == Get(w.root, q);
    }
  }

  /** Running the same manifest again changes no target and not the ledger. */
  lemma RunTwice(cfg: Config, plan: Plan, w: World, once: World, twice: World)
    requires WellKeyed(plan) && SourcesReady(cfg, plan, w)
    requires Outcome(cfg, plan, w, once) && Outcome(cfg, plan, once, twice)
    ensures twice.ledger == once.ledger
    ensures forall k :: k in plan.present ==> Before(cfg, plan, twice, k) == Before(cfg, plan, once, k)
  {
    CrashConvergence(cfg, plan, w, once, once, twice);
    forall k | k in plan.present ensures !LostLink(cfg, plan, w, once, k) {
      if NeedsCopy(cfg, plan, w, k) { assert Before(cfg, plan, once, k) == After(cfg, plan, w, k); }
    }
  }

  /** What the lost link costs: the recorded target stays missing, where the
      uninterrupted run has a copy. */
  lemma LostLinkStaysMissing(cfg: Config, plan: Plan, w: World, straight: World, stopped: World, again: World, k: string)
    requires WellKeyed(plan) && SourcesReady(cfg, plan, w) && k in plan.present
    requires Outcome(cfg, plan, w, straight) && MidRun(cfg, plan, w, stopped) && Outcome(cfg, plan, stopped, again)
    requires LostLink(cfg, plan, w, stopped, k)
    ensures Before(cfg, plan, again, k).None?
    ensures Before(cfg, plan, straight, k) == CopyFrom(w.root, Source(plan, Entries(w.ledger), k))
    ensures Before(cfg, plan, straight, k).Some?
  {
    NextLedgerTwice(plan, Entries(w.ledger));
    assert k in Entries(stopped.ledger);
  }

  // ------------------------------------------------------------- any number of stops

  /** Where any number of stopped runs of one plan, begun at `w`, can have got to. */
  ghost predicate Along(cfg: Config, plan: Plan, w: World, now: World)
  {
    && Kept(cfg, plan, w.root, now.root)
    && DirsKept(cfg, w.root, now.root)
    && (forall k :: k in plan.present ==> TargetMidway(cfg, plan, w, k, Get(now.root, TargetOf(cfg, plan, k))))
    && (now.ledger == w.ledger
        || (now.ledger == Recorded(SCHEMA_VERSION, NextLedger(plan, Entries(w.ledger)))
            && forall k :: k in plan.present ==> Settled(cfg, plan, w, now, k)))
  }

  /** The target is as an uninterrupted run leaves it, or its link was lost for good. */
  predicate Settled(cfg: Config, plan: Plan, w: World, now: World, k: string)
    requires k in plan.present
  {
    Before(cfg, plan, now, k) == After(cfg, plan, w, k) || LostLink(cfg, plan, w, now, k)
  }

  lemma AlongKept(cfg: Config, plan: Plan, w: World, s1: World, s2: World)
    requires Kept(cfg, plan, w.root, s1.root) && Kept(cfg, plan, s1.root, s2.root)
    ensures Kept(cfg, plan, w.root, s2.root)
  {
  }

  lemma AlongDirs(cfg: Config, w: World, s1: World, s2: World)
    requires DirsKept(cfg, w.root, s1.root) && DirsKept(cfg, s1.root, s2.root)
    ensures DirsKept(cfg, w.root, s2.root)
  {
    forall q: Path | AboveAreas(cfg, q) ensures DirKept(cfg, Get(w.root, q), Get(s2.root, q)) {
      assert DirKept(cfg, Get(w.root, q), Get(s1.root, q));
      assert DirKept(cfg, Get(s1.root, q), Get(s2.root, q));
    }
  }

  /** What a run at an intermediate stop wants of one target is what a run at the start
      wanted, unless the target is already done or lost. */
  lemma AlongTarget(cfg: Config, plan: Plan, w: World, s1: World, k: string)
    requires WellKeyed(plan) && SourcesReady(cfg, plan, w) && Along(cfg, plan, w, s1) && k in plan.present
    ensures Source(plan, Entries(s1.ledger), k) == Source(plan, Entries(w.ledger), k)
    ensures After(cfg, plan, s1, k) == if LostLink(cfg, plan, w, s1, k) then None else After(cfg, plan, w, k)
    ensures NeedsCopy(cfg, plan, s1, k) ==> NeedsCopy(cfg, plan, w, k)
    ensures LostLink(cfg, plan, w, s1, k) ==> k in Entries(s1.ledger)
    ensures NeedsCopy(cfg, plan, w, k) ==> After(cfg, plan, w, k).Some? && After(cfg, plan, w, k).value.Dir?
  {
    NextLedgerTwice(plan, Entries(w.ledger));
    assert TargetMidway(cfg, plan, w, k, Before(cfg, plan, s1, k));
    if NeedsCopy(cfg, plan, w, k) {
      SourceStays(cfg, plan, w, s1, Source(plan, Entries(w.ledger), k));
      assert After(cfg, plan, w, k).Some? && After(cfg, plan, w, k).value.Dir?;
    }
  }

  lemma SourceStays(cfg: Config, plan: Plan, w: World, now: World, source: string)
    requires Kept(cfg, plan, w.root, now.root) && Apart(cfg, source) && StoreNode(w.root, source).Some?
    ensures StoreNode(now.root, source) == StoreNode(w.root, source)
  {
    ApartPlace(cfg, plan, StorePlace(source).value);
  }

  /** One more stopped run; a lost link stays lost. */
  lemma OneMoreStop(cfg: Config, plan: Plan, w: World, s1: World, s2: World)
    requires WellKeyed(plan) && SourcesReady(cfg, plan, w)
    requires Along(cfg, plan, w, s1) && MidRun(cfg, plan, s1, s2)
    ensures Along(cfg, plan, w, s2)
    ensures forall k :: k in plan.present && LostLink(cfg, plan, w, s1, k) ==> LostLink(cfg, plan, w, s2, k)
  {
    AlongKept(cfg, plan, w, s1, s2);
    AlongDirs(cfg, w, s1, s2);
    NextLedgerTwice(plan, Entries(w.ledger));
    forall k | k in plan.present
      ensures TargetMidway(cfg, plan, w, k, Before(cfg, plan, s2, k))
      ensures LostLink(cfg, plan, w, s1, k) ==> LostLink(cfg, plan, w, s2, k)
      ensures s2.ledger != w.ledger ==> Settled(cfg, plan, w, s2, k)
    {
      AlongTarget(cfg, plan, w, s1, k);
      StopTarget(cfg, plan, w, s1, s2, k);
    }
  }

  lemma StopTarget(cfg: Config, plan: Plan, w: World, s1: World, s2: World, k: string)
    requires k in plan.present && TargetMidway(cfg, plan, w, k, Before(cfg, plan, s1, k))
    requires TargetMidway(cfg, plan, s1, k, Before(cfg, plan, s2, k))
    requires Source(plan, Entries(s1.ledger), k) == Source(plan, Entries(w.ledger), k)
    requires After(cfg, plan, s1, k) == if LostLink(cfg, plan, w, s1, k) then None else After(cfg, plan, w, k)
    requires NeedsCopy(cfg, plan, s1, k) ==> NeedsCopy(cfg, plan, w, k)
    requires LostLink(cfg, plan, w, s1, k) ==> k in Entries(s1.ledger)
    requires NeedsCopy(cfg, plan, w, k) ==> After(cfg, plan, w, k).Some? && After(cfg, plan, w, k).value.Dir?
    requires s1.ledger == w.ledger
             || (s1.ledger == Recorded(SCHEMA_VERSION, NextLedger(plan, Entries(w.ledger))) && Settled(cfg, plan, w, s1, k))
    requires s2.ledger == s1.ledger || Before(cfg, plan, s2, k) == After(cfg, plan, s1, k)
    ensures TargetMidway(cfg, plan, w, k, Before(cfg, plan, s2, k))
    ensures LostLink(cfg, plan, w, s1, k) ==> LostLink(cfg, plan, w, s2, k)
    ensures s2.ledger != w.ledger ==> Settled(cfg, plan, w, s2, k)
  {
  }

  /** A first run stopped at `stops[0]`, the next at `stops[1]`, and so on. */
  ghost predicate StoppedAt(cfg: Config, plan: Plan, w: World, stops: seq<World>)
  {
    forall i :: 0 <= i < |stops| ==> MidRun(cfg, plan, Prior(w, stops, i), stops[i])
  }

  /** What the run that was stopped at `stops[i]` found. */
  function Prior(w: World, stops: seq<World>, i: nat): World
    requires i <= |stops|
  {
    if i == 0 then w else stops[i - 1]
  }

  function LastOf(w: World, stops: seq<World>): World
  {
    if stops == [] then w else stops[|stops| - 1]
  }

  lemma FrontStops(cfg: Config, plan: Plan, w: World, stops: seq<World>)
    requires stops != [] && StoppedAt(cfg, plan, w, stops)
    ensures var front := stops[..|stops| - 1];
      StoppedAt(cfg, plan, w, front) && MidRun(cfg, plan, LastOf(w, front), stops[|stops| - 1])
  {
    var n := |stops| - 1;
    var front := stops[..n];
    forall i | 0 <= i < n ensures MidRun(cfg, plan, Prior(w, front, i), front[i]) {
      assert Prior(w, front, i) == Prior(w, stops, i);
    }
    assert LastOf(w, front) == Prior(w, stops, n);
  }

  /** Some stop fell between the two renames of this recorded link. */
  predicate LostEver(cfg: Config, plan: Plan, w: World, stops: seq<World>, k: string)
    requires k in plan.present
  {
    exists i :: 0 <= i < |stops| && LostLink(cfg, plan, w, stops[i], k)
  }

  lemma LostEverFront(cfg: Config, plan: Plan, w: World, stops: seq<World>, k: string)
    requires k in plan.present && stops != []
    ensures LostEver(cfg, plan, w, stops, k) <==>
      LostEver(cfg, plan, w, stops[..|stops| - 1], k) || LostLink(cfg, plan, w, stops[|stops| - 1], k)
  {
    var front := stops[..|stops| - 1];
    assert forall i :: 0 <= i < |front| ==> front[i] == stops[i];
  }

  lemma {:induction false} StopsGoAlong(cfg: Config, plan: Plan, w: World, stops: seq<World>)
    requires WellKeyed(plan) && SourcesReady(cfg, plan, w) && StoppedAt(cfg, plan, w, stops)
    ensures Along(cfg, plan, w, LastOf(w, stops))
    decreases |stops|
  {
    if stops != [] {
      FrontStops(cfg, plan, w, stops);
      StopsGoAlong(cfg, plan, w, stops[..|stops| - 1]);
      OneMoreStop(cfg, plan, w, LastOf(w, stops[..|stops| - 1]), LastOf(w, stops));
    }
  }

  /** A link that was lost at some stop is lost at the last one. */
  lemma {:induction false} LostForGood(cfg: Config, plan: Plan, w: World, stops: seq<World>, k: string)
    requires WellKeyed(plan) && SourcesReady(cfg, plan, w) && StoppedAt(cfg, plan, w, stops) && k in plan.present
    ensures LostLink(cfg, plan, w, LastOf(w, stops), k) <==> LostEver(cfg, plan, w, stops, k)
    decreases |stops|
  {
    if stops != [] {
      var front := stops[..|stops| - 1];
      FrontStops(cfg, plan, w, stops);
      StopsGoAlong(cfg, plan, w, front);
      LostForGood(cfg, plan, w, front, k);
      LostEverFront(cfg, plan, w, stops, k);
      LostCarries(cfg, plan, w, LastOf(w, front), LastOf(w, stops), k);
    }
  }

  lemma LostCarries(cfg: Config, plan: Plan, w: World, s1: World, s2: World, k: string)
    requires WellKeyed(plan) && SourcesReady(cfg, plan, w) && k in plan.present
    requires Along(cfg, plan, w, s1) && MidRun(cfg, plan, s1, s2)
    ensures LostLink(cfg, plan, w, s1, k) ==> LostLink(cfg, plan, w, s2, k)
  {
    OneMoreStop(cfg, plan, w, s1, s2);
  }

  /** Stop a run after any step, rerun it, stop the rerun after any step, and so on any
      number of times; once a run completes, the ledger and everything else are as one
      uninterrupted run leaves them, and each target is too exactly when no stop fell
      between the two renames of its recorded link. */
  lemma CrashesConverge(cfg: Config, plan: Plan, w: World, straight: World, stops: seq<World>, again: World)
    requires WellKeyed(plan) && SourcesReady(cfg, plan, w)
    requires Outcome(cfg, plan, w, straight)
    requires StoppedAt(cfg, plan, w, stops) && Outcome(cfg, plan, LastOf(w, stops), again)
    ensures again.ledger == straight.ledger
    ensures forall k :: k in plan.present ==>
      (Before(cfg, plan, again, k) == Before(cfg, plan, straight, k) <==> !LostEver(cfg, plan, w, stops, k))
    ensures forall q: Path :: !AboveAreas(cfg, q) && !UnderTarget(cfg, plan, q) && !UnderTemp(cfg, q) ==>
      Get(again.root, q) == Get(straight.root, q)
  {
    StopsGoAlong(cfg, plan, w, stops);
    var last := LastOf(w, stops);
    NextLedgerTwice(plan, Entries(w.ledger));
    forall k | k in plan.present
      ensures Before(cfg, plan, again, k) == Before(cfg, plan, straight, k) <==> !LostEver(cfg, plan, w, stops, k)
    {
      AlongTarget(cfg, plan, w, last, k);
      LostForGood(cfg, plan, w, stops, k);
    }
    AlongKept(cfg, plan, w, last, again);
    forall q: Path | !AboveAreas(cfg, q) && !UnderTarget(cfg, plan, q) && !UnderTemp(cfg, q)
      ensures Get(again.root, q) == Get(straight.root, q)
    {
      assert Get(again.root, q) == Get(w.root, q);
    }
  }

  // --------------------------------------------------- is the rerun even accepted?

  /** A target that is a link to somewhere else than its own source. */
  predicate ForeignLink(cfg: Config, plan: Plan, w: World, k: string)
    requires k in plan.present
  {
    var n := Before(cfg, plan, w, k);
    n.Some? && n.value.Link? && !OwnLink(n, Source(plan, Entries(w.ledger), k))
  }

  /** The foreign links among the targets of a run begun at `w` lead to directories. */
  predicate ForeignLinksLead(cfg: Config, plan: Plan, w: World, now: World)
  {
    forall k :: k in plan.present && ForeignLink(cfg, plan, w, k) ==> LeadsToDir(now.root, TargetOf(cfg, plan, k))
  }

  /** The rerun of an accepted manifest passes every check again, exactly when the
      foreign links among its targets still lead to directories. */
  lemma RerunAccepted(cfg: Config, desired: Manifest, w: World, stopped: World)
    requires Admissible(cfg, desired, w)
    requires StoreOutside(cfg, desired.packages, Entries(w.ledger))
    requires MidRun(cfg, PlanOf(desired.packages), w, stopped)
    ensures Admissible(cfg, desired, stopped) <==> ForeignLinksLead(cfg, PlanOf(desired.packages), w, stopped)
  {
    ManifestStaysOk(cfg, desired, w, stopped);
    PreflightAgain(cfg, desired, w, stopped);
  }

  lemma PreflightAgain(cfg: Config, desired: Manifest, w: World, stopped: World)
    requires Admissible(cfg, desired, w)
    requires StoreOutside(cfg, desired.packages, Entries(w.ledger))
    requires MidRun(cfg, PlanOf(desired.packages), w, stopped)
    ensures PreflightOk(cfg, PlanOf(desired.packages), stopped)
       <==> ForeignLinksLead(cfg, PlanOf(desired.packages), w, stopped)
  {
    var plan := PlanOf(desired.packages);
    if PreflightOk(cfg, plan, stopped) {
      forall k | k in plan.present && ForeignLink(cfg, plan, w, k)
        ensures LeadsToDir(stopped.root, TargetOf(cfg, plan, k))
      {
        TargetAccepted(cfg, desired, w, stopped, k);
      }
    }
    if ForeignLinksLead(cfg, plan, w, stopped) {
      forall k | k in plan.present
        ensures TargetFault(stopped.root, TargetOf(cfg, plan, k), Source(plan, Entries(stopped.ledger), k)).None?
      {
        TargetAccepted(cfg, desired, w, stopped, k);
      }
    }
  }

  lemma ManifestStaysOk(cfg: Config, desired: Manifest, w: World, stopped: World)
    requires Admissible(cfg, desired, w)
    requires StoreOutside(cfg, desired.packages, Entries(w.ledger))
    requires MidRun(cfg, PlanOf(desired.packages), w, stopped)
    ensures ManifestOk(stopped.root, desired.packages) && Readable(stopped.ledger)
  {
    var ps, plan := desired.packages, PlanOf(desired.packages);
    forall i | 0 <= i < |ps| ensures PackageFault(stopped.root, ps[i]).None? {
      assert PackageFault(w.root, ps[i]).None?;
      if StoreNode(w.root, ps[i].storePath).Some? { StoreStays(cfg, plan, w, stopped, ps[i].storePath); }
    }
  }

  /** What the rerun has to copy can still be copied. */
  lemma RerunCopies(cfg: Config, plan: Plan, w: World, stopped: World)
    requires WellKeyed(plan) && SourcesReady(cfg, plan, w)
    requires MidRun(cfg, plan, w, stopped) && CopiesPossible(cfg, plan, w)
    ensures CopiesPossible(cfg, plan, stopped)
  {
    forall k | k in plan.present && NeedsCopy(cfg, plan, stopped, k) ensures SourceCopyable(plan, stopped, k) {
      TargetConverges(cfg, plan, w, stopped, k);
      StoreStays(cfg, plan, w, stopped, Source(plan, Entries(w.ledger), k));
    }
  }

  lemma ReadyWhenAdmissible(cfg: Config, desired: Manifest, w: World)
    requires Admissible(cfg, desired, w)
    requires StoreOutside(cfg, desired.packages, Entries(w.ledger))
    ensures SourcesReady(cfg, PlanOf(desired.packages), w)
  {
    var ps, plan := desired.packages, PlanOf(desired.packages);
    AcceptedPlan(w.root, ps);
    forall k | k in plan.present && NeedsCopy(cfg, plan, w, k)
      ensures StoreIsDir(w.root, Source(plan, Entries(w.ledger), k)) && Apart(cfg, Source(plan, Entries(w.ledger), k))
    {
      LstatMeans(w.root, TargetOf(cfg, plan, k));
    }
  }

  /** The preflight test in terms of what lies at the target. */
  lemma FaultMeans(root: Node, p: Path, source: string)
    requires p != []
    ensures TargetFault(root, p, source).None? <==>
      match Get(root, p)
      case None => ClearWay(root, p[..|p| - 1])
      case Some(n) => if OwnLink(Some(n), source) then StoreIsDir(root, source) else LeadsToDir(root, p)
  {
    LstatMeans(root, p);
  }

  /** Which fault it is: an own link without its store directory, anything else that leads
      to no directory, or no way to the target. */
  lemma FaultErrors(root: Node, p: Path, source: string)
    requires p != []
    ensures TargetFault(root, p, source) ==
      match Get(root, p)
      case None => if ClearWay(root, p[..|p| - 1]) then None else Some(Io)
      case Some(n) =>
        if n.Link? && Components(n.target) == Components(source)
        then (if StoreIsDir(root, source) then None else Some(InvalidStorePath))
        else (if LeadsToDir(root, p) then None else Some(InvalidTarget))
  {
    LstatMeans(root, p);
    if Get(root, p).Some? { OwnLinkMeans(Get(root, p), source); }
  }

  /** Where targets lead: a directory to itself, nothing else but a link anywhere, and a link
      with a plain absolute text, in whose way no link stands, to the place it names. */
  lemma LeadsExactly(root: Node, p: Path, q: Path, slash: string)
    requires p != [] && Get(root, p).Some?
    ensures !Get(root, p).value.Link? ==> (LeadsToDir(root, p) <==> Get(root, p).value.Dir?)
    ensures q != [] && slash == "/" && (forall i :: 0 <= i < |q| ==> ValidName(q[i]))
            && Get(root, p) == Some(Link(slash + Join(q)))
            && (forall i :: 0 <= i <= |q| ==> !IsLink(root, q[..i])) ==>
      (LeadsToDir(root, p) <==> Get(root, q).Some? && Get(root, q).value.Dir?)
  {
    if !Get(root, p).value.Link? {
      OneNameWalk(root, p);
    } else if q != [] && slash == "/" && (forall i :: 0 <= i < |q| ==> ValidName(q[i]))
              && Get(root, p) == Some(Link(slash + Join(q)))
              && (forall i :: 0 <= i <= |q| ==> !IsLink(root, q[..i])) {
      AbsoluteLeads(root, p, q, slash);
    }
  }

  lemma AbsoluteLeads(root: Node, p: Path, q: Path, slash: string)
    requires p != [] && q != [] && slash == "/" && forall i :: 0 <= i < |q| ==> ValidName(q[i])
    requires Get(root, p) == Some(Link(slash + Join(q)))
    requires forall i :: 0 <= i <= |q| ==> !IsLink(root, q[..i])
    ensures LeadsToDir(root, p) <==> Get(root, q).Some? && Get(root, q).value.Dir?
  {
    ComponentsOfAbsolute(q, slash);
    ParentIsDir(root, p);
    assert p[..|p| - 1] + [p[|p| - 1]] == p;
    NamedEntry(root, p[..|p| - 1], p[|p| - 1]);
    AbsoluteWalk(root, p[..|p| - 1], p[|p| - 1], Normals(q));
    assert forall i :: 0 <= i <= |q| ==> [] + q[..i] == q[..i];
    DownPlain(root, [], q, MAX_LINKS - 1);
    assert [] + q == q;
  }

  /** A link to an absolute place is walked from the top. */
  lemma AbsoluteWalk(root: Node, up: Path, name: string, rest: seq<Component>)
    requires IsDir(root, up)
    requires var es := Get(root, up).value.entries;
      name in es && es[name].Link? && Components(es[name].target) == [RootDir] + rest
    ensures Walk(root, up, [Normal(name)], true, MAX_LINKS) == Walk(root, [], rest, true, MAX_LINKS - 1)
  {
    var none := [];
    assert [Normal(name)] + none == [Normal(name)];
    FollowStep(root, up, name, none, MAX_LINKS);
    FromTop(root, up, [RootDir] + rest + none, rest, MAX_LINKS - 1);
  }

  lemma FromTop(root: Node, cur: Path, todo: seq<Component>, rest: seq<Component>, links: nat)
    requires IsDir(root, cur) && todo == [RootDir] + rest
    ensures Walk(root, cur, todo, true, links) == Walk(root, [], rest, true, links)
  {
    assert todo[1..] == rest;
  }

  lemma NamedEntry(root: Node, up: Path, name: string)
    requires IsDir(root, up) && Get(root, up + [name]).Some?
    ensures name in Get(root, up).value.entries && Get(root, up).value.entries[name] == Get(root, up + [name]).value
  {
    GetAppend(root, up, [name]);
    assert [name][1..] == [];
  }

  /** Names downward, none of them a link. */
  lemma {:induction false} DownPlain(root: Node, cur: Path, q: Path, links: nat)
    requires Get(root, cur).Some?
    requires forall i :: 0 <= i <= |q| ==> !IsLink(root, cur + q[..i])
    ensures var r := Walk(root, cur, Normals(q), true, links);
      (r.Reached? && IsDir(root, r.path)) <==> Get(root, cur + q).Some? && Get(root, cur + q).value.Dir?
    decreases |q|
  {
    if q == [] {
      assert cur + q == cur;
    } else {
      var n := q[0];
      GetAppend(root, cur, q);
      GetAppend(root, cur, [n]);
      assert [n][1..] == [];
      assert q == [n] + q[1..] && cur + q == cur + [n] + q[1..];
      if IsDir(root, cur) && n in Get(root, cur).value.entries {
        assert q[..1] == [n] && !IsLink(root, cur + q[..1]);
        forall i | 0 <= i <= |q[1..]| ensures !IsLink(root, cur + [n] + q[1..][..i]) {
          assert cur + [n] + q[1..][..i] == cur + q[..i + 1];
        }
        assert Normals(q)[1..] == Normals(q[1..]);
        DownPlain(root, cur + [n], q[1..], links);
      }
    }
  }

  /** One target of the rerun: a directory, a link to its source, or a missing
      target passes as before; only a foreign link is asked where it leads. */
  lemma TargetAccepted(cfg: Config, desired: Manifest, w: World, stopped: World, k: string)
    requires Admissible(cfg, desired, w)
    requires StoreOutside(cfg, desired.packages, Entries(w.ledger))
    requires MidRun(cfg, PlanOf(desired.packages), w, stopped)
    requires k in PlanOf(desired.packages).present
    ensures var plan := PlanOf(desired.packages);
      TargetFault(stopped.root, TargetOf(cfg, plan, k), Source(plan, Entries(stopped.ledger), k)).None?
      <==> (ForeignLink(cfg, plan, w, k) ==> LeadsToDir(stopped.root, TargetOf(cfg, plan, k)))
  {
    var plan := PlanOf(desired.packages);
    var p := TargetOf(cfg, plan, k);
    AcceptedPlan(w.root, desired.packages);
    NextLedgerTwice(plan, Entries(w.ledger));
    assert Source(plan, Entries(stopped.ledger), k) == Source(plan, Entries(w.ledger), k);
    ReadyWhenAdmissible(cfg, desired, w);
    assert TargetFault(w.root, p, Source(plan, Entries(w.ledger), k)).None?;
    WayStaysClear(cfg, plan, w, stopped, k);
    assert TargetMidway(cfg, plan, w, k, Get(stopped.root, p));
    if NeedsCopy(cfg, plan, w, k) {
      NeededPasses(cfg, plan, w, stopped, k);
    } else {
      UntouchedPasses(w.root, stopped.root, p, Source(plan, Entries(w.ledger), k));
    }
  }

  lemma WayStaysClear(cfg: Config, plan: Plan, w: World, stopped: World, k: string)
    requires WellKeyed(plan) && k in plan.present && DirsKept(cfg, w.root, stopped.root)
    requires TargetFault(w.root, TargetOf(cfg, plan, k), Source(plan, Entries(w.ledger), k)).None?
    ensures var p := TargetOf(cfg, plan, k); ClearWay(stopped.root, p[..|p| - 1])
  {
    var p := TargetOf(cfg, plan, k);
    assert p[..|p| - 1] == Area(cfg, plan.present[k].kind);
    FaultMeans(w.root, p, Source(plan, Entries(w.ledger), k));
    if Get(w.root, p).Some? { AreaIsClear(w.root, p); }
    ClearWayKept(cfg, w.root, stopped.root, plan.present[k].kind);
  }

  lemma NeededPasses(cfg: Config, plan: Plan, w: World, stopped: World, k: string)
    requires WellKeyed(plan) && k in plan.present && NeedsCopy(cfg, plan, w, k)
    requires MidRun(cfg, plan, w, stopped) && SourcesReady(cfg, plan, w)
    requires var p := TargetOf(cfg, plan, k); ClearWay(stopped.root, p[..|p| - 1])
    ensures TargetFault(stopped.root, TargetOf(cfg, plan, k), Source(plan, Entries(w.ledger), k)).None?
    ensures !ForeignLink(cfg, plan, w, k)
  {
    var p := TargetOf(cfg, plan, k);
    var source := Source(plan, Entries(w.ledger), k);
    StoreStays(cfg, plan, w, stopped, source);
    assert After(cfg, plan, w, k).value.Dir?;
    FaultMeans(stopped.root, p, source);
    if IsDir(stopped.root, p) { DirLeadsToItself(stopped.root, p); }
  }

  lemma UntouchedPasses(before: Node, now: Node, p: Path, source: string)
    requires p != [] && Get(now, p) == Get(before, p) && ClearWay(now, p[..|p| - 1])
    requires TargetFault(before, p, source).None? && !OwnLink(Get(before, p), source)
    ensures TargetFault(now, p, source).None?
       <==> (Get(before, p).Some? && Get(before, p).value.Link? ==> LeadsToDir(now, p))
  {
    FaultMeans(before, p, source);
    FaultMeans(now, p, source);
    if Get(before, p).Some? && !Get(before, p).value.Link? {
      OnlyDirsPass(before, p);
      DirLeadsToItself(now, p);
    }
  }

  lemma AreaIsClear(t: Node, p: Path)
    requires p != [] && Get(t, p).Some?
    ensures ClearWay(t, p[..|p| - 1])
  {
    ParentIsDir(t, p);
    var up := p[..|p| - 1];
    forall i | 0 <= i <= |up| ensures IsDir(t, up[..i]) {
      DirsAbove(t, up, i);
    }
  }

  lemma {:induction false} DirsAbove(t: Node, p: Path, i: nat)
    requires IsDir(t, p) && i <= |p|
    ensures IsDir(t, p[..i])
    decreases |p| - i
  {
    if i < |p| {
      DirsAbove(t, p, i + 1);
      ParentIsDir(t, p[..i + 1]);
      assert p[..i + 1][..|p[..i + 1]| - 1] == p[..i];
    } else {
      assert p[..i] == p;
    }
  }

  lemma DirLeadsToItself(t: Node, p: Path)
    requires p != [] && IsDir(t, p)
    ensures LeadsToDir(t, p)
  {
    OneNameWalk(t, p);
  }

  /** Only a directory, or a link, can lead to a directory. */
  lemma OnlyDirsPass(t: Node, p: Path)
    requires p != [] && Get(t, p).Some? && !Get(t, p).value.Link?
    ensures LeadsToDir(t, p) ==> IsDir(t, p)
  {
    OneNameWalk(t, p);
  }

  lemma OneNameWalk(t: Node, p: Path)
    requires p != [] && Get(t, p).Some? && !Get(t, p).value.Link?
    ensures Walk(t, p[..|p| - 1], [Normal(p[|p| - 1])], true, MAX_LINKS) == Reached(p)
  {
    var up, name := p[..|p| - 1], p[|p| - 1];
    ParentIsDir(t, p);
    GetAppend(t, up, [name]);
    assert up + [name] == p;
    LastName(t, up, name, [Normal(name)], MAX_LINKS);
  }

  /** A last name that is no link is where the walk ends. */
  lemma LastName(t: Node, up: Path, name: string, todo: seq<Component>, links: nat)
    requires IsDir(t, up) && name in Get(t, up).value.entries && !Get(t, up).value.entries[name].Link?
    requires todo == [Normal(name)]
    ensures Walk(t, up, todo, true, links) == Reached(up + [name])
  {
    assert todo[1..] == [];
  }

  // ------------------------------------------- foreign links that are not disturbed

  /** The walk never steps on a place in `bad`. */
  predicate Avoids(root: Node, cur: Path, todo: seq<Component>, followLast: bool, links: nat, bad: set<Path>)
    decreases links, |todo|
  {
    todo == [] || !IsDir(root, cur) ||
    var es := Get(root, cur).value.entries;
    match todo[0]
    case RootDir => Avoids(root, [], todo[1..], followLast, links, bad)
    case CurDir => Avoids(root, cur, todo[1..], followLast, links, bad)
    case ParentDir => Avoids(root, LexStep(cur, ParentDir), todo[1..], followLast, links, bad)
    case Normal(n) =>
      n !in es || (cur + [n] !in bad &&
        if es[n].Link? && (|todo| > 1 || followLast) then
          links == 0 || Avoids(root, cur, Components(es[n].target) + todo[1..], followLast, links - 1, bad)
        else Avoids(root, cur + [n], todo[1..], followLast, links, bad))
  }

  /** Away from `bad`, what `before` has `now` has in the same kind, and links are
      the same links. */
  ghost predicate SameShape(before: Node, now: Node, bad: set<Path>)
  {
    forall q: Path {:trigger Get(now, q)} :: Get(before, q).Some? && q !in bad ==>
      Get(now, q).Some?
      && (Get(before, q).value.Dir? <==> Get(now, q).value.Dir?)
      && (Get(before, q).value.Link? || Get(now, q).value.Link? ==> Get(now, q) == Get(before, q))
  }

  /** A walk that arrives, and avoids `bad`, arrives at the same place. */
  lemma {:induction false} WalkUndisturbed(before: Node, now: Node, cur: Path, todo: seq<Component>, followLast: bool, links: nat, bad: set<Path>)
    requires SameShape(before, now, bad)
    requires Get(before, cur).Some? && cur !in bad
    requires forall p :: p in bad ==> !IsDir(before, p)
    requires Walk(before, cur, todo, followLast, links).Reached?
    requires Avoids(before, cur, todo, followLast, links, bad)
    ensures Walk(now, cur, todo, followLast, links) == Walk(before, cur, todo, followLast, links)
    ensures Get(before, Walk(before, cur, todo, followLast, links).path).Some?
    ensures Walk(before, cur, todo, followLast, links).path !in bad
    decreases links, |todo|
  {
    if todo != [] {
      assert IsDir(before, cur) && IsDir(now, cur);
      var es := Get(before, cur).value.entries;
      match todo[0]
      case RootDir =>
        RootNotBad(before, cur, bad);
        WalkUndisturbed(before, now, [], todo[1..], followLast, links, bad);
      case CurDir => WalkUndisturbed(before, now, cur, todo[1..], followLast, links, bad);
      case ParentDir =>
        if cur != [] { ParentIsDir(before, cur); }
        WalkUndisturbed(before, now, LexStep(cur, ParentDir), todo[1..], followLast, links, bad);
      case Normal(n) =>
        GetAppend(before, cur, [n]);
        GetAppend(now, cur, [n]);
        assert Get(before, cur + [n]).Some?;
        assert Get(now, cur + [n]).Some?;
        if es[n].Link? && (|todo| > 1 || followLast) {
          WalkUndisturbed(before, now, cur, Components(es[n].target) + todo[1..], followLast, links - 1, bad);
        } else {
          WalkUndisturbed(before, now, cur + [n], todo[1..], followLast, links, bad);
        }
    }
  }

  lemma RootNotBad(t: Node, cur: Path, bad: set<Path>)
    requires IsDir(t, cur) && forall p :: p in bad ==> !IsDir(t, p)
    ensures [] !in bad
  {
    DirsAbove(t, cur, 0);
    assert cur[..0] == [];
  }

  /** The targets a run may replace: links to their own sources. */
  function OwnLinks(cfg: Config, plan: Plan, w: World): set<Path>
  {
    set k | k in plan.present && OwnLink(Before(cfg, plan, w, k), Source(plan, Entries(w.ledger), k))
      :: TargetOf(cfg, plan, k)
  }

  /** A target that led to a directory without passing over a link the run
      replaces leads there whenever the run stops. */
  lemma ForeignLinkUndisturbed(cfg: Config, plan: Plan, w: World, stopped: World, k: string)
    requires WellKeyed(plan) && MidRun(cfg, plan, w, stopped) && k in plan.present
    requires Before(cfg, plan, w, k).Some? && LeadsToDir(w.root, TargetOf(cfg, plan, k))
    requires var p := TargetOf(cfg, plan, k);
      Avoids(w.root, p[..|p| - 1], [Normal(p[|p| - 1])], true, MAX_LINKS, OwnLinks(cfg, plan, w))
    ensures LeadsToDir(stopped.root, TargetOf(cfg, plan, k))
  {
    var bad := OwnLinks(cfg, plan, w);
    var p := TargetOf(cfg, plan, k);
    var up := p[..|p| - 1];
    assert up == Area(cfg, plan.present[k].kind);
    forall q: Path | Get(w.root, q).Some? && q !in bad
      ensures Get(stopped.root, q).Some?
      ensures Get(w.root, q).value.Dir? <==> Get(stopped.root, q).value.Dir?
      ensures Get(w.root, q).value.Link? || Get(stopped.root, q).value.Link? ==> Get(stopped.root, q) == Get(w.root, q)
    {
      if AboveAreas(cfg, q) {
        assert DirKept(cfg, Get(w.root, q), Get(stopped.root, q));
      } else {
        UserDataPreserved(cfg, plan, w, stopped, q);
      }
    }
    ParentIsDir(w.root, p);
    WalkUndisturbed(w.root, stopped.root, up, [Normal(p[|p| - 1])], true, MAX_LINKS, bad);
  }
}
