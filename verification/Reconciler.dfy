/** The package reconciler: seeding missing targets, turning a link to the store
    into a copy, and a whole run over a manifest. */
module Reconciler {
  import opened Wrappers
  import opened Paths
  import opened Trees
  import opened Packages
  import opened Temps
  import opened Disks
  import opened Progress

  /** A temporary name in an area that no entry and no declared package has. */
  method TempIn(disk: Disk, cfg: Config, plan: Plan, kind: string) returns (name: string)
    requires WellKeyed(plan) && ValidKind(kind)
    requires IsDir(disk.root, Area(cfg, kind))
    ensures TempName(name) && Key(kind, name) !in plan.present
    ensures Get(disk.root, Area(cfg, kind) + [name]).None?
  {
    var area := Get(disk.root, Area(cfg, kind)).value;
    name := FreshName(area.entries.Keys + set k | k in plan.present :: plan.present[k].id);
    if Key(kind, name) in plan.present {
      var pkg := plan.present[Key(kind, name)];
      KeyInjective(pkg.kind, pkg.id, kind, name);
    }
    GetAppend(disk.root, Area(cfg, kind), [name]);
  }

  /** Dropping a temporary file or directory, as far as that succeeds. */
  method Discard(disk: Disk, cfg: Config, plan: Plan, kind: string, name: string,
                 ghost w: World, ghost done: set<string>, ghost lost: Option<string>)
    requires SoFar(cfg, plan, w, done, lost, disk.Now())
    requires ValidKind(kind) && TempName(name) && Key(kind, name) !in plan.present
    requires Get(w.root, Area(cfg, kind) + [name]).None?
    modifies disk
    ensures SoFar(cfg, plan, w, done, lost, disk.Now())
    ensures StepsMidRun(cfg, plan, w, old(disk.history), disk.history)
    ensures IsDir(old(disk.root), Area(cfg, kind)) ==> IsDir(disk.root, Area(cfg, kind))
  {
    var p := Area(cfg, kind) + [name];
    if Get(disk.root, p).Some? {
      ParentIsDir(disk.root, p);
      ghost var was, past := disk.Now(), disk.history;
      var ok := disk.Remove(p);
      RemovedTemp(cfg, plan, w, done, lost, was, kind, name, past, disk.history, ok, disk.root);
    }
  }

  /** `create_dir_all` of a package area. */
  method MakeArea(disk: Disk, cfg: Config, plan: Plan, kind: string, ghost w: World, ghost done: set<string>)
    returns (ok: bool)
    requires SoFar(cfg, plan, w, done, None, disk.Now()) && ValidKind(kind)
    modifies disk
    ensures SoFar(cfg, plan, w, done, None, disk.Now())
    ensures StepsMidRun(cfg, plan, w, old(disk.history), disk.history)
    ensures ok ==> IsDir(disk.root, Area(cfg, kind))
    ensures disk.healthy && ClearWay(old(disk.root), Area(cfg, kind)) && old(disk.root).Dir? ==> ok
  {
    var area := Area(cfg, kind);
    ghost var past, root0 := disk.history, disk.root;
    if !disk.root.Dir? { return false; }
    var i := 0;
    assert area[..0] == [];
    while i < |area|
      invariant 0 <= i <= |area|
      invariant SoFar(cfg, plan, w, done, None, disk.Now())
      invariant StepsMidRun(cfg, plan, w, past, disk.history)
      invariant IsDir(disk.root, area[..i])
      invariant ClearWay(root0, area) ==> ClearWay(disk.root, area)
    {
      i := i + 1;
      var p := area[..i];
      assert p[..i - 1] == area[..i - 1];
      assert AboveAreas(cfg, p);
      if Get(disk.root, p).None? {
        ghost var was, steps := disk.Now(), disk.history;
        var made := disk.Mkdir(p, cfg.dirMode);
        if made {
          MkdirStep(cfg, plan, w, done, None, was, p);
          AfterPutThere(was.root, p, Dir(cfg.dirMode, map[]));
          MkdirKeepsClear(was.root, p, cfg.dirMode, area);
        }
        SoFarIsMidRun(cfg, plan, w, done, None, disk.Now());
        StepsOne(cfg, plan, w, steps, disk.Now());
        StepsJoin(cfg, plan, w, past, steps, disk.history);
        if !made { return false; }
      } else if !Get(disk.root, p).value.Dir? {
        return false;
      }
    }
    assert area[..|area|] == area;
    return true;
  }

  lemma MkdirKeepsClear(t: Node, p: Path, mode: Mode, area: Path)
    requires HasParent(t, p) && Get(t, p).None? && p <= area
    ensures ClearWay(t, area) ==> ClearWay(Put(t, p, Dir(mode, map[])), area)
  {
    var next := Put(t, p, Dir(mode, map[]));
    if ClearWay(t, area) {
      forall i | 0 <= i <= |area| ensures Get(next, area[..i]).None? || Get(next, area[..i]).value.Dir? {
        GetPut(t, p, Dir(mode, map[]), area[..i]);
        if i <= |p| { assert area[..i] == p[..i]; } else { assert p == area[..i][..|p|]; }
      }
    }
  }

  /** Making a private copy of the store tree `node` under a temporary name. */
  method CopyAside(disk: Disk, cfg: Config, plan: Plan, kind: string, source: string, ghost node: Node,
                   ghost w: World, ghost done: set<string>)
    returns (r: Result<string, Error>)
    requires SoFar(cfg, plan, w, done, None, disk.Now()) && ValidKind(kind)
    requires IsDir(disk.root, Area(cfg, kind))
    requires Apart(cfg, source) && StoreNode(w.root, source) == Some(node) && node.Dir?
    modifies disk
    ensures SoFar(cfg, plan, w, done, None, disk.Now())
    ensures StepsMidRun(cfg, plan, w, old(disk.history), disk.history)
    ensures IsDir(disk.root, Area(cfg, kind))
    ensures r.Ok? ==>
      TempName(r.value) && Key(kind, r.value) !in plan.present
      && Get(w.root, Area(cfg, kind) + [r.value]).None?
      && Get(disk.root, Area(cfg, kind) + [r.value]) == Some(Mutable(node))
      && Copyable(node, [])
    ensures r.Err? && disk.healthy ==> !Copyable(node, [])
  {
    ghost var past := disk.history;
    var name := TempIn(disk, cfg, plan, kind);
    var temp := Area(cfg, kind) + [name];
    var place := StorePlace(source).value;
    FreshWasFree(cfg, plan, w, done, None, disk.Now(), kind, name);
    SlotParent(cfg, disk.root, kind, name);

    ghost var was := disk.Now();
    var made := disk.Mkdir(temp, 0x1C0);
    if made {
      PutSlot(was.root, temp, Dir(0x1C0, map[]));
      TempStep(cfg, plan, w, done, None, was, kind, name, disk.root);
      AfterPutThere(was.root, temp, Dir(0x1C0, map[]));
    }
    SoFarIsMidRun(cfg, plan, w, done, None, disk.Now());
    SlotParent(cfg, disk.root, kind, name);
    if !made { return Err(Io); }

    ghost var steps := disk.history;
    was := disk.Now();
    ApartIsKept(cfg, plan, w, done, None, was, source);
    ApartFromSlot(cfg, kind, name, place);
    var copied := disk.CopyTree([], temp, place, node);
    TempSteps(cfg, plan, w, done, None, was, kind, name, steps, disk.history);
    StepsJoin(cfg, plan, w, past, steps, disk.history);
    OnlyAtTemp(cfg, plan, w, done, None, was, kind, name, disk.root);
    if copied.Err? {
      steps := disk.history;
      Discard(disk, cfg, plan, kind, name, w, done, None);
      StepsJoin(cfg, plan, w, past, steps, disk.history);
      return Err(copied.error);
    }
    AfterPutThere(was.root, temp, Mutable(node));
    return Ok(name);
  }

  /** Moving the link aside and the finished copy into its place. */
  method SwapIn(disk: Disk, cfg: Config, plan: Plan, k: string, temp: string,
                ghost w: World, ghost done: set<string>)
    returns (r: Result<(), Error>)
    requires SoFar(cfg, plan, w, done, None, disk.Now()) && k in plan.present && k !in done
    requires OwnLink(Before(cfg, plan, w, k), Source(plan, Entries(w.ledger), k))
    requires IsDir(disk.root, Area(cfg, plan.present[k].kind))
    requires TempName(temp) && Key(plan.present[k].kind, temp) !in plan.present
    requires Get(w.root, Area(cfg, plan.present[k].kind) + [temp]).None?
    requires Get(disk.root, Area(cfg, plan.present[k].kind) + [temp]).Some?
    requires Get(disk.root, Area(cfg, plan.present[k].kind) + [temp]) == After(cfg, plan, w, k)
    modifies disk
    ensures StepsMidRun(cfg, plan, w, old(disk.history), disk.history)
    ensures MidRun(cfg, plan, w, disk.Now()) && disk.ledger == old(disk.ledger)
    ensures r.Ok? ==> SoFar(cfg, plan, w, done + {k}, None, disk.Now())
    ensures disk.healthy ==> r.Ok?
  {
    ghost var past := disk.history;
    var kind := plan.present[k].kind;
    var named := NameAside(disk, cfg, plan, kind, temp, w, done);
    if named.Err? {
      DropCopy(disk, cfg, plan, kind, temp, past, w, done);
      return Err(Io);
    }
    var aside := named.value;
    ghost var steps := disk.history;
    var moved := MoveAside(disk, cfg, plan, k, temp, aside, w, done);
    StepsJoin(cfg, plan, w, past, steps, disk.history);
    steps := disk.history;
    if moved {
      r := PutInPlace(disk, cfg, plan, k, temp, aside, w, done);
      StepsJoin(cfg, plan, w, past, steps, disk.history);
    } else {
      DropCopy(disk, cfg, plan, kind, temp, past, w, done);
      r := Err(Io);
    }
  }

  /** The copy that was made for a swap is dropped. */
  method DropCopy(disk: Disk, cfg: Config, plan: Plan, kind: string, temp: string,
                  ghost past: seq<World>, ghost w: World, ghost done: set<string>)
    requires SoFar(cfg, plan, w, done, None, disk.Now()) && StepsMidRun(cfg, plan, w, past, disk.history)
    requires ValidKind(kind) && TempName(temp) && Key(kind, temp) !in plan.present
    requires Get(w.root, Area(cfg, kind) + [temp]).None?
    modifies disk
    ensures StepsMidRun(cfg, plan, w, past, disk.history)
    ensures MidRun(cfg, plan, w, disk.Now()) && disk.ledger == old(disk.ledger)
  {
    ghost var steps := disk.history;
    Discard(disk, cfg, plan, kind, temp, w, done, None);
    StepsJoin(cfg, plan, w, past, steps, disk.history);
    SoFarIsMidRun(cfg, plan, w, done, None, disk.Now());
  }

  /** The first rename: from here until the second one the target is missing. */
  method MoveAside(disk: Disk, cfg: Config, plan: Plan, k: string, temp: string, aside: string,
                   ghost w: World, ghost done: set<string>)
    returns (moved: bool)
    requires SoFar(cfg, plan, w, done, None, disk.Now()) && k in plan.present && k !in done
    requires OwnLink(Before(cfg, plan, w, k), Source(plan, Entries(w.ledger), k))
    requires IsDir(disk.root, Area(cfg, plan.present[k].kind)) && temp != aside
    requires Key(plan.present[k].kind, temp) !in plan.present
    requires TempName(aside) && Key(plan.present[k].kind, aside) !in plan.present
    requires Get(w.root, Area(cfg, plan.present[k].kind) + [aside]).None?
    requires Get(disk.root, Area(cfg, plan.present[k].kind) + [aside]).None?
    modifies disk
    ensures StepsMidRun(cfg, plan, w, old(disk.history), disk.history)
    ensures SoFar(cfg, plan, w, done, if moved then Some(k) else None, disk.Now())
    ensures IsDir(disk.root, Area(cfg, plan.present[k].kind))
    ensures Get(disk.root, Area(cfg, plan.present[k].kind) + [temp])
         == Get(old(disk.root), Area(cfg, plan.present[k].kind) + [temp])
    ensures moved ==> Get(disk.root, Area(cfg, plan.present[k].kind) + [aside]) == Before(cfg, plan, w, k)
    ensures disk.healthy ==> moved
  {
    var kind := plan.present[k].kind;
    SlotParent(cfg, disk.root, kind, aside);
    SlotParent(cfg, disk.root, kind, plan.present[k].id);
    ghost var was, past := disk.Now(), disk.history;
    moved := disk.Rename(TargetOf(cfg, plan, k), Area(cfg, kind) + [aside]);
    if moved {
      DisplaceStep(cfg, plan, w, done, was, k, aside);
      MovedAside(cfg, was.root, disk.root, kind, plan.present[k].id, aside, temp);
    }
    SoFarIsMidRun(cfg, plan, w, done, if moved then Some(k) else None, disk.Now());
    StepsOne(cfg, plan, w, past, disk.Now());
  }

  /** The second rename, its undoing if it fails, and the removal of the old link. */
  method PutInPlace(disk: Disk, cfg: Config, plan: Plan, k: string, temp: string, aside: string,
                    ghost w: World, ghost done: set<string>)
    returns (r: Result<(), Error>)
    requires SoFar(cfg, plan, w, done, Some(k), disk.Now()) && k in plan.present && k !in done
    requires IsDir(disk.root, Area(cfg, plan.present[k].kind)) && temp != aside
    requires TempName(temp) && Key(plan.present[k].kind, temp) !in plan.present
    requires TempName(aside) && Key(plan.present[k].kind, aside) !in plan.present
    requires Get(w.root, Area(cfg, plan.present[k].kind) + [temp]).None?
    requires Get(w.root, Area(cfg, plan.present[k].kind) + [aside]).None?
    requires Get(disk.root, Area(cfg, plan.present[k].kind) + [temp]).Some?
    requires Get(disk.root, Area(cfg, plan.present[k].kind) + [temp]) == After(cfg, plan, w, k)
    requires Get(disk.root, Area(cfg, plan.present[k].kind) + [aside]) == Before(cfg, plan, w, k)
    modifies disk
    ensures StepsMidRun(cfg, plan, w, old(disk.history), disk.history)
    ensures MidRun(cfg, plan, w, disk.Now()) && disk.ledger == old(disk.ledger)
    ensures r.Ok? ==> SoFar(cfg, plan, w, done + {k}, None, disk.Now())
    ensures disk.healthy ==> r.Ok?
  {
    ghost var past := disk.history;
    var kind := plan.present[k].kind;
    var installed := Install(disk, cfg, plan, k, temp, aside, w, done);
    ghost var steps := disk.history;
    if installed {
      var cleared := ClearAway(disk, cfg, plan, kind, aside, w, done + {k});
      r := if cleared then Ok(()) else Err(Io);
    } else {
      r := PutBack(disk, cfg, plan, k, temp, aside, w, done);
    }
    StepsJoin(cfg, plan, w, past, steps, disk.history);
  }

  /** The second rename alone. */
  method Install(disk: Disk, cfg: Config, plan: Plan, k: string, temp: string, aside: string,
                 ghost w: World, ghost done: set<string>)
    returns (installed: bool)
    requires SoFar(cfg, plan, w, done, Some(k), disk.Now()) && k in plan.present && k !in done
    requires IsDir(disk.root, Area(cfg, plan.present[k].kind)) && temp != aside
    requires TempName(temp) && Key(plan.present[k].kind, temp) !in plan.present
    requires Key(plan.present[k].kind, aside) !in plan.present
    requires Get(w.root, Area(cfg, plan.present[k].kind) + [temp]).None?
    requires Get(disk.root, Area(cfg, plan.present[k].kind) + [temp]).Some?
    requires Get(disk.root, Area(cfg, plan.present[k].kind) + [temp]) == After(cfg, plan, w, k)
    modifies disk
    ensures installed ==> SoFar(cfg, plan, w, done + {k}, None, disk.Now())
    ensures !installed ==> disk.root == old(disk.root)
    ensures disk.ledger == old(disk.ledger)
    ensures StepsMidRun(cfg, plan, w, old(disk.history), disk.history)
    ensures IsDir(disk.root, Area(cfg, plan.present[k].kind))
    ensures Get(disk.root, Area(cfg, plan.present[k].kind) + [aside])
         == Get(old(disk.root), Area(cfg, plan.present[k].kind) + [aside])
    ensures disk.healthy ==> installed
  {
    var kind := plan.present[k].kind;
    SlotParent(cfg, disk.root, kind, plan.present[k].id);
    SlotParent(cfg, disk.root, kind, temp);
    ghost var was, past := disk.Now(), disk.history;
    installed := disk.Rename(Area(cfg, kind) + [temp], TargetOf(cfg, plan, k));
    if installed {
      InstallStep(cfg, plan, w, done, Some(k), was, k, temp, done + {k});
      MovedAside(cfg, was.root, disk.root, kind, temp, plan.present[k].id, aside);
      SoFarIsMidRun(cfg, plan, w, done + {k}, None, disk.Now());
    } else {
      SoFarIsMidRun(cfg, plan, w, done, Some(k), disk.Now());
    }
    StepsOne(cfg, plan, w, past, disk.Now());
  }

  /** The old link is removed from where it was moved to. */
  method ClearAway(disk: Disk, cfg: Config, plan: Plan, kind: string, aside: string, ghost w: World, ghost done: set<string>)
    returns (cleared: bool)
    requires SoFar(cfg, plan, w, done, None, disk.Now()) && ValidKind(kind) && IsDir(disk.root, Area(cfg, kind))
    requires TempName(aside) && Key(kind, aside) !in plan.present
    requires Get(w.root, Area(cfg, kind) + [aside]).None? && Get(disk.root, Area(cfg, kind) + [aside]).Some?
    modifies disk
    ensures SoFar(cfg, plan, w, done, None, disk.Now())
    ensures StepsMidRun(cfg, plan, w, old(disk.history), disk.history)
    ensures MidRun(cfg, plan, w, disk.Now()) && disk.ledger == old(disk.ledger)
    ensures disk.healthy ==> cleared
  {
    ghost var was, past := disk.Now(), disk.history;
    SlotParent(cfg, disk.root, kind, aside);
    cleared := disk.Remove(Area(cfg, kind) + [aside]);
    RemovedTemp(cfg, plan, w, done, None, was, kind, aside, past, disk.history, cleared, disk.root);
    SoFarIsMidRun(cfg, plan, w, done, None, disk.Now());
  }

  /** After a failed second rename: the link goes back if it can, and what was
      made for the swap is dropped. */
  method PutBack(disk: Disk, cfg: Config, plan: Plan, k: string, temp: string, aside: string,
                 ghost w: World, ghost done: set<string>)
    returns (r: Result<(), Error>)
    requires SoFar(cfg, plan, w, done, Some(k), disk.Now()) && k in plan.present && k !in done
    requires IsDir(disk.root, Area(cfg, plan.present[k].kind))
    requires TempName(temp) && Key(plan.present[k].kind, temp) !in plan.present
    requires TempName(aside) && Key(plan.present[k].kind, aside) !in plan.present
    requires Get(w.root, Area(cfg, plan.present[k].kind) + [temp]).None?
    requires Get(w.root, Area(cfg, plan.present[k].kind) + [aside]).None?
    requires Get(disk.root, Area(cfg, plan.present[k].kind) + [aside]) == Before(cfg, plan, w, k)
    modifies disk
    ensures StepsMidRun(cfg, plan, w, old(disk.history), disk.history)
    ensures MidRun(cfg, plan, w, disk.Now()) && disk.ledger == old(disk.ledger)
    ensures r.Err?
  {
    ghost var past := disk.history;
    var kind := plan.present[k].kind;
    var restored := Restore(disk, cfg, plan, k, aside, w, done);
    ghost var lost := if restored then None else Some(k);
    ghost var steps := disk.history;
    Discard(disk, cfg, plan, kind, aside, w, done, lost);
    StepsJoin(cfg, plan, w, past, steps, disk.history);
    steps := disk.history;
    Discard(disk, cfg, plan, kind, temp, w, done, lost);
    StepsJoin(cfg, plan, w, past, steps, disk.history);
    SoFarIsMidRun(cfg, plan, w, done, lost, disk.Now());
    return Err(Io);
  }

  /** The link is renamed back to the target. */
  method Restore(disk: Disk, cfg: Config, plan: Plan, k: string, aside: string, ghost w: World, ghost done: set<string>)
    returns (restored: bool)
    requires SoFar(cfg, plan, w, done, Some(k), disk.Now()) && k in plan.present && k !in done
    requires IsDir(disk.root, Area(cfg, plan.present[k].kind))
    requires TempName(aside) && Key(plan.present[k].kind, aside) !in plan.present
    requires Get(w.root, Area(cfg, plan.present[k].kind) + [aside]).None?
    requires Get(disk.root, Area(cfg, plan.present[k].kind) + [aside]) == Before(cfg, plan, w, k)
    modifies disk
    ensures SoFar(cfg, plan, w, done, if restored then None else Some(k), disk.Now())
    ensures StepsMidRun(cfg, plan, w, old(disk.history), disk.history)
    ensures disk.healthy ==> restored
  {
    var kind := plan.present[k].kind;
    SlotParent(cfg, disk.root, kind, aside);
    SlotParent(cfg, disk.root, kind, plan.present[k].id);
    ghost var was, past := disk.Now(), disk.history;
    restored := disk.Rename(Area(cfg, kind) + [aside], TargetOf(cfg, plan, k));
    if restored { InstallStep(cfg, plan, w, done, Some(k), was, k, aside, done); }
    SoFarIsMidRun(cfg, plan, w, done, if restored then None else Some(k), disk.Now());
    StepsOne(cfg, plan, w, past, disk.Now());
  }

  /** Dropping a temporary entry after one more, failed or final, step. */
  method GiveUp(disk: Disk, cfg: Config, plan: Plan, kind: string, name: string,
                ghost past: seq<World>, ghost w: World, ghost done: set<string>, ghost lost: Option<string>)
    requires SoFar(cfg, plan, w, done, lost, disk.Now())
    requires ValidKind(kind) && TempName(name) && Key(kind, name) !in plan.present
    requires Get(w.root, Area(cfg, kind) + [name]).None?
    requires |disk.history| > |past| && disk.history[|disk.history| - 1] == disk.Now()
    requires StepsMidRun(cfg, plan, w, past, disk.history[..|disk.history| - 1])
    modifies disk
    ensures SoFar(cfg, plan, w, done, lost, disk.Now())
    ensures StepsMidRun(cfg, plan, w, past, disk.history)
    ensures MidRun(cfg, plan, w, disk.Now()) && disk.ledger == old(disk.ledger)
  {
    SoFarIsMidRun(cfg, plan, w, done, lost, disk.Now());
    ghost var before := disk.history[..|disk.history| - 1];
    StepsOne(cfg, plan, w, before, disk.Now());
    assert disk.history == before + [disk.Now()];
    StepsJoin(cfg, plan, w, past, before, disk.history);
    ghost var steps := disk.history;
    Discard(disk, cfg, plan, kind, name, w, done, lost);
    StepsJoin(cfg, plan, w, past, steps, disk.history);
    SoFarIsMidRun(cfg, plan, w, done, lost, disk.Now());
  }

  /** A third entry of the area is not touched by a rename. */
  lemma MovedAside(cfg: Config, before: Node, now: Node, kind: string, from: string, to: string, other: string)
    requires IsDir(before, Area(cfg, kind)) && from != to && other != from && other != to
    requires Get(before, Area(cfg, kind) + [from]).Some?
    requires now == Put(Del(before, Area(cfg, kind) + [from]), Area(cfg, kind) + [to], Get(before, Area(cfg, kind) + [from]).value)
    ensures Get(now, Area(cfg, kind) + [other]) == Get(before, Area(cfg, kind) + [other])
  {
    var a := Area(cfg, kind);
    MoveFacts(cfg, before, kind, from, to);
    var o := a + [other];
    assert o[|a|] == other && (a + [from])[|a|] == from && (a + [to])[|a|] == to;
    assert Get(now, o) == Get(Del(before, a + [from]), o);
  }

  /** A name to move the link to: a temporary file made to claim it, then removed. */
  method NameAside(disk: Disk, cfg: Config, plan: Plan, kind: string, temp: string,
                   ghost w: World, ghost done: set<string>)
    returns (r: Result<string, Error>)
    requires SoFar(cfg, plan, w, done, None, disk.Now()) && ValidKind(kind)
    requires IsDir(disk.root, Area(cfg, kind))
    requires Get(disk.root, Area(cfg, kind) + [temp]).Some?
    modifies disk
    ensures SoFar(cfg, plan, w, done, None, disk.Now())
    ensures StepsMidRun(cfg, plan, w, old(disk.history), disk.history)
    ensures IsDir(disk.root, Area(cfg, kind))
    ensures Get(disk.root, Area(cfg, kind) + [temp]) == Get(old(disk.root), Area(cfg, kind) + [temp])
    ensures r.Ok? ==>
      TempName(r.value) && Key(kind, r.value) !in plan.present && r.value != temp
      && Get(w.root, Area(cfg, kind) + [r.value]).None?
      && Get(disk.root, Area(cfg, kind) + [r.value]).None?
    ensures disk.healthy ==> r.Ok?
  {
    ghost var past := disk.history;
    var name := TempIn(disk, cfg, plan, kind);
    var p := Area(cfg, kind) + [name];
    FreshWasFree(cfg, plan, w, done, None, disk.Now(), kind, name);
    SlotParent(cfg, disk.root, kind, name);
    ghost var was := disk.Now();
    var wrote := disk.WriteFile(p, [], 0x180, 0x180);
    TempSteps(cfg, plan, w, done, None, was, kind, name, past, disk.history);
    OnlyAtTemp(cfg, plan, w, done, None, was, kind, name, disk.root);
    OtherEntryKept(cfg, was.root, disk.root, kind, name, temp);
    if !wrote {
      return Err(Io);
    }
    AfterPutThere(was.root, p, File(0x180, []));
    ghost var steps := disk.history;
    ghost var claimed := disk.Now();
    SlotParent(cfg, disk.root, kind, name);
    var removed := disk.Remove(p);
    RemovedTemp(cfg, plan, w, done, None, claimed, kind, name, steps, disk.history, removed, disk.root);
    StepsJoin(cfg, plan, w, past, steps, disk.history);
    if removed {
      DelSlot(claimed.root, p);
      OtherEntryGone(cfg, claimed.root, disk.root, kind, name, temp);
    } else {
      OtherEntryKept(cfg, claimed.root, disk.root, kind, name, temp);
    }
    return if removed then Ok(name) else Err(Io);
  }

  lemma OtherEntryKept(cfg: Config, before: Node, now: Node, kind: string, name: string, other: string)
    requires HasParent(before, Area(cfg, kind) + [name]) && other != name
    requires OnlyAt(before, Area(cfg, kind) + [name], now)
    ensures Get(now, Area(cfg, kind) + [other]) == Get(before, Area(cfg, kind) + [other])
  {
    if now != before {
      var n :| now == Put(before, Area(cfg, kind) + [name], n);
      PutSlot(before, Area(cfg, kind) + [name], n);
      OtherEntryGone(cfg, before, now, kind, name, other);
    }
  }

  lemma OtherEntryGone(cfg: Config, before: Node, now: Node, kind: string, name: string, other: string)
    requires SlotOnly(before, now, Area(cfg, kind) + [name]) && other != name
    ensures Get(now, Area(cfg, kind) + [other]) == Get(before, Area(cfg, kind) + [other])
  {
    var p, o := Area(cfg, kind) + [name], Area(cfg, kind) + [other];
    assert p[|p| - 1] == name && o[|o| - 1] == other;
    assert !(p <= o) && !(o <= p);
  }

  /** `materialize_legacy_link`: a target that is the link to its own source gives
      way to a copy; any other target is left alone. */
  method MaterializeLegacyLink(disk: Disk, cfg: Config, plan: Plan, k: string, ghost w: World, ghost done: set<string>)
    returns (r: Result<(), Error>)
    requires SoFar(cfg, plan, w, done, None, disk.Now())
    requires k in plan.present && k !in done
    requires NeedsCopy(cfg, plan, w, k) ==> Before(cfg, plan, w, k).Some?
    requires NeedsCopy(cfg, plan, w, k) ==> SourceReady(cfg, plan, w, k)
    modifies disk
    ensures StepsMidRun(cfg, plan, w, old(disk.history), disk.history)
    ensures MidRun(cfg, plan, w, disk.Now()) && disk.ledger == old(disk.ledger)
    ensures r.Ok? ==> SoFar(cfg, plan, w, done + {k}, None, disk.Now())
    ensures r.Ok? && NeedsCopy(cfg, plan, w, k) ==> SourceCopyable(plan, w, k)
    ensures r.Err? && disk.healthy ==> Hindered(cfg, plan, w, k)
  {
    ghost var past := disk.history;
    var pkg := plan.present[k];
    var target := TargetOf(cfg, plan, k);
    var source := Source(plan, Entries(disk.ledger), k);
    LstatMeans(disk.root, target);
    SoFarIsMidRun(cfg, plan, w, done, None, disk.Now());
    match Lstat(disk.root, target) {
      case NotFound =>
        NothingToDo(cfg, plan, w, done, disk.Now(), k);
        return Ok(());
      case Failed =>
        BlockedWasBlocked(cfg, plan, w, done, disk.Now(), k);
        return Err(Io);
      case Found(n) =>
        if !OwnLink(Some(n), source) {
          NothingToDo(cfg, plan, w, done, disk.Now(), k);
          return Ok(());
        }
    }
    ParentIsDir(disk.root, target);
    SlotParent(cfg, disk.root, pkg.kind, pkg.id);
    ghost var node := StoreNode(w.root, source).value;
    var aside := CopyAside(disk, cfg, plan, pkg.kind, source, node, w, done);
    if aside.Err? {
      SoFarIsMidRun(cfg, plan, w, done, None, disk.Now());
      return Err(aside.error);
    }
    ghost var steps := disk.history;
    r := SwapIn(disk, cfg, plan, k, aside.value, w, done);
    StepsJoin(cfg, plan, w, past, steps, disk.history);
  }

  /** The source of a needed copy is a directory of the store, outside the data. */
  predicate SourceReady(cfg: Config, plan: Plan, w: World, k: string)
    requires k in plan.present
  {
    StoreIsDir(w.root, Source(plan, Entries(w.ledger), k)) && Apart(cfg, Source(plan, Entries(w.ledger), k))
  }

  /** Why a package cannot be completed on a host where every operation works. */
  predicate Hindered(cfg: Config, plan: Plan, w: World, k: string)
    requires k in plan.present
  {
    Lstat(w.root, TargetOf(cfg, plan, k)).Failed?
    || (NeedsCopy(cfg, plan, w, k) && !SourceCopyable(plan, w, k))
  }

  /** `seed_if_missing`, for a package that is not recorded yet. */
  method SeedIfMissing(disk: Disk, cfg: Config, plan: Plan, k: string, ghost w: World, ghost done: set<string>)
    returns (r: Result<(), Error>)
    requires SoFar(cfg, plan, w, done, None, disk.Now())
    requires k in plan.present && k !in done && k !in Entries(w.ledger)
    requires NeedsCopy(cfg, plan, w, k) ==> SourceReady(cfg, plan, w, k)
    modifies disk
    ensures StepsMidRun(cfg, plan, w, old(disk.history), disk.history)
    ensures MidRun(cfg, plan, w, disk.Now()) && disk.ledger == old(disk.ledger)
    ensures r.Ok? ==> SoFar(cfg, plan, w, done + {k}, None, disk.Now())
    ensures r.Ok? && NeedsCopy(cfg, plan, w, k) ==> SourceCopyable(plan, w, k)
    ensures r.Err? && disk.healthy ==> Hindered(cfg, plan, w, k)
  {
    ghost var past := disk.history;
    var pkg := plan.present[k];
    var target := TargetOf(cfg, plan, k);
    LstatMeans(disk.root, target);
    SoFarIsMidRun(cfg, plan, w, done, None, disk.Now());
    match Lstat(disk.root, target) {
      case Found(n) =>
        if OwnLink(Some(n), pkg.storePath) {
          r := MaterializeLegacyLink(disk, cfg, plan, k, w, done);
        } else {
          NothingToDo(cfg, plan, w, done, disk.Now(), k);
          r := Ok(());
        }
        return;
      case Failed =>
        BlockedWasBlocked(cfg, plan, w, done, disk.Now(), k);
        return Err(Io);
      case NotFound =>
    }
    assert target[..|target| - 1] == Area(cfg, pkg.kind);
    assert Area(cfg, pkg.kind)[..0] == [];
    var made := MakeArea(disk, cfg, plan, pkg.kind, w, done);
    SoFarIsMidRun(cfg, plan, w, done, None, disk.Now());
    if !made { return Err(Io); }
    ghost var steps := disk.history;
    ghost var node := StoreNode(w.root, pkg.storePath).value;
    var aside := CopyAside(disk, cfg, plan, pkg.kind, pkg.storePath, node, w, done);
    StepsJoin(cfg, plan, w, past, steps, disk.history);
    SoFarIsMidRun(cfg, plan, w, done, None, disk.Now());
    if aside.Err? { return Err(aside.error); }
    // The source looks at the target once more here; under the lock it is still missing.
    var temp := Area(cfg, pkg.kind) + [aside.value];
    SlotParent(cfg, disk.root, pkg.kind, aside.value);
    SlotParent(cfg, disk.root, pkg.kind, pkg.id);
    steps := disk.history;
    ghost var was := disk.Now();
    var moved := disk.Rename(temp, target);
    if moved {
      InstallStep(cfg, plan, w, done, None, was, k, aside.value, done + {k});
      SoFarIsMidRun(cfg, plan, w, done + {k}, None, disk.Now());
      StepsOne(cfg, plan, w, steps, disk.Now());
      StepsJoin(cfg, plan, w, past, steps, disk.history);
      return Ok(());
    }
    GiveUp(disk, cfg, plan, pkg.kind, aside.value, past, w, done, None);
    return Err(Io);
  }

  // -------------------------------------------------------------------- a whole run

  /** The first loop of a run: every package is checked, and sorted by its state. */
  method Classify(root: Node, ps: seq<Package>) returns (r: Result<Plan, Error>)
    ensures r.Ok? <==> ManifestOk(root, ps)
    ensures r.Ok? ==> r.value == PlanOf(ps)
    ensures r.Err? ==> exists i :: 0 <= i < |ps| && FaultAt(root, ps, i) == Some(r.error)
                         && forall j :: 0 <= j < i ==> FaultAt(root, ps, j).None?
  {
    var declared: set<string> := {};
    var plan := Plan(map[], {});
    var i := 0;
    while i < |ps|
      invariant 0 <= i <= |ps|
      invariant forall j :: 0 <= j < i ==> FaultAt(root, ps, j).None?
      invariant declared == set j | 0 <= j < i :: KeyOf(ps[j])
      invariant plan == PlanOf(ps[..i])
    {
      var package := ps[i];
      var fault := PackageFault(root, package);
      if fault.Some? {
        NotOk(root, ps, i);
        return Err(fault.value);
      }
      var key := KeyOf(package);
      if key in declared {
        NotOk(root, ps, i);
        return Err(UnsafeId);
      }
      assert ps[..i + 1][..|ps[..i + 1]| - 1] == ps[..i];
      declared := declared + {key};
      if package.state == "present" {
        plan := plan.(present := plan.present[key := package]);
      } else {
        plan := plan.(absent := plan.absent + {key});
      }
      i := i + 1;
    }
    assert ps[..|ps|] == ps;
    NoFaultIsOk(root, ps);
    return Ok(plan);
  }

  lemma NotOk(root: Node, ps: seq<Package>, i: nat)
    requires i < |ps| && FaultAt(root, ps, i).Some?
    ensures !ManifestOk(root, ps)
  {
  }

  lemma NoFaultIsOk(root: Node, ps: seq<Package>)
    requires forall j :: 0 <= j < |ps| ==> FaultAt(root, ps, j).None?
    ensures ManifestOk(root, ps)
  {
    forall i | 0 <= i < |ps| ensures PackageFault(root, ps[i]).None? {
      assert FaultAt(root, ps, i).None?;
    }
    forall a, b | 0 <= a < b < |ps| ensures KeyOf(ps[a]) != KeyOf(ps[b]) {
      assert FaultAt(root, ps, b).None?;
    }
  }

  /** Every target is looked at before anything is changed. */
  method Preflight(disk: Disk, cfg: Config, plan: Plan) returns (r: Result<(), Error>)
    ensures r.Ok? <==> PreflightOk(cfg, plan, disk.Now())
    ensures r.Err? ==>
      exists k :: k in plan.present
        && TargetFault(disk.root, TargetOf(cfg, plan, k), Source(plan, Entries(disk.ledger), k)) == Some(r.error)
  {
    var todo := plan.present.Keys;
    while todo != {}
      invariant todo <= plan.present.Keys
      invariant forall k :: k in plan.present && k !in todo ==>
        TargetFault(disk.root, TargetOf(cfg, plan, k), Source(plan, Entries(disk.ledger), k)).None?
      decreases todo
    {
      var k :| k in todo;
      var fault := TargetFault(disk.root, TargetOf(cfg, plan, k), Source(plan, Entries(disk.ledger), k));
      if fault.Some? {
        return Err(fault.value);
      }
      todo := todo - {k};
    }
    return Ok(());
  }

  /** Preflight makes every needed source ready and leaves no target out of reach. */
  lemma PreflightReadies(cfg: Config, ps: seq<Package>, w: World, k: string)
    requires ManifestOk(w.root, ps) && PreflightOk(cfg, PlanOf(ps), w)
    requires StoreOutside(cfg, ps, Entries(w.ledger)) && k in PlanOf(ps).present
    ensures NeedsCopy(cfg, PlanOf(ps), w, k) ==> SourceReady(cfg, PlanOf(ps), w, k)
    ensures Hindered(cfg, PlanOf(ps), w, k) ==> NeedsCopy(cfg, PlanOf(ps), w, k) && !SourceCopyable(PlanOf(ps), w, k)
  {
    LstatMeans(w.root, TargetOf(cfg, PlanOf(ps), k));
    AcceptedPlan(w.root, ps);
  }

  /** Every needed source is ready, and only its contents can hinder a copy. */
  ghost predicate Readied(cfg: Config, plan: Plan, w: World)
  {
    forall k :: k in plan.present ==>
      (NeedsCopy(cfg, plan, w, k) ==> SourceReady(cfg, plan, w, k))
      && (Hindered(cfg, plan, w, k) ==> NeedsCopy(cfg, plan, w, k) && !SourceCopyable(plan, w, k))
  }

  lemma PreflightReadiesAll(cfg: Config, ps: seq<Package>, w: World)
    requires ManifestOk(w.root, ps) && PreflightOk(cfg, PlanOf(ps), w)
    requires StoreOutside(cfg, ps, Entries(w.ledger))
    ensures Readied(cfg, PlanOf(ps), w)
  {
    forall k | k in PlanOf(ps).present
      ensures NeedsCopy(cfg, PlanOf(ps), w, k) ==> SourceReady(cfg, PlanOf(ps), w, k)
      ensures Hindered(cfg, PlanOf(ps), w, k) ==> NeedsCopy(cfg, PlanOf(ps), w, k) && !SourceCopyable(PlanOf(ps), w, k)
    {
      PreflightReadies(cfg, ps, w, k);
    }
  }

  /** The ledger after the packages in `done`, before absent ones leave it. */
  function Grown(plan: Plan, previous: Ledger, done: set<string>): Ledger
    requires done <= plan.present.Keys
  {
    map k | k in previous.Keys + done :: if k in previous then previous[k] else ManagedOf(plan.present[k])
  }

  lemma GrownStep(plan: Plan, previous: Ledger, done: set<string>, k: string)
    requires done <= plan.present.Keys && k in plan.present
    ensures Grown(plan, previous, done + {k})
         == if k in previous then Grown(plan, previous, done)
            else Grown(plan, previous, done)[k := ManagedOf(plan.present[k])]
  {
  }

  /** Needed copies of the packages in `done` were possible. */
  ghost predicate CopiesDone(cfg: Config, plan: Plan, w: World, done: set<string>)
  {
    forall k :: k in done && k in plan.present && NeedsCopy(cfg, plan, w, k) ==> SourceCopyable(plan, w, k)
  }

  lemma AllPossible(cfg: Config, plan: Plan, w: World, done: set<string>)
    requires CopiesDone(cfg, plan, w, done) && done == plan.present.Keys
    ensures CopiesPossible(cfg, plan, w)
  {
  }

  lemma OneMoreDone(cfg: Config, plan: Plan, w: World, done: set<string>, k: string)
    requires CopiesDone(cfg, plan, w, done) && k in plan.present
    requires NeedsCopy(cfg, plan, w, k) ==> SourceCopyable(plan, w, k)
    ensures CopiesDone(cfg, plan, w, done + {k})
  {
  }

  /** One turn of the loop with the entry it adds to the ledger. */
  method SeedNext(disk: Disk, cfg: Config, plan: Plan, k: string, previous: Ledger, packages: Ledger,
                  ghost w: World, ghost done: set<string>, ghost past: seq<World>)
    returns (r: Result<Ledger, Error>)
    requires SoFar(cfg, plan, w, done, None, disk.Now()) && previous == Entries(w.ledger)
    requires Readied(cfg, plan, w) && k in plan.present && k !in done
    requires StepsMidRun(cfg, plan, w, past, disk.history)
    requires CopiesDone(cfg, plan, w, done) && packages == Grown(plan, previous, done)
    modifies disk
    ensures StepsMidRun(cfg, plan, w, past, disk.history)
    ensures MidRun(cfg, plan, w, disk.Now()) && disk.ledger == old(disk.ledger)
    ensures r.Ok? ==>
      SoFar(cfg, plan, w, done + {k}, None, disk.Now()) && CopiesDone(cfg, plan, w, done + {k})
      && r.value == Grown(plan, previous, done + {k})
    ensures r.Err? && disk.healthy ==> !CopiesPossible(cfg, plan, w)
  {
    var step := OnePackage(disk, cfg, plan, k, previous, w, done, past);
    if step.Err? { return Err(step.error); }
    OneMoreDone(cfg, plan, w, done, k);
    GrownStep(plan, previous, done, k);
    return Ok(if k in previous then packages else packages[k := ManagedOf(plan.present[k])]);
  }

  /** The second loop of a run: every present package in turn, in some order. */
  method SeedAll(disk: Disk, cfg: Config, plan: Plan, previous: Ledger, ghost w: World)
    returns (r: Result<Ledger, Error>)
    requires w == disk.Now() && previous == Entries(w.ledger)
    requires WellKeyed(plan) && Readied(cfg, plan, w)
    modifies disk
    ensures StepsMidRun(cfg, plan, w, old(disk.history), disk.history)
    ensures MidRun(cfg, plan, w, disk.Now()) && disk.ledger == w.ledger
    ensures r.Ok? ==> SoFar(cfg, plan, w, plan.present.Keys, None, disk.Now()) && CopiesPossible(cfg, plan, w)
    ensures r.Ok? ==> r.value == Grown(plan, previous, plan.present.Keys)
    ensures r.Err? && disk.healthy ==> !CopiesPossible(cfg, plan, w)
  {
    ghost var past := disk.history;
    var packages := previous;
    StartsSoFar(cfg, plan, w);
    var todo := plan.present.Keys;
    ghost var done: set<string> := {};
    assert packages == Grown(plan, previous, done);
    while todo != {}
      invariant todo <= plan.present.Keys && done == plan.present.Keys - todo
      invariant SoFar(cfg, plan, w, done, None, disk.Now())
      invariant StepsMidRun(cfg, plan, w, past, disk.history)
      invariant CopiesDone(cfg, plan, w, done)
      invariant packages == Grown(plan, previous, done)
      decreases todo
    {
      var k :| k in todo;
      var step: Result<Ledger, Error>;
      step := SeedNext(disk, cfg, plan, k, previous, packages, w, done, past);
      if step.Err? {
        return Err(step.error);
      }
      packages := step.value;
      todo := todo - {k};
      done := done + {k};
    }
    AllPossible(cfg, plan, w, done);
    SoFarIsMidRun(cfg, plan, w, done, None, disk.Now());
    return Ok(packages);
  }

  /** One turn of the loop: a recorded package may only lose its link, an
      unrecorded one is seeded. */
  method OnePackage(disk: Disk, cfg: Config, plan: Plan, k: string, previous: Ledger,
                    ghost w: World, ghost done: set<string>, ghost past: seq<World>)
    returns (r: Result<(), Error>)
    requires SoFar(cfg, plan, w, done, None, disk.Now()) && previous == Entries(w.ledger)
    requires Readied(cfg, plan, w) && k in plan.present && k !in done
    requires StepsMidRun(cfg, plan, w, past, disk.history)
    modifies disk
    ensures StepsMidRun(cfg, plan, w, past, disk.history)
    ensures MidRun(cfg, plan, w, disk.Now()) && disk.ledger == old(disk.ledger)
    ensures r.Ok? ==> SoFar(cfg, plan, w, done + {k}, None, disk.Now())
    ensures r.Ok? && NeedsCopy(cfg, plan, w, k) ==> SourceCopyable(plan, w, k)
    ensures r.Err? && disk.healthy ==> !CopiesPossible(cfg, plan, w)
  {
    ghost var steps := disk.history;
    if k in previous {
      r := MaterializeLegacyLink(disk, cfg, plan, k, w, done);
    } else {
      r := SeedIfMissing(disk, cfg, plan, k, w, done);
    }
    StepsJoin(cfg, plan, w, past, steps, disk.history);
  }

  /** The run ended with the complaint about the first bad or repeated package. */
  ghost predicate FirstFault(root: Node, ps: seq<Package>, r: Result<(), Error>)
  {
    r.Err? && exists i :: 0 <= i < |ps| && FaultAt(root, ps, i) == Some(r.error)
                && forall j :: 0 <= j < i ==> FaultAt(root, ps, j).None?
  }

  /** The run ended with the complaint about one of the targets. */
  ghost predicate SomeTargetFault(cfg: Config, plan: Plan, w: World, r: Result<(), Error>)
  {
    r.Err? && exists k :: k in plan.present
                && TargetFault(w.root, TargetOf(cfg, plan, k), Source(plan, Entries(w.ledger), k)) == Some(r.error)
  }

  /** `reconcile_locked`. */
  method ReconcileLocked(disk: Disk, cfg: Config, ps: seq<Package>, previous: Ledger)
    returns (r: Result<(), Error>)
    requires previous == Entries(disk.ledger) && StoreOutside(cfg, ps, previous)
    modifies disk
    ensures var w, plan := old(disk.Now()), PlanOf(ps);
      && StepsMidRun(cfg, plan, w, old(disk.history), disk.history)
      && MidRun(cfg, plan, w, disk.Now())
      && (!ManifestOk(w.root, ps) || !PreflightOk(cfg, plan, w) ==>
            r.Err? && disk.Now() == w && disk.history == old(disk.history))
      && (r.Ok? ==> Outcome(cfg, plan, w, disk.Now()))
      && (disk.healthy ==> (r.Ok? <==>
            ManifestOk(w.root, ps) && PreflightOk(cfg, plan, w) && CopiesPossible(cfg, plan, w)))
      && (!ManifestOk(w.root, ps) ==> FirstFault(w.root, ps, r))
      && (ManifestOk(w.root, ps) && !PreflightOk(cfg, plan, w) ==> SomeTargetFault(cfg, plan, w, r))
  {
    ghost var w, past := disk.Now(), disk.history;
    NotStarted(cfg, PlanOf(ps), w);
    var sorted := Classify(disk.root, ps);
    if sorted.Err? {
      return Err(sorted.error);
    }
    var plan := sorted.value;
    AcceptedPlan(w.root, ps);
    var checked := Preflight(disk, cfg, plan);
    if checked.Err? {
      return Err(checked.error);
    }
    PreflightReadiesAll(cfg, ps, w);
    var seeded := SeedAll(disk, cfg, plan, previous, w);
    if seeded.Err? {
      return Err(seeded.error);
    }
    ghost var steps := disk.history;
    r := WriteUp(disk, cfg, plan, previous, seeded.value, w);
    StepsJoin(cfg, plan, w, past, steps, disk.history);
  }

  /** The last loop and the atomic write of the ledger. */
  method WriteUp(disk: Disk, cfg: Config, plan: Plan, previous: Ledger, grown: Ledger, ghost w: World)
    returns (r: Result<(), Error>)
    requires SoFar(cfg, plan, w, plan.present.Keys, None, disk.Now())
    requires previous == Entries(w.ledger) && grown == Grown(plan, previous, plan.present.Keys)
    modifies disk
    ensures StepsMidRun(cfg, plan, w, old(disk.history), disk.history)
    ensures MidRun(cfg, plan, w, disk.Now())
    ensures r.Ok? ==> Outcome(cfg, plan, w, disk.Now())
    ensures disk.healthy ==> r.Ok?
  {
    var packages := RemoveAbsent(grown, plan.absent);
    assert packages == NextLedger(plan, previous);
    ghost var was, steps := disk.Now(), disk.history;
    var written := disk.WriteLedger(packages);
    AllSeeded(cfg, plan, w, was, written);
    StepsOne(cfg, plan, w, steps, disk.Now());
    return if written then Ok(()) else Err(Io);
  }

  lemma NotStarted(cfg: Config, plan: Plan, w: World)
    ensures MidRun(cfg, plan, w, w)
  {
  }

  /** Once every present package is finished, writing the ledger completes the run. */
  lemma AllSeeded(cfg: Config, plan: Plan, w: World, now: World, written: bool)
    requires SoFar(cfg, plan, w, plan.present.Keys, None, now)
    ensures var next := World(now.root, if written then Recorded(SCHEMA_VERSION, NextLedger(plan, Entries(w.ledger))) else w.ledger);
      MidRun(cfg, plan, w, next) && (written ==> Outcome(cfg, plan, w, next))
  {
    SoFarIsMidRun(cfg, plan, w, plan.present.Keys, None, now);
  }

  /** The third loop: absent packages leave the ledger. */
  method RemoveAbsent(packages: Ledger, absent: set<string>) returns (kept: Ledger)
    ensures kept == packages - absent
  {
    kept := packages;
    var todo := absent;
    while todo != {}
      invariant todo <= absent
      invariant kept == packages - (absent - todo)
      decreases todo
    {
      var name :| name in todo;
      kept := kept - {name};
      todo := todo - {name};
    }
  }

  /** `reconcile`: the schema, the state file, then the run itself. */
  method Reconcile(disk: Disk, cfg: Config, desired: Manifest) returns (r: Result<(), Error>)
    requires StoreOutside(cfg, desired.packages, Entries(disk.ledger))
    modifies disk
    ensures var w, plan := old(disk.Now()), PlanOf(desired.packages);
      && StepsMidRun(cfg, plan, w, old(disk.history), disk.history)
      && MidRun(cfg, plan, w, disk.Now())
      && (!Admissible(cfg, desired, w) ==> r.Err? && disk.Now() == w && disk.history == old(disk.history))
      && (r.Ok? ==> Outcome(cfg, plan, w, disk.Now()))
      && (disk.healthy ==> (r.Ok? <==> Admissible(cfg, desired, w) && CopiesPossible(cfg, plan, w)))
      && (desired.schemaVersion != 1 ==> r == Err(UnsafeId))
      && (desired.schemaVersion == 1 && w.ledger == Garbage ==> r == Err(StateInvalid))
      && (desired.schemaVersion == 1 && w.ledger.Recorded? && w.ledger.schemaVersion != 1 ==> r == Err(UnsafeId))
      && (desired.schemaVersion == 1 && Readable(w.ledger) && !ManifestOk(w.root, desired.packages) ==>
            FirstFault(w.root, desired.packages, r))
      && (desired.schemaVersion == 1 && Readable(w.ledger) && ManifestOk(w.root, desired.packages) ==>
            PreflightOk(cfg, plan, w) || SomeTargetFault(cfg, plan, w, r))
  {
    NotStarted(cfg, PlanOf(desired.packages), disk.Now());
    if desired.schemaVersion != SCHEMA_VERSION {
      return Err(UnsafeId);
    }
    if disk.ledger.Garbage? {
      return Err(StateInvalid);
    }
    if disk.ledger.Recorded? && disk.ledger.schemaVersion != SCHEMA_VERSION {
      return Err(UnsafeId);
    }
    r := ReconcileLocked(disk, cfg, desired.packages, Entries(disk.ledger));
  }
}
