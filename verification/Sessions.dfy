/** The methods of the reconciler and the steps of the locking protocol, side by side:
    each kind of step a run makes is a move the protocol allows, and a whole run is one
    session of its log. */
module Sessions {
  import opened Wrappers
  import opened Paths
  import opened Trees
  import opened Packages
  import opened Temps
  import opened Disks
  import opened Progress
  import opened Convergence
  import opened Histories
  import opened Locking
  import Reconciler

  // ------------------------------------------------------------------ step by step

  /** Any step of a copy, and of its removal, is a write under a temporary name. */
  lemma TempStepIsMove(cfg: Config, l: Local, now: World, kind: string, name: string, next: Node)
    requires !l.committed && MayUse(cfg, l, now.root, kind, name)
    requires HasParent(now.root, TempPath(cfg, kind, name))
    requires OnlyAt(now.root, TempPath(cfg, kind, name), next)
    ensures Allowed(cfg, l, now, WriteTemp(kind, name, next))
    ensures Moved(cfg, l, now, WriteTemp(kind, name, next)).1 == World(next, now.ledger)
  {
    var p := TempPath(cfg, kind, name);
    if next == now.root {
      NothingWritten(now.root, p);
    } else {
      var n :| next == Put(now.root, p, n);
      PutSlot(now.root, p, n);
    }
  }

  lemma NothingWritten(t: Node, p: Path)
    requires HasParent(t, p)
    ensures SlotOnly(t, t, p)
  {
    forall q: Path | q < p ensures SameDir(Get(t, q), Get(t, q)) {
      var up := p[..|p| - 1];
      DirsAbove(t, up, |q|);
      assert q == p[..|q|] == up[..|q|];
    }
  }

  /** The first rename of a swap, under the conditions on which `MoveAside` makes it. */
  lemma AsideIsMove(cfg: Config, l: Local, base: World, now: World, k: string, aside: string)
    requires SoFar(cfg, l.plan, base, l.done, None, now) && !l.committed && l.lost.None? && l.previous == Entries(base.ledger)
    requires k in l.plan.present && k !in l.done
    requires OwnLink(Before(cfg, l.plan, base, k), Source(l.plan, l.previous, k))
    requires IsDir(now.root, Area(cfg, l.plan.present[k].kind)) && MayUse(cfg, l, now.root, l.plan.present[k].kind, aside)
    ensures Allowed(cfg, l, now, MoveAside(k, aside))
    ensures Moved(cfg, l, now, MoveAside(k, aside)).1
         == World(Put(Del(now.root, TargetOf(cfg, l.plan, k)), Area(cfg, l.plan.present[k].kind) + [aside],
                      Get(now.root, TargetOf(cfg, l.plan, k)).value), now.ledger)
  {
    assert Get(now.root, TargetOf(cfg, l.plan, k)) == Before(cfg, l.plan, base, k);
  }

  /** The finished copy takes its place, as `PutInPlace` and `SeedIfMissing` do it. */
  lemma InstallIsMove(cfg: Config, l: Local, base: World, now: World, k: string, temp: string)
    requires SoFar(cfg, l.plan, base, l.done, l.lost, now) && !l.committed && l.previous == Entries(base.ledger)
    requires PlanOk(cfg, l.plan) && LedgerOk(cfg, l.previous)
    requires k in l.plan.present && k !in l.done && NeedsCopy(cfg, l.plan, base, k)
    requires l.lost == Some(k) || (l.lost.None? && Before(cfg, l.plan, base, k).None?)
    requires (l.plan.present[k].kind, temp) in l.temps && IsDir(now.root, Area(cfg, l.plan.present[k].kind))
    requires Get(now.root, Area(cfg, l.plan.present[k].kind) + [temp]).Some?
    requires Get(now.root, Area(cfg, l.plan.present[k].kind) + [temp]) == After(cfg, l.plan, base, k)
    ensures Allowed(cfg, l, now, Install(k, temp))
    ensures Moved(cfg, l, now, Install(k, temp)).1
         == World(Put(Del(now.root, Area(cfg, l.plan.present[k].kind) + [temp]), TargetOf(cfg, l.plan, k),
                      After(cfg, l.plan, base, k).value), now.ledger)
  {
    ApartSame(cfg, l.plan, base.root, now.root, Source(l.plan, l.previous, k));
    assert Get(now.root, TargetOf(cfg, l.plan, k)) == Expect(cfg, l.plan, base, l.done, l.lost, k);
  }

  /** Putting the link back, as `PutBack` does it. */
  lemma BackIsMove(cfg: Config, l: Local, now: World, k: string, aside: string)
    requires !l.committed && l.lost == Some(k) && k in l.plan.present
    requires (l.plan.present[k].kind, aside) in l.temps && IsDir(now.root, Area(cfg, l.plan.present[k].kind))
    requires Get(now.root, Area(cfg, l.plan.present[k].kind) + [aside]) == Some(Link(l.link))
    ensures Allowed(cfg, l, now, PutBack(k, aside))
    ensures Moved(cfg, l, now, PutBack(k, aside)).1
         == World(Put(Del(now.root, Area(cfg, l.plan.present[k].kind) + [aside]), TargetOf(cfg, l.plan, k), Link(l.link)),
                  now.ledger)
  {
  }

  /** The write of the ledger, with the entries `WriteUp` computes. */
  lemma CommitIsMove(cfg: Config, l: Local, now: World, grown: Ledger)
    requires !l.committed && l.lost.None? && l.done == l.plan.present.Keys
    requires grown == Reconciler.Grown(l.plan, l.previous, l.plan.present.Keys)
    ensures Allowed(cfg, l, now, Commit)
    ensures Moved(cfg, l, now, Commit).1 == World(now.root, Recorded(SCHEMA_VERSION, grown - l.plan.absent))
  {
    assert grown - l.plan.absent == NextLedger(l.plan, l.previous);
  }

  // --------------------------------------------------------------------- a whole run

  /** The log goes on with one run, completed or stopped. */
  ghost predicate GoesOn(cfg: Config, log: seq<Event>, e: Event)
  {
    Valid(cfg, log + [e]) && (log == [] || log[|log| - 1].after == e.before)
  }

  /** `reconcile` with the lock held: an accepted run is one more session of the log, and
      at every step on the way the log could end with that session stopped there; a
      refused one leaves the world as the log has it. */
  method Session(disk: Disk, cfg: Config, desired: Manifest, ghost log: seq<Event>)
    returns (r: Result<(), Error>)
    requires StoreOutside(cfg, desired.packages, Entries(disk.ledger))
    requires Valid(cfg, log) && (log != [] ==> log[|log| - 1].after == disk.Now())
    modifies disk
    ensures |old(disk.history)| <= |disk.history| && disk.history[..|old(disk.history)|] == old(disk.history)
    ensures !Admissible(cfg, desired, old(disk.Now())) ==>
      r.Err? && disk.Now() == old(disk.Now()) && disk.history == old(disk.history)
    ensures var w, plan := old(disk.Now()), PlanOf(desired.packages);
      Admissible(cfg, desired, w) ==>
        && GoesOn(cfg, log, if r.Ok? then Ran(plan, w, disk.Now()) else Stopped(plan, w, disk.Now()))
        && forall i :: |old(disk.history)| <= i < |disk.history| ==>
             GoesOn(cfg, log, Stopped(plan, w, disk.history[i]))
  {
    ghost var w, plan, past := disk.Now(), PlanOf(desired.packages), disk.history;
    r := Reconciler.Reconcile(disk, cfg, desired);
    if Admissible(cfg, desired, w) {
      AcceptedPlan(w.root, desired.packages);
      OneMore(cfg, log, if r.Ok? then Ran(plan, w, disk.Now()) else Stopped(plan, w, disk.Now()), w);
      forall i | |past| <= i < |disk.history| ensures GoesOn(cfg, log, Stopped(plan, w, disk.history[i])) {
        OneMore(cfg, log, Stopped(plan, w, disk.history[i]), w);
      }
    }
  }

  lemma OneMore(cfg: Config, log: seq<Event>, e: Event, from: World)
    requires Valid(cfg, log) && Possible(cfg, e) && e.before == from
    requires log != [] ==> log[|log| - 1].after == from
    ensures GoesOn(cfg, log, e)
  {
    AppendKeepsValid(cfg, log, e, from);
  }
}
