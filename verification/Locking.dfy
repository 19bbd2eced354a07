/** Many reconcilers on one state file: any number of processes ask for the lock,
    read the ledger, work one file-system step at a time, write the ledger and
    let go, in every interleaving. */
module Locking {
  import opened Wrappers
  import opened Paths
  import opened Trees
  import opened Packages
  import opened Temps
  import opened Disks
  import opened Progress
  import opened Histories

  /** What a working process remembers. */
  datatype Local = Local(plan: Plan, previous: Ledger, done: set<string>, lost: Option<string>, link: string,
                         temps: set<(string, string)>, committed: bool)

  datatype Process = Idle | Waiting(plan: Plan) | Locked(plan: Plan) | Working(local: Local)

  /** The shared world and lock; `base` and `log` record the world when the lock was
      last taken and the finished sessions. */
  datatype System = System(world: World, processes: map<nat, Process>, holder: Option<nat>, base: World, log: seq<Event>)

  /** One file-system step of a working process. */
  datatype Move =
    | WriteTemp(kind: string, name: string, next: Node)
    | MakeDir(path: Path)
    | MoveAside(key: string, aside: string)
    | Install(key: string, temp: string)
    | PutBack(key: string, aside: string)
    | Pass(key: string)
    | Commit

  datatype Action =
    | Ask(who: nat, plan: Plan)
    | Acquire(who: nat)
    | Read(who: nat)
    | Work(who: nat, move: Move)
    | Release(who: nat)
    | Edit(root: Node)

  // -------------------------------------------------------------------- the steps

  /** The plan of an acceptable manifest, with its store outputs apart from the data. */
  predicate PlanOk(cfg: Config, plan: Plan)
  {
    WellKeyed(plan) && forall k :: k in plan.present ==> Apart(cfg, plan.present[k].storePath)
  }

  predicate LedgerOk(cfg: Config, ledger: Ledger)
  {
    forall k :: k in ledger ==> Apart(cfg, ledger[k].storePath)
  }

  function TempPath(cfg: Config, kind: string, name: string): Path
  {
    Area(cfg, kind) + [name]
  }

  /** A temporary entry of this process, or a name that is free now. */
  predicate MayUse(cfg: Config, l: Local, now: Node, kind: string, name: string)
  {
    ValidKind(kind) && TempName(name) && Key(kind, name) !in l.plan.present
    && ((kind, name) in l.temps || Get(now, TempPath(cfg, kind, name)).None?)
  }

  /** What a working process may do next, by what it remembers and sees now. */
  ghost predicate Allowed(cfg: Config, l: Local, now: World, move: Move)
  {
    !l.committed &&
    match move
    case WriteTemp(kind, name, next) =>
      MayUse(cfg, l, now.root, kind, name) && SlotOnly(now.root, next, TempPath(cfg, kind, name))
    case MakeDir(p) =>
      AboveAreas(cfg, p) && HasParent(now.root, p) && Get(now.root, p).None?
    case MoveAside(k, aside) =>
      k in l.plan.present && k !in l.done && l.lost.None?
      && OwnLink(Get(now.root, TargetOf(cfg, l.plan, k)), Source(l.plan, l.previous, k))
      && MayUse(cfg, l, now.root, l.plan.present[k].kind, aside)
      && IsDir(now.root, Area(cfg, l.plan.present[k].kind))
    case Install(k, temp) =>
      k in l.plan.present && k !in l.done
      && (l.lost == Some(k) || (l.lost.None? && k !in l.previous))
      && Get(now.root, TargetOf(cfg, l.plan, k)).None?
      && (l.plan.present[k].kind, temp) in l.temps && IsDir(now.root, Area(cfg, l.plan.present[k].kind))
      && Get(now.root, TempPath(cfg, l.plan.present[k].kind, temp)).Some?
      && Get(now.root, TempPath(cfg, l.plan.present[k].kind, temp)) == CopyFrom(now.root, Source(l.plan, l.previous, k))
    case PutBack(k, aside) =>
      l.lost == Some(k) && k in l.plan.present
      && (l.plan.present[k].kind, aside) in l.temps && IsDir(now.root, Area(cfg, l.plan.present[k].kind))
      && Get(now.root, TempPath(cfg, l.plan.present[k].kind, aside)) == Some(Link(l.link))
    case Pass(k) =>
      k in l.plan.present && k !in l.done && l.lost.None?
      && (var n := Get(now.root, TargetOf(cfg, l.plan, k));
          !OwnLink(n, Source(l.plan, l.previous, k)) && (n.None? ==> k in l.previous))
    case Commit => l.done == l.plan.present.Keys && l.lost.None?
  }

  ghost function Rename(t: Node, from: Path, to: Path): Node
    requires from != [] && Get(t, from).Some?
  {
    Put(Del(t, from), to, Get(t, from).value)
  }

  ghost function Moved(cfg: Config, l: Local, now: World, move: Move): (Local, World)
    requires Allowed(cfg, l, now, move)
  {
    match move
    case WriteTemp(kind, name, next) => (l.(temps := l.temps + {(kind, name)}), now.(root := next))
    case MakeDir(p) => (l, now.(root := Put(now.root, p, Dir(cfg.dirMode, map[]))))
    case MoveAside(k, aside) =>
      var t, kind := TargetOf(cfg, l.plan, k), l.plan.present[k].kind;
      (l.(lost := Some(k), link := Get(now.root, t).value.target, temps := l.temps + {(kind, aside)}),
       now.(root := Rename(now.root, t, TempPath(cfg, kind, aside))))
    case Install(k, temp) =>
      (l.(done := l.done + {k}, lost := None),
       now.(root := Rename(now.root, TempPath(cfg, l.plan.present[k].kind, temp), TargetOf(cfg, l.plan, k))))
    case PutBack(k, aside) =>
      (l.(lost := None),
       now.(root := Rename(now.root, TempPath(cfg, l.plan.present[k].kind, aside), TargetOf(cfg, l.plan, k))))
    case Pass(k) => (l.(done := l.done + {k}), now)
    case Commit =>
      (l.(committed := true), now.(ledger := Recorded(SCHEMA_VERSION, NextLedger(l.plan, l.previous))))
  }

  function Session(l: Local, before: World, after: World): Event
  {
    if l.committed then Ran(l.plan, before, after) else Stopped(l.plan, before, after)
  }

  ghost predicate Step(cfg: Config, s: System, a: Action, s': System)
  {
    match a
    case Ask(i, plan) =>
      i in s.processes && s.processes[i].Idle? && PlanOk(cfg, plan)
      && s' == s.(processes := s.processes[i := Waiting(plan)])
    case Acquire(i) =>
      i in s.processes && s.processes[i].Waiting? && s.holder.None?
      && s' == s.(processes := s.processes[i := Locked(s.processes[i].plan)], holder := Some(i), base := s.world)
    case Read(i) =>
      i in s.processes && s.processes[i].Locked?
      && s' == s.(processes := s.processes[i :=
           Working(Local(s.processes[i].plan, Entries(s.world.ledger), {}, None, "", {}, false))])
    case Work(i, move) =>
      i in s.processes && s.processes[i].Working? && Allowed(cfg, s.processes[i].local, s.world, move)
      && (var (l, w) := Moved(cfg, s.processes[i].local, s.world, move);
          s' == s.(processes := s.processes[i := Working(l)], world := w))
    case Release(i) =>
      i in s.processes && (s.processes[i].Locked? || s.processes[i].Working?)
      && s' == s.(processes := s.processes[i := Idle], holder := None,
                  log := s.log + [if s.processes[i].Working? then Session(s.processes[i].local, s.base, s.world)
                                  else Stopped(s.processes[i].plan, s.base, s.world)])
    case Edit(root) =>
      s.holder.None?
      && s' == s.(world := World(root, s.world.ledger), log := s.log + [Edited(s.world, World(root, s.world.ledger))])
  }

  ghost predicate Initial(cfg: Config, s: System)
  {
    s.holder.None? && s.log == [] && LedgerOk(cfg, Entries(s.world.ledger))
    && forall i :: i in s.processes ==> s.processes[i].Idle?
  }

  // ------------------------------------------------------------------- the invariant

  /** The process inside the lock has done a run of its plan on the world it found. */
  ghost predicate HolderFits(cfg: Config, p: Process, base: World, now: World)
  {
    match p
    case Locked(plan) => PlanOk(cfg, plan) && now == base
    case Working(l) =>
      PlanOk(cfg, l.plan) && l.previous == Entries(base.ledger)
      && (if l.committed then Outcome(cfg, l.plan, base, now)
          else SoFar(cfg, l.plan, base, l.done, l.lost, now) && TempsFresh(cfg, l, base)
               && (l.lost.Some? ==>
                     l.lost.value !in l.done
                     && Before(cfg, l.plan, base, l.lost.value) == Some(Link(l.link))))
    case _ => false
  }

  ghost predicate TempsFresh(cfg: Config, l: Local, base: World)
  {
    forall kind, name {:trigger (kind, name) in l.temps} :: (kind, name) in l.temps ==>
      ValidKind(kind) && TempName(name) && Key(kind, name) !in l.plan.present
      && Get(base.root, TempPath(cfg, kind, name)).None?
  }

  /** Only the holder is inside; its work fits the world it found; the finished
      sessions are one sequential history that ends in that world. */
  ghost predicate Good(cfg: Config, s: System)
  {
    && (forall i :: i in s.processes && (s.processes[i].Locked? || s.processes[i].Working?) ==> s.holder == Some(i))
    && (forall i :: i in s.processes && s.processes[i].Waiting? ==> PlanOk(cfg, s.processes[i].plan))
    && (s.holder.Some? ==>
          s.holder.value in s.processes && HolderFits(cfg, s.processes[s.holder.value], s.base, s.world))
    && Valid(cfg, s.log)
    && LedgerOk(cfg, Entries(s.world.ledger))
    && (s.log != [] ==> s.log[|s.log| - 1].after == Settled(s))
  }

  /** The world as the sessions finished so far left it. */
  function Settled(s: System): World
  {
    if s.holder.Some? then s.base else s.world
  }

  lemma InitialGood(cfg: Config, s: System)
    requires Initial(cfg, s)
    ensures Good(cfg, s)
  {
  }

  // ---------------------------------------------------------------- each move fits

  lemma ApartSame(cfg: Config, plan: Plan, before: Node, now: Node, source: string)
    requires Kept(cfg, plan, before, now) && Apart(cfg, source)
    ensures CopyFrom(now, source) == CopyFrom(before, source)
  {
    if StorePlace(source).Some? {
      var p := StorePlace(source).value;
      ApartPlace(cfg, plan, p);
      NotInArea(cfg, p);
      assert Get(now, p).Some? ==> Get(before, p).Some?;
    }
  }

  lemma NotInArea(cfg: Config, p: Path)
    requires !(cfg.data <= p)
    ensures !InArea(cfg, p)
  {
    if |p| > |cfg.data| + 2 { PrefixOfPrefix(cfg.data, p, |cfg.data| + 2); }
  }

  /** The name a process may use was free when it took the lock. */
  lemma UsableWasFree(cfg: Config, l: Local, base: World, now: World, kind: string, name: string)
    requires SoFar(cfg, l.plan, base, l.done, l.lost, now) && TempsFresh(cfg, l, base)
    requires MayUse(cfg, l, now.root, kind, name)
    ensures Get(base.root, TempPath(cfg, kind, name)).None?
  {
    if (kind, name) !in l.temps {
      FreshWasFree(cfg, l.plan, base, l.done, l.lost, now, kind, name);
    }
  }

  lemma MoveFits(cfg: Config, l: Local, base: World, now: World, move: Move)
    requires HolderFits(cfg, Working(l), base, now) && LedgerOk(cfg, Entries(base.ledger))
    requires Allowed(cfg, l, now, move)
    ensures var (l', now') := Moved(cfg, l, now, move); HolderFits(cfg, Working(l'), base, now')
  {
    match move
    case WriteTemp(kind, name, next) => WriteFits(cfg, l, base, now, kind, name, next);
    case MakeDir(p) => MkdirStep(cfg, l.plan, base, l.done, l.lost, now, p);
    case MoveAside(k, aside) => AsideFits(cfg, l, base, now, k, aside);
    case Install(k, temp) => InstallFits(cfg, l, base, now, k, temp);
    case PutBack(k, aside) => InstallStep(cfg, l.plan, base, l.done, l.lost, now, k, aside, l.done);
    case Pass(k) =>
      assert Before(cfg, l.plan, base, k) == Get(now.root, TargetOf(cfg, l.plan, k));
      NothingToDo(cfg, l.plan, base, l.done, now, k);
    case Commit => SoFarIsMidRun(cfg, l.plan, base, l.done, None, now);
  }

  lemma WriteFits(cfg: Config, l: Local, base: World, now: World, kind: string, name: string, next: Node)
    requires HolderFits(cfg, Working(l), base, now)
    requires Allowed(cfg, l, now, WriteTemp(kind, name, next))
    ensures var (l', now') := Moved(cfg, l, now, WriteTemp(kind, name, next)); HolderFits(cfg, Working(l'), base, now')
  {
    UsableWasFree(cfg, l, base, now, kind, name);
    TempStep(cfg, l.plan, base, l.done, l.lost, now, kind, name, next);
    OneMoreTemp(cfg, l, base, kind, name, Moved(cfg, l, now, WriteTemp(kind, name, next)).0);
  }

  lemma AsideFits(cfg: Config, l: Local, base: World, now: World, k: string, aside: string)
    requires HolderFits(cfg, Working(l), base, now)
    requires Allowed(cfg, l, now, MoveAside(k, aside))
    ensures var (l', now') := Moved(cfg, l, now, MoveAside(k, aside)); HolderFits(cfg, Working(l'), base, now')
  {
    assert Before(cfg, l.plan, base, k) == Get(now.root, TargetOf(cfg, l.plan, k));
    UsableWasFree(cfg, l, base, now, l.plan.present[k].kind, aside);
    DisplaceStep(cfg, l.plan, base, l.done, now, k, aside);
    OneMoreTemp(cfg, l, base, l.plan.present[k].kind, aside, Moved(cfg, l, now, MoveAside(k, aside)).0);
  }

  /** One more name that was free is one more temporary name. */
  lemma OneMoreTemp(cfg: Config, l: Local, base: World, kind: string, name: string, l': Local)
    requires TempsFresh(cfg, l, base) && l'.plan == l.plan && l'.temps == l.temps + {(kind, name)}
    requires ValidKind(kind) && TempName(name) && Key(kind, name) !in l.plan.present
    requires Get(base.root, TempPath(cfg, kind, name)).None?
    ensures TempsFresh(cfg, l', base)
  {
  }

  lemma InstallFits(cfg: Config, l: Local, base: World, now: World, k: string, temp: string)
    requires HolderFits(cfg, Working(l), base, now) && LedgerOk(cfg, Entries(base.ledger))
    requires Allowed(cfg, l, now, Install(k, temp))
    ensures var (l', now') := Moved(cfg, l, now, Install(k, temp)); HolderFits(cfg, Working(l'), base, now')
  {
    ApartSame(cfg, l.plan, base.root, now.root, Source(l.plan, l.previous, k));
    InstallStep(cfg, l.plan, base, l.done, l.lost, now, k, temp, l.done + {k});
  }

  // ------------------------------------------------------------ every step, every run

  lemma LedgerStaysOk(cfg: Config, plan: Plan, ledger: Ledger)
    requires PlanOk(cfg, plan) && LedgerOk(cfg, ledger)
    ensures LedgerOk(cfg, NextLedger(plan, ledger))
  {
  }

  lemma StepKeepsGood(cfg: Config, s: System, a: Action, s': System)
    requires Good(cfg, s) && Step(cfg, s, a, s')
    ensures Good(cfg, s')
    ensures s.log <= s'.log
  {
    match a
    case Ask(_, _) =>
    case Acquire(_) =>
    case Read(i) => StartsSoFar(cfg, s.processes[i].plan, s.base);
    case Work(i, move) => WorkKeepsGood(cfg, s, i, move, s');
    case Release(i) => ReleaseKeepsGood(cfg, s, i, s');
    case Edit(_) => AppendKeepsValid(cfg, s.log, s'.log[|s.log|], s.world);
  }

  lemma WorkKeepsGood(cfg: Config, s: System, i: nat, move: Move, s': System)
    requires Good(cfg, s) && Step(cfg, s, Work(i, move), s')
    ensures Good(cfg, s')
  {
    var l := s.processes[i].local;
    assert s.holder == Some(i);
    SameEntries(cfg, s);
    MoveFits(cfg, l, s.base, s.world, move);
    if move.Commit? { LedgerStaysOk(cfg, l.plan, l.previous); }
  }

  /** Until it commits, the holder leaves the ledger as it found it. */
  lemma SameEntries(cfg: Config, s: System)
    requires Good(cfg, s) && s.holder.Some?
    requires s.processes[s.holder.value].Working? && !s.processes[s.holder.value].local.committed
    ensures s.world.ledger == s.base.ledger
  {
  }

  lemma AppendKeepsValid(cfg: Config, log: seq<Event>, e: Event, from: World)
    requires Valid(cfg, log) && Possible(cfg, e) && e.before == from
    requires log != [] ==> log[|log| - 1].after == from
    ensures Valid(cfg, log + [e])
  {
  }

  lemma ReleaseKeepsGood(cfg: Config, s: System, i: nat, s': System)
    requires Good(cfg, s) && Step(cfg, s, Release(i), s')
    ensures Good(cfg, s')
  {
    assert s.holder == Some(i);
    var e := s'.log[|s.log|];
    if s.processes[i].Locked? {
      StartsSoFar(cfg, s.processes[i].plan, s.base);
      SoFarIsMidRun(cfg, s.processes[i].plan, s.base, {}, None, s.world);
    } else {
      var l := s.processes[i].local;
      if !l.committed { SoFarIsMidRun(cfg, l.plan, s.base, l.done, l.lost, s.world); }
    }
    assert Possible(cfg, e);
    AppendKeepsValid(cfg, s.log, e, s.base);
  }

  /** A run of the whole system. */
  ghost predicate Execution(cfg: Config, states: seq<System>, actions: seq<Action>)
  {
    |states| == |actions| + 1 && Initial(cfg, states[0])
    && forall n :: 0 <= n < |actions| ==> Step(cfg, states[n], actions[n], states[n + 1])
  }

  /** Every interleaving is a sequential history: the sessions finished so far, in the
      order they let go of the lock, form a valid history that starts in the initial
      world and ends in the present one, or in the one the holder found. */
  lemma {:induction false} SessionsSerialize(cfg: Config, states: seq<System>, actions: seq<Action>)
    requires Execution(cfg, states, actions)
    ensures var s := states[|actions|];
      && Good(cfg, s) && Valid(cfg, s.log)
      && (if s.log == [] then Settled(s) == states[0].world
          else s.log[0].before == states[0].world && s.log[|s.log| - 1].after == Settled(s))
    decreases |actions|
  {
    if actions == [] {
      InitialGood(cfg, states[0]);
    } else {
      var n := |actions| - 1;
      SessionsSerialize(cfg, states[..n + 1], actions[..n]);
      var s, s' := states[n], states[n + 1];
      assert Step(cfg, s, actions[n], s');
      StepKeepsGood(cfg, s, actions[n], s');
      FirstStays(cfg, s, actions[n], s');
    }
  }

  lemma FirstStays(cfg: Config, s: System, a: Action, s': System)
    requires Good(cfg, s) && Step(cfg, s, a, s')
    ensures s.log == [] && s'.log != [] ==> s'.log[0].before == Settled(s)
    ensures s.log == [] && s'.log == [] ==> Settled(s') == Settled(s)
  {
    if a.Acquire? { assert s.holder.None?; }
    if a.Work? { assert s.holder == Some(a.who); }
    if a.Release? { assert s.holder == Some(a.who); }
  }

  /** No ledger entry is ever lost or invented: with the lock free, the entry of each
      key is the one the committed sessions, in their serial order, call for. */
  lemma NoLostEntry(cfg: Config, states: seq<System>, actions: seq<Action>, k: string)
    requires Execution(cfg, states, actions) && states[|actions|].holder.None?
    ensures var s := states[|actions|];
      Entry(s.world, k) == Declared(Entry(states[0].world, k), Marks(cfg, s.log, k))
  {
    SessionsSerialize(cfg, states, actions);
    var s := states[|actions|];
    if s.log != [] {
      LedgerIsFold(cfg, s.log, k);
    } else {
      assert Marks(cfg, s.log, k) == [];
    }
  }

  /** At any moment, also in the middle of a session, what a user had when the lock was
      taken is untouched in the sense of a single run. */
  lemma AlwaysMidRun(cfg: Config, states: seq<System>, actions: seq<Action>)
    requires Execution(cfg, states, actions) && states[|actions|].holder.Some?
    ensures var s := states[|actions|];
      && s.holder.value in s.processes
      && match s.processes[s.holder.value]
         case Locked(plan) => s.world == s.base
         case Working(l) => MidRun(cfg, l.plan, s.base, s.world)
         case _ => false
  {
    SessionsSerialize(cfg, states, actions);
    var s := states[|actions|];
    var p := s.processes[s.holder.value];
    if p.Working? && !p.local.committed {
      SoFarIsMidRun(cfg, p.local.plan, s.base, p.local.done, p.local.lost, s.world);
    }
  }
}
