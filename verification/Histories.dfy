/** Long histories of one data directory: completed runs, runs stopped at any
    point, and arbitrary edits by users in between. */
module Histories {
  import opened Wrappers
  import opened Paths
  import opened Trees
  import opened Packages
  import opened Temps
  import opened Disks
  import opened Progress
  import opened Convergence

  datatype Event =
    | Ran(plan: Plan, before: World, after: World)
    | Stopped(plan: Plan, before: World, after: World)
    | Edited(before: World, after: World)

  /** What each kind of event may do. */
  ghost predicate Possible(cfg: Config, e: Event)
  {
    match e
    case Ran(plan, before, after) => WellKeyed(plan) && Outcome(cfg, plan, before, after)
    case Stopped(plan, before, after) => WellKeyed(plan) && MidRun(cfg, plan, before, after)
    case Edited(before, after) => after.ledger == before.ledger
  }

  ghost predicate Valid(cfg: Config, h: seq<Event>)
  {
    && (forall i :: 0 <= i < |h| ==> Possible(cfg, h[i]))
    && (forall i :: 0 <= i < |h| - 1 ==> h[i + 1].before == h[i].after)
  }

  /** The event wrote the ledger of its plan: it completed, or was stopped after
      the write. */
  ghost predicate Commits(cfg: Config, e: Event)
  {
    !e.Edited? && Outcome(cfg, e.plan, e.before, e.after)
  }

  ghost predicate PresentAt(cfg: Config, e: Event, k: string)
  {
    Commits(cfg, e) && k in e.plan.present
  }

  ghost predicate AbsentAt(cfg: Config, e: Event, k: string)
  {
    Commits(cfg, e) && k in e.plan.absent
  }

  function Entry(w: World, k: string): Option<Managed>
  {
    if k in Entries(w.ledger) then Some(Entries(w.ledger)[k]) else None
  }

  /** What one event does to the ledger entry of `k`. */
  lemma EntryStep(cfg: Config, e: Event, k: string)
    requires Possible(cfg, e)
    ensures Entry(e.after, k) ==
      if AbsentAt(cfg, e, k) then None
      else if PresentAt(cfg, e, k) && Entry(e.before, k).None? then
        var p := e.plan.present[k];
        Some(Managed(p.kind, p.id, p.version, p.storePath))
      else Entry(e.before, k)
  {
    if !e.Edited? && !Commits(cfg, e) {
      assert e.after.ledger == e.before.ledger;
    }
  }

  // --------------------------------------------------------------- the ledger as a fold

  /** What one event says about a key. */
  datatype Mark = Silent | Absent | Present(entry: Managed)

  ghost function MarkOf(cfg: Config, e: Event, k: string): Mark
  {
    if AbsentAt(cfg, e, k) then Absent
    else if PresentAt(cfg, e, k) then Present(ManagedOf(e.plan.present[k]))
    else Silent
  }

  ghost function Marks(cfg: Config, h: seq<Event>, k: string): (ms: seq<Mark>)
    ensures |ms| == |h|
    ensures forall i :: 0 <= i < |h| ==> ms[i] == MarkOf(cfg, h[i], k)
  {
    seq(|h|, i requires 0 <= i < |h| => MarkOf(cfg, h[i], k))
  }

  /** The place of the last absent mark, or -1. */
  function LastAbsent(ms: seq<Mark>): (a: int)
    ensures -1 <= a < |ms| && (a >= 0 ==> ms[a].Absent?)
    ensures forall l :: a < l < |ms| ==> !ms[l].Absent?
  {
    if ms == [] then -1
    else if ms[|ms| - 1].Absent? then |ms| - 1
    else LastAbsent(ms[..|ms| - 1])
  }

  /** The place of the first present mark at or after `from`, or the length. */
  function FirstPresent(ms: seq<Mark>, from: nat): (i: nat)
    requires from <= |ms|
    ensures from <= i <= |ms| && (i < |ms| ==> ms[i].Present?)
    ensures forall l :: from <= l < i ==> !ms[l].Present?
    decreases |ms| - from
  {
    if from == |ms| || ms[from].Present? then from else FirstPresent(ms, from + 1)
  }

  /** The entry the declarations call for: the initial one if the key was never
      declared absent, otherwise, or if there was none, the first present entry
      since the last absent one. */
  function Declared(initial: Option<Managed>, ms: seq<Mark>): Option<Managed>
  {
    var a := LastAbsent(ms);
    var i := FirstPresent(ms, a + 1);
    if a < 0 && initial.Some? then initial
    else if i < |ms| then Some(ms[i].entry)
    else None
  }

  /** One more mark changes the entry called for the way one run changes the ledger. */
  lemma DeclaredStep(initial: Option<Managed>, ms: seq<Mark>, m: Mark)
    ensures Declared(initial, ms + [m]) ==
      match m
      case Absent => None
      case Silent => Declared(initial, ms)
      case Present(entry) => if Declared(initial, ms).None? then Some(entry) else Declared(initial, ms)
  {
    var more := ms + [m];
    assert more[..|more| - 1] == ms;
    var a := LastAbsent(ms);
    if !m.Absent? {
      assert LastAbsent(more) == a;
      FirstPresentGrows(ms, m, a + 1);
    }
  }

  lemma {:induction false} FirstPresentGrows(ms: seq<Mark>, m: Mark, from: nat)
    requires from <= |ms|
    ensures FirstPresent(ms + [m], from)
         == if FirstPresent(ms, from) < |ms| || m.Present? then FirstPresent(ms, from) else |ms| + 1
    decreases |ms| - from
  {
    var more := ms + [m];
    if from < |ms| {
      if !ms[from].Present? { FirstPresentGrows(ms, m, from + 1); }
    } else {
      assert more[from] == m;
      if !m.Present? { assert FirstPresent(more, from + 1) == |more|; }
    }
  }

  lemma MarksGrow(cfg: Config, h: seq<Event>, k: string)
    requires h != []
    ensures Marks(cfg, h, k) == Marks(cfg, h[..|h| - 1], k) + [MarkOf(cfg, h[|h| - 1], k)]
  {
  }

  /** The ledger entry of any key after any history is the one its declarations
      call for; neither user edits nor interrupted runs enter into it. */
  lemma {:induction false} LedgerIsFold(cfg: Config, h: seq<Event>, k: string)
    requires h != [] && Valid(cfg, h)
    ensures Entry(h[|h| - 1].after, k) == Declared(Entry(h[0].before, k), Marks(cfg, h, k))
    decreases |h|
  {
    var n := |h| - 1;
    var front := h[..n];
    var ms := Marks(cfg, front, k);
    MarksGrow(cfg, h, k);
    DeclaredStep(Entry(h[0].before, k), ms, MarkOf(cfg, h[n], k));
    EntryStep(cfg, h[n], k);
    if n > 0 {
      LedgerIsFold(cfg, front, k);
      assert h[n - 1 + 1].before == h[n - 1].after;
    } else {
      assert ms == [];
    }
  }

  /** In particular a key is recorded if and only if the last committed run naming
      it wants it present, or it was recorded at the start and never named absent. */
  lemma RecordedIffLastPresent(cfg: Config, h: seq<Event>, k: string)
    requires h != [] && Valid(cfg, h)
    ensures Entry(h[|h| - 1].after, k).Some? <==>
      (exists i :: 0 <= i < |h| && PresentAt(cfg, h[i], k) && NoAbsent(cfg, h, i, |h|, k))
      || (Entry(h[0].before, k).Some? && NoAbsent(cfg, h, 0, |h|, k))
  {
    LedgerIsFold(cfg, h, k);
    var ms := Marks(cfg, h, k);
    var a := LastAbsent(ms);
    var i := FirstPresent(ms, a + 1);
    forall l | 0 <= l < |h| ensures ms[l].Absent? <==> AbsentAt(cfg, h[l], k) {}
    if i < |ms| {
      assert ms[i].Present? && PresentAt(cfg, h[i], k);
      assert NoAbsent(cfg, h, i, |h|, k);
    }
    forall j | 0 <= j < |h| && PresentAt(cfg, h[j], k) && NoAbsent(cfg, h, j, |h|, k) ensures i < |ms| {
      assert !AbsentAt(cfg, h[j], k);
      assert ms[j].Present?;
      if a >= j { assert AbsentAt(cfg, h[a], k); }
    }
    if a >= 0 { assert AbsentAt(cfg, h[a], k); }
  }

  /** Whose entry it is: the initial one, never named absent since, or that of the committed
      run that wanted the package present when it was not recorded, with that run's kind,
      id, version and store path - and no later run named it absent. */
  lemma {:induction false} RecordedEntryIs(cfg: Config, h: seq<Event>, k: string)
    requires h != [] && Valid(cfg, h) && Entry(h[|h| - 1].after, k).Some?
    ensures var entry := Entry(h[|h| - 1].after, k).value;
      || (Entry(h[0].before, k) == Some(entry) && NoAbsent(cfg, h, 0, |h|, k))
      || exists i :: 0 <= i < |h| && RecordsFirst(cfg, h[i], k, entry) && NoAbsent(cfg, h, i, |h|, k)
    decreases |h|
  {
    var n := |h| - 1;
    var front, entry := h[..n], Entry(h[n].after, k).value;
    EntryStep(cfg, h[n], k);
    if Entry(h[n].before, k).None? {
      BothWays(cfg, h[n], k);
      assert RecordsFirst(cfg, h[n], k, entry);
    } else if n > 0 {
      assert h[n - 1 + 1].before == h[n - 1].after;
      RecordedEntryIs(cfg, front, k);
      if Entry(front[0].before, k) == Some(entry) && NoAbsent(cfg, front, 0, |front|, k) {
        LongerNoAbsent(cfg, h, 0, k);
      } else {
        var i :| 0 <= i < |front| && RecordsFirst(cfg, front[i], k, entry) && NoAbsent(cfg, front, i, |front|, k);
        assert RecordsFirst(cfg, h[i], k, entry);
        LongerNoAbsent(cfg, h, i, k);
      }
    }
  }

  /** A committed run that enters this package into the ledger. */
  ghost predicate RecordsFirst(cfg: Config, e: Event, k: string, entry: Managed)
  {
    PresentAt(cfg, e, k) && Entry(e.before, k).None?
    && var p := e.plan.present[k]; entry == Managed(p.kind, p.id, p.version, p.storePath)
  }

  lemma LongerNoAbsent(cfg: Config, h: seq<Event>, i: int, k: string)
    requires h != [] && NoAbsent(cfg, h[..|h| - 1], i, |h| - 1, k) && !AbsentAt(cfg, h[|h| - 1], k)
    ensures NoAbsent(cfg, h, i, |h|, k)
  {
    var front := h[..|h| - 1];
    forall l | 0 <= l < |h| && i <= l ensures !AbsentAt(cfg, h[l], k) {
      if l < |front| { assert front[l] == h[l]; }
    }
  }

  /** No committed event from `i` on, before `j`, names `k` absent. */
  ghost predicate NoAbsent(cfg: Config, h: seq<Event>, i: int, j: int, k: string)
  {
    forall l :: 0 <= l < |h| && i <= l < j ==> !AbsentAt(cfg, h[l], k)
  }

  /** No plan names a key both ways. */
  lemma BothWays(cfg: Config, e: Event, k: string)
    requires Possible(cfg, e)
    ensures !(PresentAt(cfg, e, k) && AbsentAt(cfg, e, k))
  {
  }

  // ------------------------------------------------------------------ seed at most once

  /** A run put something at the missing target of a declared package. */
  ghost predicate Fills(cfg: Config, e: Event, k: string)
  {
    !e.Edited? && k in e.plan.present
    && Before(cfg, e.plan, e.before, k).None? && Before(cfg, e.plan, e.after, k).Some?
  }

  /** No run, completed or stopped, fills the missing target of a recorded package. */
  lemma RecordedNeverFilled(cfg: Config, e: Event, k: string)
    requires Possible(cfg, e) && Entry(e.before, k).Some?
    ensures !Fills(cfg, e, k)
  {
    if !e.Edited? && k in e.plan.present {
      assert TargetMidway(cfg, e.plan, e.before, k, Before(cfg, e.plan, e.after, k));
    }
  }

  /** Once recorded, a key stays recorded until a committed run names it absent. */
  lemma {:induction false} StaysRecorded(cfg: Config, h: seq<Event>, i: nat, j: nat, k: string)
    requires Valid(cfg, h) && i < j < |h|
    requires Entry(h[i].after, k).Some? && NoAbsent(cfg, h, i + 1, j, k)
    ensures Entry(h[j].before, k).Some?
    decreases j
  {
    if j > i + 1 {
      StaysRecorded(cfg, h, i, j - 1, k);
      EntryStep(cfg, h[j - 1], k);
    }
    assert h[j - 1 + 1].before == h[j - 1].after;
  }

  /** Between two runs that fill the same target, the first of them recorded, some
      committed run names the package absent - whatever users do meanwhile. */
  lemma SeedAtMostOnce(cfg: Config, h: seq<Event>, k: string, i: nat, j: nat)
    requires Valid(cfg, h) && i < j < |h|
    requires Commits(cfg, h[i]) && Fills(cfg, h[i], k) && Fills(cfg, h[j], k)
    ensures exists l :: i < l < j && AbsentAt(cfg, h[l], k)
  {
    if NoAbsent(cfg, h, i + 1, j, k) {
      BothWays(cfg, h[i], k);
      EntryStep(cfg, h[i], k);
      StaysRecorded(cfg, h, i, j, k);
      RecordedNeverFilled(cfg, h[j], k);
    }
  }

  /** A completed run fills the target of a package it wants present exactly when it is
      missing, unrecorded, and there is something to copy. */
  lemma FillsExactly(cfg: Config, e: Event, k: string)
    requires Possible(cfg, e) && e.Ran? && k in e.plan.present
    ensures Fills(cfg, e, k) <==>
      Before(cfg, e.plan, e.before, k).None? && Entry(e.before, k).None?
      && StoreNode(e.before.root, e.plan.present[k].storePath).Some?
  {
    assert Before(cfg, e.plan, e.after, k) == After(cfg, e.plan, e.before, k);
  }

  /** Once named absent, a key stays unrecorded until a committed run wants it present. */
  lemma {:induction false} StaysUnrecorded(cfg: Config, h: seq<Event>, i: nat, j: nat, k: string)
    requires Valid(cfg, h) && i < j < |h| && AbsentAt(cfg, h[i], k)
    requires forall l :: i < l < j ==> !PresentAt(cfg, h[l], k)
    ensures Entry(h[j].before, k).None?
    decreases j
  {
    if j > i + 1 { StaysUnrecorded(cfg, h, i, j - 1, k); }
    EntryStep(cfg, h[j - 1], k);
    assert h[j - 1 + 1].before == h[j - 1].after;
  }

  /** After an absent declaration the next run that wants the package present and finds
      its target missing fills it again. */
  lemma RefilledAfterAbsent(cfg: Config, h: seq<Event>, i: nat, j: nat, k: string)
    requires Valid(cfg, h) && i < j < |h| && AbsentAt(cfg, h[i], k)
    requires forall l :: i < l < j ==> !PresentAt(cfg, h[l], k)
    requires h[j].Ran? && k in h[j].plan.present && Before(cfg, h[j].plan, h[j].before, k).None?
    requires StoreNode(h[j].before.root, h[j].plan.present[k].storePath).Some?
    ensures Fills(cfg, h[j], k)
    ensures Before(cfg, h[j].plan, h[j].after, k) == CopyFrom(h[j].before.root, h[j].plan.present[k].storePath)
  {
    StaysUnrecorded(cfg, h, i, j, k);
    FillsExactly(cfg, h[j], k);
  }

  /** One run does not fill a recorded, missing target; only if the id itself looks like a
      temporary name and the run does not declare it can something be left there. */
  lemma StillMissing(cfg: Config, e: Event, kind: string, id: string)
    requires Possible(cfg, e) && !e.Edited? && ValidKind(kind) && ValidId(id)
    requires Entry(e.before, Key(kind, id)).Some? && Get(e.before.root, Target(cfg, kind, id)).None?
    ensures Get(e.after.root, Target(cfg, kind, id)).Some? ==> TempName(id) && Key(kind, id) !in e.plan.present
  {
    var k, t := Key(kind, id), Target(cfg, kind, id);
    if k in e.plan.present {
      KeyInjective(e.plan.present[k].kind, e.plan.present[k].id, kind, id);
      RecordedNeverFilled(cfg, e, k);
    } else {
      SlotFacts(cfg, kind, id, t);
      assert !UnderTarget(cfg, e.plan, t);
      assert Get(e.after.root, t).Some? ==> UnderTemp(cfg, t);
    }
  }

  /** That exception is real: a run that does not declare such an id may stop with a
      temporary file of its own under that very name. */
  lemma TemporaryIdMayReappear(cfg: Config, plan: Plan, w: World, kind: string, id: string, n: Node)
    requires WellKeyed(plan) && ValidKind(kind) && TempName(id) && Key(kind, id) !in plan.present
    requires Get(w.root, Target(cfg, kind, id)).None? && IsDir(w.root, Area(cfg, kind))
    ensures var stopped := World(Put(w.root, Target(cfg, kind, id), n), w.ledger);
      Possible(cfg, Stopped(plan, w, stopped)) && Get(stopped.root, Target(cfg, kind, id)) == Some(n)
  {
    var t := Target(cfg, kind, id);
    SlotParent(cfg, w.root, kind, id);
    PutSlot(w.root, t, n);
    StartsSoFar(cfg, plan, w);
    TempStep(cfg, plan, w, {}, None, w, kind, id, Put(w.root, t, n));
    SoFarIsMidRun(cfg, plan, w, {}, None, World(Put(w.root, t, n), w.ledger));
  }

  /** A recorded target that a user deleted is still missing after every later run, as long
      as no committed run names it absent and users leave it deleted. An id that looks like
      a temporary name has to be declared by those runs. */
  lemma {:induction false} DeletedStaysDeleted(cfg: Config, h: seq<Event>, kind: string, id: string, i: nat, j: nat)
    requires Valid(cfg, h) && i <= j < |h| && ValidKind(kind) && ValidId(id)
    requires Entry(h[i].before, Key(kind, id)).Some? && Get(h[i].before.root, Target(cfg, kind, id)).None?
    requires NoAbsent(cfg, h, i, j + 1, Key(kind, id))
    requires TempName(id) ==> forall l :: i <= l <= j && !h[l].Edited? ==> Key(kind, id) in h[l].plan.present
    requires forall l :: i <= l <= j && h[l].Edited? ==> Get(h[l].after.root, Target(cfg, kind, id)).None?
    ensures Get(h[j].after.root, Target(cfg, kind, id)).None?
    ensures Entry(h[j].after, Key(kind, id)).Some?
    decreases j
  {
    if j > i {
      DeletedStaysDeleted(cfg, h, kind, id, i, j - 1);
      assert h[j - 1 + 1].before == h[j - 1].after;
    }
    EntryStep(cfg, h[j], Key(kind, id));
    if !h[j].Edited? { StillMissing(cfg, h[j], kind, id); }
  }

  // ------------------------------------------------------------------ what users own

  /** No run, of whatever plan, changes anything that is not a link. */
  lemma RunKeepsNode(cfg: Config, e: Event, q: Path)
    requires Possible(cfg, e) && !e.Edited? && !AboveAreas(cfg, q)
    requires Get(e.before.root, q).Some? && !Get(e.before.root, q).value.Link?
    ensures Get(e.after.root, q) == Get(e.before.root, q)
  {
    UserDataPreserved(cfg, e.plan, e.before, e.after, q);
  }

  /** A directory or file, at a target or anywhere below or beside one, is the same after
      any history of runs, completed or stopped, with whatever versions and store paths;
      only a user can change it. */
  lemma {:induction false} OnlyUsersChange(cfg: Config, h: seq<Event>, q: Path, i: nat, j: nat)
    requires Valid(cfg, h) && i <= j < |h| && !AboveAreas(cfg, q)
    requires Get(h[i].before.root, q).Some? && !Get(h[i].before.root, q).value.Link?
    requires forall l :: i <= l <= j && h[l].Edited? ==> Get(h[l].after.root, q) == Get(h[l].before.root, q)
    ensures Get(h[j].after.root, q) == Get(h[i].before.root, q)
    decreases j
  {
    if j > i {
      OnlyUsersChange(cfg, h, q, i, j - 1);
      assert h[j - 1 + 1].before == h[j - 1].after;
    }
    if !h[j].Edited? { RunKeepsNode(cfg, h[j], q); }
  }

  /** In particular a target that is a directory. */
  lemma TargetDirectoryKept(cfg: Config, h: seq<Event>, kind: string, id: string, i: nat, j: nat)
    requires Valid(cfg, h) && i <= j < |h| && ValidKind(kind) && IsDir(h[i].before.root, Target(cfg, kind, id))
    requires forall l :: i <= l <= j && h[l].Edited? ==>
      Get(h[l].after.root, Target(cfg, kind, id)) == Get(h[l].before.root, Target(cfg, kind, id))
    ensures Get(h[j].after.root, Target(cfg, kind, id)) == Get(h[i].before.root, Target(cfg, kind, id))
  {
    SlotFacts(cfg, kind, id, Target(cfg, kind, id));
    OnlyUsersChange(cfg, h, Target(cfg, kind, id), i, j);
  }
}
