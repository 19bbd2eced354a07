/** Concurrent login callbacks: row locks, deletes, commits, identity checks, session
    inserts, errors and restarts interleave freely. */
module Callbacks {
  import opened Wrappers
  import opened Logins

  /** How a callback ended. `Aborted` also covers a panic and a restart of the service. */
  datatype Ending = NoRow | Expired(at: Time) | Refused | Aborted | Welcome(hash: string)

  /** Where a callback is. From `Consumed` on it holds the login saved under a number,
      whose row is gone; `redeemed` is the instant at which it was found in time. */
  datatype Phase =
    | Waiting(state: string)
    | Locked(state: string, id: nat)
    | Deleted(state: string, id: nat)
    | Consumed(id: nat, row: TransactionRow)
    | Redeeming(id: nat, redeemed: Time)
    | Verified(id: nat, redeemed: Time, identity: Identity)
    | Ended(spent: Option<nat>, since: Option<Time>, ending: Ending)

  /** A session that was inserted, by which callback, for which login and for whom. */
  datatype Made = Made(hash: string, callback: nat, id: nat, principal: Principal)

  /** `saved` numbers every login ever saved; `ids` gives the number of each row that is
      still in the table; `holders` the row locks. */
  datatype System = System(tables: Tables, saved: seq<TransactionRow>, ids: map<string, nat>,
                           holders: map<string, nat>, callbacks: map<nat, Phase>, made: seq<Made>)

  datatype Action =
    | Save(tx: LoginTransaction, now: Time)
    | Arrive(who: nat, state: string)
    | Select(who: nat)
    | Miss(who: nat)
    | Delete(who: nat)
    | Commit(who: nat, acknowledged: bool)
    | Rollback(who: nat)
    | Check(who: nat, now: Time)
    | Complete(who: nat, identity: Option<Identity>)
    | Insert(who: nat, hash: string, now: Time, ttlSeconds: u64, acknowledged: bool)
    | Fail(who: nat)
    | SignOut(hash: string, now: Time)
    | Restart

  /** The login a callback has consumed. */
  function Spent(p: Phase): Option<nat>
  {
    match p
    case Consumed(id, _) => Some(id)
    case Redeeming(id, _) => Some(id)
    case Verified(id, _, _) => Some(id)
    case Ended(spent, _, _) => spent
    case _ => None
  }

  /** Since when the login counts as redeemed. */
  function RedeemedAt(p: Phase): Option<Time>
  {
    match p
    case Redeeming(_, at) => Some(at)
    case Verified(_, at, _) => Some(at)
    case Ended(_, since, _) => since
    case _ => None
  }

  /** The row a callback has locked. */
  function Holds(p: Phase): Option<(string, nat)>
  {
    match p
    case Locked(state, id) => Some((state, id))
    case Deleted(state, id) => Some((state, id))
    case _ => None
  }

  /** A callback that stops where it is. What it had not committed is rolled back. */
  function Stopped(p: Phase): Phase
  {
    if p.Ended? then p else Ended(Spent(p), RedeemedAt(p), Aborted)
  }

  function AfterCheck(p: Phase, now: Time): Phase
    requires p.Consumed?
  {
    if p.row.expiresAt <= now then Ended(Some(p.id), None, Expired(now)) else Redeeming(p.id, now)
  }

  /** The identity provider's answer, and the access group. */
  function AfterExchange(p: Phase, identity: Option<Identity>, accessGroup: string): Phase
    requires p.Redeeming?
  {
    if identity.Some? && accessGroup in identity.value.principal.groups
    then Verified(p.id, p.redeemed, identity.value)
    else Ended(Some(p.id), Some(p.redeemed), Refused)
  }

  datatype Config = Config(calendar: Calendar, accessGroup: string)

  ghost predicate Step(c: Config, s: System, a: Action, s': System)
  {
    match a
    case Save(tx, now) =>
      tx.csrfState !in s.tables.transactions
      && s' == s.(tables := WithTransaction(s.tables, tx, now), saved := s.saved + [NewRow(tx, now)],
                  ids := s.ids[tx.csrfState := |s.saved|])
    case Arrive(i, state) =>
      i !in s.callbacks && s' == s.(callbacks := s.callbacks[i := Waiting(state)])
    case Select(i) =>
      i in s.callbacks && s.callbacks[i].Waiting?
      && (var state := s.callbacks[i].state;
          && state in s.tables.transactions && state in s.ids && state !in s.holders
          && s' == s.(callbacks := s.callbacks[i := Locked(state, s.ids[state])], holders := s.holders[state := i]))
    case Miss(i) =>
      i in s.callbacks && s.callbacks[i].Waiting? && s.callbacks[i].state !in s.tables.transactions
      && s' == s.(callbacks := s.callbacks[i := Ended(None, None, NoRow)])
    case Delete(i) =>
      i in s.callbacks && s.callbacks[i].Locked?
      && s' == s.(callbacks := s.callbacks[i := Deleted(s.callbacks[i].state, s.callbacks[i].id)])
    case Commit(i, acknowledged) =>
      i in s.callbacks && s.callbacks[i].Deleted? && s.callbacks[i].state in s.tables.transactions
      && (var p := s.callbacks[i];
          var taken := Consumed(p.id, s.tables.transactions[p.state]);
          s' == s.(tables := WithoutTransaction(s.tables, p.state), ids := s.ids - {p.state},
                   holders := s.holders - {p.state},
                   callbacks := s.callbacks[i := if acknowledged then taken else Stopped(taken)]))
    case Rollback(i) =>
      i in s.callbacks && Holds(s.callbacks[i]).Some?
      && s' == s.(holders := s.holders - {Holds(s.callbacks[i]).value.0},
                  callbacks := s.callbacks[i := Stopped(s.callbacks[i])])
    case Check(i, now) =>
      i in s.callbacks && s.callbacks[i].Consumed?
      && s' == s.(callbacks := s.callbacks[i := AfterCheck(s.callbacks[i], now)])
    case Complete(i, identity) =>
      i in s.callbacks && s.callbacks[i].Redeeming?
      && s' == s.(callbacks := s.callbacks[i := AfterExchange(s.callbacks[i], identity, c.accessGroup)])
    case Insert(i, hash, now, ttl, acknowledged) =>
      i in s.callbacks && s.callbacks[i].Verified? && hash !in s.tables.sessions
      && (var p := s.callbacks[i];
          var expiry := Expiry(c.calendar, now, ttl, p.identity.expiresAt);
          && expiry.Some?
          && s' == s.(tables := WithSession(s.tables, p.identity.principal, hash, expiry.value),
                      made := s.made + [Made(hash, i, p.id, p.identity.principal)],
                      callbacks := s.callbacks[i :=
                        Ended(Some(p.id), Some(p.redeemed), if acknowledged then Welcome(hash) else Aborted)]))
    case Fail(i) =>
      i in s.callbacks && Holds(s.callbacks[i]).None?
      && s' == s.(callbacks := s.callbacks[i := Stopped(s.callbacks[i])])
    case SignOut(hash, now) => s' == s.(tables := Revoked(s.tables, hash, now))
    case Restart =>
      s' == s.(holders := map[], callbacks := map i | i in s.callbacks :: Stopped(s.callbacks[i]))
  }

  // --------------------------------------------------------------------- the invariant

  /** Numbers and rows belong together. */
  ghost predicate Numbered(s: System)
  {
    && s.ids.Keys == s.tables.transactions.Keys
    && (forall state :: state in s.ids ==>
          s.ids[state] < |s.saved| && s.tables.transactions[state] == s.saved[s.ids[state]])
    && (forall x, y :: x in s.ids && y in s.ids && s.ids[x] == s.ids[y] ==> x == y)
  }

  /** Locks and their holders belong together. */
  ghost predicate LocksFit(s: System)
  {
    && (forall i :: i in s.callbacks && Holds(s.callbacks[i]).Some? ==>
          var (state, id) := Holds(s.callbacks[i]).value;
          state in s.holders && s.holders[state] == i && state in s.ids && s.ids[state] == id)
  }

  predicate Outstanding(s: System, id: nat)
  {
    exists state :: state in s.ids && s.ids[state] == id
  }

  predicate SpentBy(s: System, id: nat, i: nat)
  {
    i in s.callbacks && Spent(s.callbacks[i]) == Some(id)
  }

  /** No login is in two places. */
  ghost predicate Apart(s: System)
  {
    && (forall i: nat, id: nat :: SpentBy(s, id, i) ==> id < |s.saved| && !Outstanding(s, id))
    && (forall i: nat, j: nat, id: nat :: SpentBy(s, id, i) && SpentBy(s, id, j) ==> i == j)
  }

  /** No login is lost. */
  ghost predicate Accounted(s: System)
  {
    forall id :: 0 <= id < |s.saved| ==> Outstanding(s, id) || exists i :: SpentBy(s, id, i)
  }

  /** A callback's own story is consistent. */
  ghost predicate Honest(saved: seq<TransactionRow>, p: Phase)
  {
    && (RedeemedAt(p).Some? ==> Spent(p).Some?)
    && (Spent(p).Some? ==>
          && Spent(p).value < |saved|
          && (RedeemedAt(p).Some? ==> RedeemedAt(p).value < saved[Spent(p).value].expiresAt)
          && (p.Consumed? ==> p.row == saved[p.id]))
    && (p.Ended? && p.ending.Expired? ==>
          p.spent.Some? && p.since.None? && saved[p.spent.value].expiresAt <= p.ending.at)
    && (p.Ended? && p.ending.Welcome? ==> p.since.Some?)
  }

  ghost predicate AllHonest(s: System)
  {
    forall i :: i in s.callbacks ==> Honest(s.saved, s.callbacks[i])
  }

  /** A session was made by a callback that had redeemed a login, and is done. */
  ghost predicate Backed(s: System, m: Made)
  {
    && m.callback in s.callbacks && m.hash in s.tables.sessions
    && (var p := s.callbacks[m.callback];
        p.Ended? && p.spent == Some(m.id) && p.since.Some? && (p.ending == Aborted || p.ending == Welcome(m.hash)))
  }

  ghost predicate AllBacked(s: System)
  {
    && (forall k :: 0 <= k < |s.made| ==> Backed(s, s.made[k]))
    && (forall k, l :: 0 <= k < l < |s.made| ==> s.made[k].callback != s.made[l].callback)
    && (forall i :: i in s.callbacks && s.callbacks[i].Ended? && s.callbacks[i].ending.Welcome? ==>
          Entered(s, s.callbacks[i].ending.hash, i))
    && (forall hash :: hash in s.tables.sessions ==> exists i :: Entered(s, hash, i))
  }

  ghost predicate Entered(s: System, hash: string, i: nat)
  {
    exists k :: 0 <= k < |s.made| && s.made[k].hash == hash && s.made[k].callback == i
  }

  ghost predicate Good(s: System)
  {
    Numbered(s) && LocksFit(s) && Apart(s) && Accounted(s) && AllHonest(s) && AllBacked(s)
  }

  ghost predicate Initial(s: System)
  {
    s == System(NO_ROWS, [], map[], map[], map[], [])
  }

  // -------------------------------------------------------------- steps and the places

  ghost predicate InPlace(s: System)
  {
    Numbered(s) && LocksFit(s) && Apart(s) && Accounted(s)
  }

  /** A step of one callback, old or new, that leaves rows, locks and logins where they
      are. */
  ghost predicate Inner(s: System, i: nat, p: Phase, s': System)
  {
    && s'.callbacks == s.callbacks[i := p]
    && s'.saved == s.saved && s'.ids == s.ids && s'.holders == s.holders
    && s'.tables.transactions == s.tables.transactions
    && Holds(p) == (if i in s.callbacks then Holds(s.callbacks[i]) else None)
    && Spent(p) == (if i in s.callbacks then Spent(s.callbacks[i]) else None)
  }

  /** Logins that are somewhere stay there. */
  lemma StillAccounted(s: System, s': System)
    requires Accounted(s) && |s'.saved| == |s.saved|
    requires forall id :: Outstanding(s, id) ==> Outstanding(s', id) || exists j :: SpentBy(s', id, j)
    requires forall id, j :: SpentBy(s, id, j) ==> SpentBy(s', id, j)
    ensures Accounted(s')
  {
    forall id | 0 <= id < |s'.saved| ensures Outstanding(s', id) || exists j :: SpentBy(s', id, j) {
      if !Outstanding(s, id) {
        var j :| SpentBy(s, id, j);
        assert SpentBy(s', id, j);
      }
    }
  }

  lemma InnerInPlace(s: System, i: nat, p: Phase, s': System)
    requires InPlace(s) && Inner(s, i, p, s')
    ensures InPlace(s')
  {
    forall id, j ensures SpentBy(s', id, j) == SpentBy(s, id, j) {}
    forall id ensures Outstanding(s', id) == Outstanding(s, id) {}
    StillAccounted(s, s');
  }

  /** Saving puts one new login into the table and moves no other. */
  lemma SaveMoves(c: Config, s: System, tx: LoginTransaction, now: Time, s': System)
    requires Numbered(s) && Step(c, s, Save(tx, now), s')
    ensures Outstanding(s', |s.saved|)
    ensures forall id :: id != |s.saved| ==> Outstanding(s', id) == Outstanding(s, id)
    ensures forall id, j :: SpentBy(s', id, j) == SpentBy(s, id, j)
  {
    var n := |s.saved|;
    assert s'.ids[tx.csrfState] == n;
    forall id | id != n && Outstanding(s, id) ensures Outstanding(s', id) {
      var state :| state in s.ids && s.ids[state] == id;
      assert state in s'.ids && s'.ids[state] == id;
    }
  }

  lemma SaveInPlace(c: Config, s: System, tx: LoginTransaction, now: Time, s': System)
    requires InPlace(s) && Step(c, s, Save(tx, now), s')
    ensures InPlace(s')
  {
    SaveMoves(c, s, tx, now, s');
    forall id | 0 <= id < |s'.saved| ensures Outstanding(s', id) || exists j :: SpentBy(s', id, j) {
      if id < |s.saved| && !Outstanding(s, id) {
        var j :| SpentBy(s, id, j);
        assert SpentBy(s', id, j);
      }
    }
  }

  lemma SelectInPlace(c: Config, s: System, i: nat, s': System)
    requires InPlace(s) && Step(c, s, Select(i), s')
    ensures InPlace(s')
  {
    forall id, j ensures SpentBy(s', id, j) == SpentBy(s, id, j) {}
    forall id ensures Outstanding(s', id) == Outstanding(s, id) {}
    StillAccounted(s, s');
  }

  lemma RollbackInPlace(c: Config, s: System, i: nat, s': System)
    requires InPlace(s) && Step(c, s, Rollback(i), s')
    ensures InPlace(s')
  {
    forall id, j ensures SpentBy(s', id, j) == SpentBy(s, id, j) {}
    forall id ensures Outstanding(s', id) == Outstanding(s, id) {}
    StillAccounted(s, s');
  }

  lemma RestartInPlace(c: Config, s: System, s': System)
    requires InPlace(s) && Step(c, s, Restart, s')
    ensures InPlace(s')
  {
    forall id, j ensures SpentBy(s', id, j) == SpentBy(s, id, j) {}
    forall id ensures Outstanding(s', id) == Outstanding(s, id) {}
    StillAccounted(s, s');
  }

  /** The commit moves one login from the table to one callback. */
  lemma CommitMoves(c: Config, s: System, i: nat, acknowledged: bool, s': System)
    requires InPlace(s) && Step(c, s, Commit(i, acknowledged), s')
    ensures var id := s.callbacks[i].id;
      && Outstanding(s, id) && !Outstanding(s', id)
      && (forall other :: other != id ==> Outstanding(s', other) == Outstanding(s, other))
      && SpentBy(s', id, i)
      && forall other, j :: j != i ==> SpentBy(s', other, j) == SpentBy(s, other, j)
  {
    var p := s.callbacks[i];
    assert Holds(p) == Some((p.state, p.id));
    assert s.ids[p.state] == p.id;
    forall other | other != p.id && Outstanding(s, other) ensures Outstanding(s', other) {
      var state :| state in s.ids && s.ids[state] == other;
      assert state in s'.ids && s'.ids[state] == other;
    }
  }

  lemma CommitInPlace(c: Config, s: System, i: nat, acknowledged: bool, s': System)
    requires InPlace(s) && Step(c, s, Commit(i, acknowledged), s')
    ensures InPlace(s')
  {
    CommitMoves(c, s, i, acknowledged, s');
    StillAccounted(s, s');
  }

  lemma StepInPlace(c: Config, s: System, a: Action, s': System)
    requires InPlace(s) && Step(c, s, a, s')
    ensures InPlace(s')
  {
    match a
    case Save(tx, now) => SaveInPlace(c, s, tx, now, s');
    case Select(i) => SelectInPlace(c, s, i, s');
    case Commit(i, acknowledged) => CommitInPlace(c, s, i, acknowledged, s');
    case Rollback(i) => RollbackInPlace(c, s, i, s');
    case Restart => RestartInPlace(c, s, s');
    case SignOut(hash, now) => SignOutInPlace(c, s, hash, now, s');
    case _ =>
      RestIsInner(c, s, a, s');
      InnerInPlace(s, a.who, s'.callbacks[a.who], s');
  }

  lemma SignOutInPlace(c: Config, s: System, hash: string, now: Time, s': System)
    requires InPlace(s) && Step(c, s, SignOut(hash, now), s')
    ensures InPlace(s')
  {
    forall id, j ensures SpentBy(s', id, j) == SpentBy(s, id, j) {}
    forall id ensures Outstanding(s', id) == Outstanding(s, id) {}
    StillAccounted(s, s');
  }

  lemma RestIsInner(c: Config, s: System, a: Action, s': System)
    requires Step(c, s, a, s') && !a.Save? && !a.Select? && !a.Commit? && !a.Rollback? && !a.Restart? && !a.SignOut?
    ensures a.who in s'.callbacks && Inner(s, a.who, s'.callbacks[a.who], s')
  {
  }

  // -------------------------------------------------------------- steps and the stories

  /** Whose phase a step may change; a restart stops them all. */
  predicate Concerns(a: Action, i: nat)
  {
    a.Restart? || (!a.Save? && !a.SignOut? && a.who == i)
  }

  lemma OthersUnchanged(c: Config, s: System, a: Action, s': System, i: nat)
    requires Step(c, s, a, s') && i in s.callbacks && !Concerns(a, i)
    ensures i in s'.callbacks && s'.callbacks[i] == s.callbacks[i]
  {
  }

  lemma SavedGrows(c: Config, s: System, a: Action, s': System)
    requires Step(c, s, a, s')
    ensures s.saved <= s'.saved
  {
  }

  lemma StoppedHonest(saved: seq<TransactionRow>, p: Phase)
    requires Honest(saved, p)
    ensures Honest(saved, Stopped(p))
  {
  }

  lemma HonestForLonger(saved: seq<TransactionRow>, more: seq<TransactionRow>, p: Phase)
    requires Honest(saved, p) && saved <= more
    ensures Honest(more, p)
  {
  }

  /** The row a callback consumes is the one that was saved under its number. */
  lemma ConsumedHonest(s: System, i: nat)
    requires Numbered(s) && LocksFit(s) && i in s.callbacks && s.callbacks[i].Deleted?
    requires s.callbacks[i].state in s.tables.transactions
    ensures Honest(s.saved, Consumed(s.callbacks[i].id, s.tables.transactions[s.callbacks[i].state]))
  {
    var p := s.callbacks[i];
    assert Holds(p) == Some((p.state, p.id));
    assert s.ids[p.state] == p.id;
  }

  lemma CheckedHonest(saved: seq<TransactionRow>, p: Phase, now: Time)
    requires p.Consumed? && Honest(saved, p)
    ensures Honest(saved, AfterCheck(p, now))
  {
  }

  lemma ExchangedHonest(saved: seq<TransactionRow>, p: Phase, identity: Option<Identity>, accessGroup: string)
    requires p.Redeeming? && Honest(saved, p)
    ensures Honest(saved, AfterExchange(p, identity, accessGroup))
  {
  }

  lemma StoryGoesOn(c: Config, s: System, a: Action, s': System, i: nat)
    requires Numbered(s) && LocksFit(s) && Step(c, s, a, s') && i in s.callbacks && Concerns(a, i)
    requires Honest(s.saved, s.callbacks[i])
    ensures i in s'.callbacks && Honest(s'.saved, s'.callbacks[i])
  {
    var p := s.callbacks[i];
    StoppedHonest(s.saved, p);
    match a
    case Commit(_, acknowledged) =>
      ConsumedHonest(s, i);
      StoppedHonest(s.saved, Consumed(p.id, s.tables.transactions[p.state]));
    case Check(_, now) => CheckedHonest(s.saved, p, now);
    case Complete(_, identity) => ExchangedHonest(s.saved, p, identity, c.accessGroup);
    case _ =>
  }

  lemma StepHonest(c: Config, s: System, a: Action, s': System)
    requires Numbered(s) && LocksFit(s) && AllHonest(s) && Step(c, s, a, s')
    ensures AllHonest(s')
  {
    SavedGrows(c, s, a, s');
    forall i | i in s'.callbacks ensures Honest(s'.saved, s'.callbacks[i]) {
      if i in s.callbacks {
        assert Honest(s.saved, s.callbacks[i]);
        if Concerns(a, i) {
          StoryGoesOn(c, s, a, s', i);
        } else {
          OthersUnchanged(c, s, a, s', i);
          HonestForLonger(s.saved, s'.saved, s.callbacks[i]);
        }
      }
    }
  }

  /** What has ended stays as it ended. */
  lemma EndedStays(c: Config, s: System, a: Action, s': System, i: nat)
    requires Step(c, s, a, s') && i in s.callbacks && s.callbacks[i].Ended?
    ensures i in s'.callbacks && s'.callbacks[i] == s.callbacks[i]
  {
  }

  lemma SessionsStay(c: Config, s: System, a: Action, s': System)
    requires Step(c, s, a, s')
    ensures s.tables.sessions.Keys <= s'.tables.sessions.Keys
    ensures s.made <= s'.made
    ensures !a.Insert? ==> s'.tables.sessions.Keys == s.tables.sessions.Keys && s'.made == s.made
  {
  }

  /** Only an insert welcomes. */
  lemma WelcomeIsNew(c: Config, s: System, a: Action, s': System, i: nat)
    requires Step(c, s, a, s') && i in s'.callbacks && s'.callbacks[i].Ended? && s'.callbacks[i].ending.Welcome?
    ensures (i in s.callbacks && s.callbacks[i] == s'.callbacks[i])
      || (a.Insert? && a.who == i && s'.callbacks[i].ending == Welcome(a.hash))
  {
  }

  lemma EnteredStays(s: System, s': System, hash: string, i: nat)
    requires Entered(s, hash, i) && s.made <= s'.made
    ensures Entered(s', hash, i)
  {
    var k :| 0 <= k < |s.made| && s.made[k].hash == hash && s.made[k].callback == i;
    assert s'.made[k] == s.made[k];
  }

  lemma BackedStays(c: Config, s: System, a: Action, s': System, m: Made)
    requires Backed(s, m) && Step(c, s, a, s')
    ensures Backed(s', m)
  {
    EndedStays(c, s, a, s', m.callback);
    SessionsStay(c, s, a, s');
  }

  /** A new session is backed by a callback that had made none. */
  lemma InsertBacked(c: Config, s: System, a: Action, s': System)
    requires AllBacked(s) && Step(c, s, a, s') && a.Insert?
    ensures |s'.made| == |s.made| + 1 && s.made <= s'.made
    ensures var m := s'.made[|s.made|];
      m.hash == a.hash && m.callback == a.who && Backed(s', m)
      && forall k :: 0 <= k < |s.made| ==> s.made[k].callback != a.who
    ensures s'.tables.sessions.Keys == s.tables.sessions.Keys + {a.hash}
  {
    forall k | 0 <= k < |s.made| ensures s.made[k].callback != a.who {
      assert Backed(s, s.made[k]);
    }
  }

  lemma MadeBacked(c: Config, s: System, a: Action, s': System)
    requires AllBacked(s) && Step(c, s, a, s')
    ensures forall k :: 0 <= k < |s'.made| ==> Backed(s', s'.made[k])
  {
    SessionsStay(c, s, a, s');
    if a.Insert? { InsertBacked(c, s, a, s'); }
    forall k | 0 <= k < |s'.made| ensures Backed(s', s'.made[k]) {
      if k < |s.made| { BackedStays(c, s, a, s', s.made[k]); }
    }
  }

  lemma MadeApart(c: Config, s: System, a: Action, s': System)
    requires AllBacked(s) && Step(c, s, a, s')
    ensures forall k, l :: 0 <= k < l < |s'.made| ==> s'.made[k].callback != s'.made[l].callback
  {
    SessionsStay(c, s, a, s');
    if a.Insert? { InsertBacked(c, s, a, s'); }
  }

  lemma StepBacked(c: Config, s: System, a: Action, s': System)
    requires AllBacked(s) && Step(c, s, a, s')
    ensures AllBacked(s')
  {
    SessionsStay(c, s, a, s');
    MadeBacked(c, s, a, s');
    MadeApart(c, s, a, s');
    if a.Insert? {
      InsertBacked(c, s, a, s');
      assert Entered(s', a.hash, a.who);
    }
    forall i | i in s'.callbacks && s'.callbacks[i].Ended? && s'.callbacks[i].ending.Welcome?
      ensures Entered(s', s'.callbacks[i].ending.hash, i)
    {
      WelcomeIsNew(c, s, a, s', i);
      if i in s.callbacks && s.callbacks[i] == s'.callbacks[i] {
        EnteredStays(s, s', s'.callbacks[i].ending.hash, i);
      }
    }
    forall hash | hash in s'.tables.sessions ensures exists i :: Entered(s', hash, i) {
      if hash in s.tables.sessions {
        var i :| Entered(s, hash, i);
        EnteredStays(s, s', hash, i);
      }
    }
  }

  lemma StepKeepsGood(c: Config, s: System, a: Action, s': System)
    requires Good(s) && Step(c, s, a, s')
    ensures Good(s')
  {
    StepInPlace(c, s, a, s');
    StepHonest(c, s, a, s');
    StepBacked(c, s, a, s');
  }

  // ------------------------------------------------------------------ the access group

  /** Whoever is about to get a session, or got one, is in the access group, and the
      session is that principal's. */
  ghost predicate AllVouched(c: Config, s: System)
  {
    && (forall i :: i in s.callbacks && s.callbacks[i].Verified? ==>
          c.accessGroup in s.callbacks[i].identity.principal.groups)
    && (forall k :: 0 <= k < |s.made| ==> VouchedFor(c, s, s.made[k]))
  }

  ghost predicate VouchedFor(c: Config, s: System, m: Made)
  {
    c.accessGroup in m.principal.groups
    && m.hash in s.tables.sessions && s.tables.sessions[m.hash].subject == m.principal.subject
  }

  lemma VerifiedIsNew(c: Config, s: System, a: Action, s': System, i: nat)
    requires Step(c, s, a, s') && i in s'.callbacks && s'.callbacks[i].Verified?
    ensures (i in s.callbacks && s.callbacks[i] == s'.callbacks[i])
      || c.accessGroup in s'.callbacks[i].identity.principal.groups
  {
  }

  lemma SubjectsStay(c: Config, s: System, a: Action, s': System, hash: string)
    requires Step(c, s, a, s') && hash in s.tables.sessions
    ensures hash in s'.tables.sessions && s'.tables.sessions[hash].subject == s.tables.sessions[hash].subject
  {
  }

  lemma StepVouched(c: Config, s: System, a: Action, s': System)
    requires AllVouched(c, s) && Step(c, s, a, s')
    ensures AllVouched(c, s')
  {
    SessionsStay(c, s, a, s');
    forall i | i in s'.callbacks && s'.callbacks[i].Verified?
      ensures c.accessGroup in s'.callbacks[i].identity.principal.groups
    {
      VerifiedIsNew(c, s, a, s', i);
    }
    forall k | 0 <= k < |s'.made| ensures VouchedFor(c, s', s'.made[k]) {
      if k < |s.made| {
        assert VouchedFor(c, s, s.made[k]);
        SubjectsStay(c, s, a, s', s.made[k].hash);
      } else {
        MadeIsVouched(c, s, a, s');
      }
    }
  }

  lemma MadeIsVouched(c: Config, s: System, a: Action, s': System)
    requires AllVouched(c, s) && Step(c, s, a, s') && |s'.made| > |s.made|
    ensures |s'.made| == |s.made| + 1 && VouchedFor(c, s', s'.made[|s.made|])
  {
  }

  // ------------------------------------------------------------------- every execution

  ghost predicate Execution(c: Config, states: seq<System>, actions: seq<Action>)
  {
    |states| == |actions| + 1 && Initial(states[0])
    && forall n :: 0 <= n < |actions| ==> Step(c, states[n], actions[n], states[n + 1])
  }

  lemma {:induction false} AlwaysGood(c: Config, states: seq<System>, actions: seq<Action>, n: nat)
    requires Execution(c, states, actions) && n <= |actions|
    ensures Good(states[n])
  {
    if n > 0 {
      AlwaysGood(c, states, actions, n - 1);
      StepKeepsGood(c, states[n - 1], actions[n - 1], states[n]);
    }
  }

  /** Conservation: whatever the interleaving, every saved login is in exactly one
      place: its row is still in the table, or exactly one callback has consumed it. */
  lemma EveryLoginInOnePlace(c: Config, states: seq<System>, actions: seq<Action>, n: nat, id: nat)
    requires Execution(c, states, actions) && n <= |actions| && id < |states[n].saved|
    ensures var s := states[n];
      && (Outstanding(s, id) <==> forall i :: !SpentBy(s, id, i))
      && (!Outstanding(s, id) ==> exists i :: SpentBy(s, id, i) && forall j :: SpentBy(s, id, j) ==> j == i)
  {
    AlwaysGood(c, states, actions, n);
    var s := states[n];
    if !Outstanding(s, id) {
      var i :| SpentBy(s, id, i);
      assert forall j :: SpentBy(s, id, j) ==> j == i;
    }
  }

  /** An expired login is consumed and never redeemed; only what was found in time is. */
  lemma RedeemedInTime(c: Config, states: seq<System>, actions: seq<Action>, n: nat, i: nat)
    requires Execution(c, states, actions) && n <= |actions| && i in states[n].callbacks
    ensures var s, p := states[n], states[n].callbacks[i];
      && (RedeemedAt(p).Some? ==>
            Spent(p).Some? && Spent(p).value < |s.saved| && RedeemedAt(p).value < s.saved[Spent(p).value].expiresAt)
      && (p.Ended? && p.ending.Expired? ==>
            p.spent.Some? && p.spent.value < |s.saved| && s.saved[p.spent.value].expiresAt <= p.ending.at
            && p.since.None?)
      && (p.Ended? && p.ending.Welcome? ==> p.since.Some? && Entered(s, p.ending.hash, i))
  {
    AlwaysGood(c, states, actions, n);
    assert Honest(states[n].saved, states[n].callbacks[i]);
  }

  /** Single use: two sessions come from two callbacks and two logins, each redeemed in
      time. */
  lemma OneSessionPerLogin(c: Config, states: seq<System>, actions: seq<Action>, n: nat, k: nat, l: nat)
    requires Execution(c, states, actions) && n <= |actions| && k < |states[n].made| && l < |states[n].made| && k != l
    ensures var s := states[n];
      && s.made[k].callback != s.made[l].callback && s.made[k].id != s.made[l].id
      && SpentBy(s, s.made[k].id, s.made[k].callback) && !Outstanding(s, s.made[k].id)
      && RedeemedAt(s.callbacks[s.made[k].callback]).Some?
  {
    AlwaysGood(c, states, actions, n);
    var s := states[n];
    assert Backed(s, s.made[k]) && Backed(s, s.made[l]);
    assert SpentBy(s, s.made[k].id, s.made[k].callback);
    assert SpentBy(s, s.made[l].id, s.made[l].callback);
    assert s.made[k].callback != s.made[l].callback;
  }

  lemma {:induction false} AlwaysVouched(c: Config, states: seq<System>, actions: seq<Action>, n: nat)
    requires Execution(c, states, actions) && n <= |actions|
    ensures AllVouched(c, states[n])
  {
    if n > 0 {
      AlwaysVouched(c, states, actions, n - 1);
      StepVouched(c, states[n - 1], actions[n - 1], states[n]);
    }
  }

  /** Whatever the interleaving, every session in the table was made for a principal the
      identity provider vouched for as a member of the access group, and is that one's. */
  lemma OnlyTheGroupGetsIn(c: Config, states: seq<System>, actions: seq<Action>, n: nat, hash: string)
    requires Execution(c, states, actions) && n <= |actions| && hash in states[n].tables.sessions
    ensures var s := states[n];
      exists k :: 0 <= k < |s.made| && s.made[k].hash == hash && c.accessGroup in s.made[k].principal.groups
        && s.tables.sessions[hash].subject == s.made[k].principal.subject
  {
    AlwaysGood(c, states, actions, n);
    AlwaysVouched(c, states, actions, n);
    var s := states[n];
    var i :| Entered(s, hash, i);
    var k :| 0 <= k < |s.made| && s.made[k].hash == hash && s.made[k].callback == i;
    assert VouchedFor(c, s, s.made[k]);
  }

  // ------------------------------------------------------------------------- the count

  /** The logins that were redeemed. */
  function RedeemedIds(s: System): set<nat>
  {
    set i | i in s.callbacks && RedeemedAt(s.callbacks[i]).Some? && Spent(s.callbacks[i]).Some?
      :: Spent(s.callbacks[i]).value
  }

  lemma {:induction false} DistinctCount(ids: seq<nat>, all: set<nat>)
    requires forall k, l :: 0 <= k < l < |ids| ==> ids[k] != ids[l]
    requires forall k :: 0 <= k < |ids| ==> ids[k] in all
    ensures |ids| <= |all|
    decreases |ids|
  {
    if ids != [] {
      var n := |ids| - 1;
      DistinctCount(ids[..n], all - {ids[n]});
    }
  }

  lemma {:induction false} RangeCount(all: set<nat>, n: nat)
    requires forall id :: id in all ==> id < n
    ensures |all| <= n
  {
    if n > 0 { RangeCount(all - {n - 1}, n - 1); }
    else { assert all == {}; }
  }

  /** Sessions never outnumber redeemed logins, and these never outnumber the logins
      that were saved and are no longer outstanding. */
  lemma SessionsNeverOutnumber(c: Config, states: seq<System>, actions: seq<Action>, n: nat)
    requires Execution(c, states, actions) && n <= |actions|
    ensures var s := states[n];
      |s.made| <= |RedeemedIds(s)| && |RedeemedIds(s)| + |s.ids| <= |s.saved|
  {
    AlwaysGood(c, states, actions, n);
    var s := states[n];
    MadeCount(s);
    PlacesCount(s);
  }

  lemma MadeCount(s: System)
    requires Good(s)
    ensures |s.made| <= |RedeemedIds(s)|
  {
    var ids := seq(|s.made|, k requires 0 <= k < |s.made| => s.made[k].id);
    forall k | 0 <= k < |s.made|
      ensures ids[k] in RedeemedIds(s) && SpentBy(s, ids[k], s.made[k].callback)
    {
      assert Backed(s, s.made[k]);
    }
    DistinctCount(ids, RedeemedIds(s));
  }

  lemma PlacesCount(s: System)
    requires Good(s)
    ensures |RedeemedIds(s)| + |s.ids| <= |s.saved|
  {
    var outstanding := set state | state in s.ids :: s.ids[state];
    ValuesCount(s.ids, outstanding);
    forall id | id in RedeemedIds(s) ensures id < |s.saved| && id !in outstanding {
      RedeemedIsSpent(s, id);
    }
    assert RedeemedIds(s) !! outstanding;
    RangeCount(RedeemedIds(s) + outstanding, |s.saved|);
  }

  lemma RedeemedIsSpent(s: System, id: nat)
    requires Apart(s) && id in RedeemedIds(s)
    ensures id < |s.saved| && !Outstanding(s, id)
  {
    var i :| i in s.callbacks && RedeemedAt(s.callbacks[i]).Some? && Spent(s.callbacks[i]) == Some(id);
    assert SpentBy(s, id, i);
  }

  lemma {:induction false} ValuesCount(ids: map<string, nat>, all: set<nat>)
    requires forall x, y :: x in ids && y in ids && ids[x] == ids[y] ==> x == y
    requires forall state :: state in ids ==> ids[state] in all
    ensures |ids| <= |all|
    decreases |ids|
  {
    if ids.Keys != {} {
      var state :| state in ids.Keys;
      var rest := ids - {state};
      assert rest.Keys == ids.Keys - {state};
      ValuesCount(rest, all - {ids[state]});
    }
  }
}
