/** Login transactions and sessions: the tables, the operations on them, and how long
    a session lives over any run of them. */
module Logins {
  import opened Wrappers

  /** Microseconds since 1970, the resolution of the database. */
  type Time = int

  const SECOND: int := 1000000
  const TEN_MINUTES: int := 600 * SECOND
  const TWELVE_HOURS: int := 43200 * SECOND

  /** The longest duration the time library represents, in whole seconds. */
  const MAX_DURATION_SECONDS: nat := 9223372036854775

  const TWO_TO_THE_63: nat := 0x8000_0000_0000_0000

  type u64 = n: nat | n < 2 * TWO_TO_THE_63 witness 0

  /** The seconds between which the time library can represent an instant. */
  datatype Calendar = Calendar(first: int, last: int)

  datatype LoginTransaction = LoginTransaction(csrfState: string, pkceVerifier: string, nonce: string,
                                               issuedAt: nat, returnTo: Option<string>)

  datatype Principal = Principal(subject: string, issuer: string, displayName: Option<string>,
                                 email: Option<string>, groups: seq<string>)

  /** What the identity provider vouches for, with the token's own expiry claim. */
  datatype Identity = Identity(principal: Principal, expiresAt: Option<u64>)

  datatype TransactionRow = TransactionRow(codeVerifier: string, nonce: string, returnTo: Option<string>, expiresAt: Time)

  datatype SessionRow = SessionRow(subject: string, expiresAt: Time, revokedAt: Option<Time>)

  /** The three tables, each under its unique key: state, subject, token hash. */
  datatype Tables = Tables(transactions: map<string, TransactionRow>, principals: map<string, Principal>,
                           sessions: map<string, SessionRow>)

  const NO_ROWS := Tables(map[], map[], map[])

  // --------------------------------------------------------------------------- expiry

  /** `timestamp as i64`. */
  function AsI64(n: u64): int
  {
    if n < TWO_TO_THE_63 then n else n - 2 * TWO_TO_THE_63
  }

  /** The instant of an expiry claim, if the calendar has it. */
  function ClaimedExpiry(calendar: Calendar, claim: Option<u64>): Option<Time>
  {
    if claim.Some? && calendar.first <= AsI64(claim.value) <= calendar.last
    then Some(AsI64(claim.value) * SECOND) else None
  }

  /** Now plus the configured lifetime, twelve hours where that is too long to be a
      duration; nothing where the sum leaves the calendar and the service panics. */
  function ConfiguredExpiry(calendar: Calendar, now: Time, ttlSeconds: u64): Option<Time>
  {
    var expiry := now + if ttlSeconds <= MAX_DURATION_SECONDS then ttlSeconds * SECOND else TWELVE_HOURS;
    if expiry < (calendar.last + 1) * SECOND then Some(expiry) else None
  }

  function Expiry(calendar: Calendar, now: Time, ttlSeconds: u64, claim: Option<u64>): Option<Time>
  {
    match ConfiguredExpiry(calendar, now, ttlSeconds)
    case None => None
    case Some(configured) =>
      match ClaimedExpiry(calendar, claim)
      case None => Some(configured)
      case Some(claimed) => Some(if claimed < configured then claimed else configured)
  }

  /** The instant a claim stands for, in microseconds: the 64-bit number read as signed,
      where the calendar has it. */
  predicate ClaimsEnd(calendar: Calendar, claim: Option<u64>, end: Time)
  {
    claim.Some?
    && var seconds: int :=
         if claim.value < 9223372036854775808 then claim.value else claim.value - 18446744073709551616;
       calendar.first <= seconds <= calendar.last && end == seconds * 1000000
  }

  /** How long a session is configured to live, in microseconds. */
  function Lifetime(ttlSeconds: u64): nat
  {
    if ttlSeconds <= 9223372036854775 then ttlSeconds * 1000000 else 43200000000
  }

  /** An instant is before the configured limit, and before the claimed one if there is one. */
  ghost predicate BeforeEnd(calendar: Calendar, now: Time, ttlSeconds: u64, claim: Option<u64>, later: Time)
  {
    later < now + Lifetime(ttlSeconds) && forall end :: ClaimsEnd(calendar, claim, end) ==> later < end
  }

  /** When a session ends, in numbers: there is an end exactly when the configured limit is
      inside the calendar, and the session lives exactly until the first of the two limits. */
  lemma ExpiryExactly(calendar: Calendar, now: Time, ttlSeconds: u64, claim: Option<u64>, later: Time)
    ensures var e := Expiry(calendar, now, ttlSeconds, claim);
      && (e.None? <==> now + Lifetime(ttlSeconds) >= (calendar.last + 1) * 1000000)
      && (e.Some? ==> (later < e.value <==> BeforeEnd(calendar, now, ttlSeconds, claim, later)))
  {
    if ClaimedExpiry(calendar, claim).Some? {
      assert ClaimsEnd(calendar, claim, ClaimedExpiry(calendar, claim).value);
    }
  }

  /** The common case in plain numbers: a claim below 2^63 that the calendar has, and a
      lifetime that is a duration. */
  lemma PlainEnd(calendar: Calendar, now: Time, ttlSeconds: u64, n: u64, later: Time)
    requires n < 0x8000_0000_0000_0000 && ttlSeconds <= 9223372036854775
    ensures calendar.first <= n <= calendar.last ==>
      (BeforeEnd(calendar, now, ttlSeconds, Some(n), later) <==>
        later < now + ttlSeconds * 1000000 && later < n * 1000000)
    ensures !(calendar.first <= n <= calendar.last) ==>
      (BeforeEnd(calendar, now, ttlSeconds, Some(n), later) <==> later < now + ttlSeconds * 1000000)
    ensures BeforeEnd(calendar, now, ttlSeconds, None, later) <==> later < now + ttlSeconds * 1000000
  {
    if calendar.first <= n <= calendar.last { assert ClaimsEnd(calendar, Some(n), n * 1000000); }
  }

  // ----------------------------------------------------------------- effects on tables

  function NewRow(tx: LoginTransaction, now: Time): TransactionRow
  {
    TransactionRow(tx.pkceVerifier, tx.nonce, tx.returnTo, now + TEN_MINUTES)
  }

  function WithTransaction(t: Tables, tx: LoginTransaction, now: Time): Tables
  {
    t.(transactions := t.transactions[tx.csrfState := NewRow(tx, now)])
  }

  function WithoutTransaction(t: Tables, state: string): Tables
  {
    t.(transactions := t.transactions - {state})
  }

  function WithSession(t: Tables, p: Principal, hash: string, expiresAt: Time): Tables
  {
    t.(principals := t.principals[p.subject := p],
       sessions := t.sessions[hash := SessionRow(p.subject, expiresAt, None)])
  }

  function Revoked(t: Tables, hash: string, now: Time): Tables
  {
    if hash in t.sessions then t.(sessions := t.sessions[hash := t.sessions[hash].(revokedAt := Some(now))]) else t
  }

  /** The transaction a row gives back. */
  function Restored(state: string, row: TransactionRow): LoginTransaction
  {
    var seconds := (row.expiresAt - TEN_MINUTES) / SECOND;
    LoginTransaction(state, row.codeVerifier, row.nonce, if seconds < 0 then 0 else seconds, row.returnTo)
  }

  /** Sessions belong to principals that exist. */
  predicate Referenced(t: Tables)
  {
    forall hash :: hash in t.sessions ==> t.sessions[hash].subject in t.principals
  }

  /** The principal a token stands for. */
  function Resolve(t: Tables, hash: string, now: Time): Option<Principal>
  {
    if hash in t.sessions && t.sessions[hash].subject in t.principals
       && t.sessions[hash].revokedAt.None? && t.sessions[hash].expiresAt > now
    then Some(t.principals[t.sessions[hash].subject]) else None
  }

  /** What a saved and taken transaction still is: the same login, with the second it
      was saved in as its time of issue. */
  lemma SavedThenRestored(tx: LoginTransaction, now: Time)
    requires now >= 0
    ensures Restored(tx.csrfState, NewRow(tx, now)) == tx.(issuedAt := now / 1000000)
  {
  }

  // ------------------------------------------------------------------ every run of them

  /** An operation that was committed, acknowledged or not. A login carries the reading
      of the service's clock and the lifetime it was configured with. */
  datatype Operation =
    | Started(tx: LoginTransaction, at: Time)
    | Taken(state: string)
    | SignedIn(identity: Identity, hash: string, now: Time, ttlSeconds: u64)
    | SignedOut(hash: string, at: Time)

  function Applied(calendar: Calendar, t: Tables, op: Operation): Tables
  {
    match op
    case Started(tx, at) => if tx.csrfState in t.transactions then t else WithTransaction(t, tx, at)
    case Taken(state) => WithoutTransaction(t, state)
    case SignedIn(identity, hash, now, ttl) =>
      var expiry := Expiry(calendar, now, ttl, identity.expiresAt);
      if expiry.None? || hash in t.sessions then t else WithSession(t, identity.principal, hash, expiry.value)
    case SignedOut(hash, at) => Revoked(t, hash, at)
  }

  function Run(calendar: Calendar, ops: seq<Operation>): Tables
  {
    if ops == [] then NO_ROWS else Applied(calendar, Run(calendar, ops[..|ops| - 1]), ops[|ops| - 1])
  }

  lemma RunOneMore(calendar: Calendar, ops: seq<Operation>, op: Operation)
    ensures Run(calendar, ops + [op]) == Applied(calendar, Run(calendar, ops), op)
  {
    assert (ops + [op])[..|ops + [op]| - 1] == ops;
  }

  /** When a sign-in's session ends. */
  function EndOf(calendar: Calendar, op: Operation): Option<Time>
  {
    if op.SignedIn? then Expiry(calendar, op.now, op.ttlSeconds, op.identity.expiresAt) else None
  }

  /** The sign-in that made the session of a token: the first that could. */
  function Maker(calendar: Calendar, ops: seq<Operation>, hash: string): (k: Option<nat>)
    ensures k.Some? ==>
      k.value < |ops| && ops[k.value].SignedIn? && ops[k.value].hash == hash && EndOf(calendar, ops[k.value]).Some?
  {
    if ops == [] then None
    else
      var n := |ops| - 1;
      var earlier := Maker(calendar, ops[..n], hash);
      if earlier.Some? then earlier
      else if ops[n].SignedIn? && ops[n].hash == hash && EndOf(calendar, ops[n]).Some? then Some(n) else None
  }

  predicate Out(op: Operation, hash: string)
  {
    op.SignedOut? && op.hash == hash
  }

  /** The token was signed out after that. */
  predicate OutSince(ops: seq<Operation>, hash: string, k: nat)
  {
    exists j :: k < j < |ops| && Out(ops[j], hash)
  }

  /** The last sign-in of a subject that made a session. */
  function LastSeen(calendar: Calendar, ops: seq<Operation>, subject: string): (p: Option<Principal>)
  {
    if ops == [] then None
    else
      var n := |ops| - 1;
      if EndOf(calendar, ops[n]).Some? && ops[n].identity.principal.subject == subject
         && Maker(calendar, ops[..n], ops[n].hash).None?
      then Some(ops[n].identity.principal)
      else LastSeen(calendar, ops[..n], subject)
  }

  /** The sessions table after any run, row by row. */
  lemma {:induction false} SessionRowMeans(calendar: Calendar, ops: seq<Operation>, hash: string)
    ensures var t, k := Run(calendar, ops), Maker(calendar, ops, hash);
      && (hash in t.sessions <==> k.Some?)
      && (k.Some? ==>
            var row := t.sessions[hash];
            && row.subject == ops[k.value].identity.principal.subject
            && Some(row.expiresAt) == EndOf(calendar, ops[k.value])
            && (row.revokedAt.Some? <==> OutSince(ops, hash, k.value)))
  {
    if ops != [] {
      var n := |ops| - 1;
      SessionRowMeans(calendar, ops[..n], hash);
      var k := Maker(calendar, ops[..n], hash);
      if k.Some? { OutSinceOneMore(ops, hash, k.value); }
    }
  }

  lemma OutSinceOneMore(ops: seq<Operation>, hash: string, k: nat)
    requires k < |ops| - 1
    ensures var n := |ops| - 1;
      OutSince(ops, hash, k) <==> OutSince(ops[..n], hash, k) || Out(ops[n], hash)
  {
    var n := |ops| - 1;
    assert forall j :: 0 <= j < n ==> Out(ops[..n][j], hash) == Out(ops[j], hash);
  }

  /** The principals table after any run. */
  lemma {:induction false} PrincipalRowMeans(calendar: Calendar, ops: seq<Operation>, subject: string)
    ensures var t := Run(calendar, ops);
      LastSeen(calendar, ops, subject) == if subject in t.principals then Some(t.principals[subject]) else None
  {
    if ops != [] {
      var n := |ops| - 1;
      PrincipalRowMeans(calendar, ops[..n], subject);
      if ops[n].SignedIn? { SessionRowMeans(calendar, ops[..n], ops[n].hash); }
    }
  }

  /** Every session belongs to a principal, after any run. */
  lemma {:induction false} AlwaysReferenced(calendar: Calendar, ops: seq<Operation>)
    ensures Referenced(Run(calendar, ops))
  {
    if ops != [] { AlwaysReferenced(calendar, ops[..|ops| - 1]); }
  }

  /** Exactly when a token resolves, after any run of sign-ins, sign-outs and logins of
      anybody: its session was made, it has not been signed out since, and the earlier of
      the two limits has not come; and then to what the subject's last sign-in said. */
  lemma ResolvesExactly(calendar: Calendar, ops: seq<Operation>, hash: string, now: Time)
    ensures var k := Maker(calendar, ops, hash);
      Resolve(Run(calendar, ops), hash, now) ==
      if k.Some? && !OutSince(ops, hash, k.value) && now < EndOf(calendar, ops[k.value]).value
      then LastSeen(calendar, ops, ops[k.value].identity.principal.subject) else None
  {
    AlwaysReferenced(calendar, ops);
    SessionRowMeans(calendar, ops, hash);
    var k := Maker(calendar, ops, hash);
    if k.Some? { PrincipalRowMeans(calendar, ops, ops[k.value].identity.principal.subject); }
  }

  /** The same in numbers: a session resolves strictly before its configured limit and
      strictly before the expiry its token claims, where the calendar has that instant -
      exactly as long as that, unless it is signed out. */
  lemma ResolvesOnlyInTime(calendar: Calendar, ops: seq<Operation>, hash: string, now: Time)
    ensures var k := Maker(calendar, ops, hash);
      Resolve(Run(calendar, ops), hash, now).Some? <==>
        && k.Some? && !OutSince(ops, hash, k.value)
        && BeforeEnd(calendar, ops[k.value].now, ops[k.value].ttlSeconds, ops[k.value].identity.expiresAt, now)
  {
    ResolvesExactly(calendar, ops, hash, now);
    var k := Maker(calendar, ops, hash);
    if k.Some? {
      var made := ops[k.value];
      ExpiryExactly(calendar, made.now, made.ttlSeconds, made.identity.expiresAt, now);
      SessionRowMeans(calendar, ops, hash);
      PrincipalRowMeans(calendar, ops, made.identity.principal.subject);
      AlwaysReferenced(calendar, ops);
    }
  }

  /** More operations do not change which sign-in made a session. */
  lemma {:induction false} MakerStays(calendar: Calendar, ops: seq<Operation>, more: seq<Operation>, hash: string)
    requires Maker(calendar, ops, hash).Some?
    ensures Maker(calendar, ops + more, hash) == Maker(calendar, ops, hash)
    decreases |more|
  {
    if more == [] {
      assert ops + more == ops;
    } else {
      var n := |more| - 1;
      MakerStays(calendar, ops, more[..n], hash);
      assert (ops + more)[..|ops + more| - 1] == ops + more[..n];
    }
  }

  /** A session that has once stopped resolving never resolves again, whatever sign-ins,
      upserts and sign-outs follow, as long as the clock does not run backwards. */
  lemma NeverAgain(calendar: Calendar, ops: seq<Operation>, more: seq<Operation>, hash: string, now: Time, later: Time)
    requires hash in Run(calendar, ops).sessions && Resolve(Run(calendar, ops), hash, now).None?
    requires now <= later
    ensures Resolve(Run(calendar, ops + more), hash, later).None?
  {
    SessionRowMeans(calendar, ops, hash);
    MakerStays(calendar, ops, more, hash);
    ResolvesExactly(calendar, ops, hash, now);
    ResolvesExactly(calendar, ops + more, hash, later);
    var k := Maker(calendar, ops, hash).value;
    assert (ops + more)[k] == ops[k];
    if OutSince(ops, hash, k) {
      var j :| k < j < |ops| && Out(ops[j], hash);
      assert Out((ops + more)[j], hash);
    } else {
      LastSeenAfter(calendar, ops, k);
    }
  }

  /** After a subject's sign-in, the subject has been seen. */
  lemma {:induction false} LastSeenAfter(calendar: Calendar, ops: seq<Operation>, k: nat)
    requires k < |ops| && ops[k].SignedIn? && Maker(calendar, ops, ops[k].hash) == Some(k)
    ensures LastSeen(calendar, ops, ops[k].identity.principal.subject).Some?
  {
    AlwaysReferenced(calendar, ops);
    SessionRowMeans(calendar, ops, ops[k].hash);
    PrincipalRowMeans(calendar, ops, ops[k].identity.principal.subject);
  }

  /** A claim past the signed range wraps to an instant before 1970: where the calendar
      has it, the session is over before it begins. */
  lemma WrappedClaimIsOver(calendar: Calendar, ops: seq<Operation>, hash: string, now: Time)
    requires now >= 0 && Maker(calendar, ops, hash).Some?
    requires var claim := ops[Maker(calendar, ops, hash).value].identity.expiresAt;
      claim.Some? && claim.value >= TWO_TO_THE_63 && AsI64(claim.value) >= calendar.first && calendar.last >= 0
    ensures Resolve(Run(calendar, ops), hash, now).None?
  {
    ResolvesExactly(calendar, ops, hash, now);
  }

  // ------------------------------------------------------------------------ operations

  /** How a round trip to the database goes: well; wrong with nothing committed; or
      committed with the acknowledgement lost. */
  datatype Trip = Fine | Lost | Unacknowledged

  datatype Decision = ToLogin | Forbidden | Admitted(principal: Principal)

  datatype Stored = Created | Failed | Overflowed

  datatype Answer = BadRequest | ServerError | BadGateway | Denied | SignedOn(hash: string) | Panicked

  /** A callback with this state value finds its login in time. */
  predicate InTime(t: Tables, state: Option<string>, now: Time)
  {
    state.Some? && state.value in t.transactions && t.transactions[state.value].expiresAt > now
  }

  /** The identity provider vouches for a member of the access group. */
  predicate Vouched(exchange: Option<Identity>, accessGroup: string)
  {
    exchange.Some? && accessGroup in exchange.value.principal.groups
  }

  class Database {
    const calendar: Calendar
    var tables: Tables
    ghost var log: seq<Operation>

    /** The tables are those of a run: what is proved of runs holds of this database. */
    ghost predicate Valid()
      reads this
    {
      tables == Run(calendar, log)
    }

    constructor (calendar: Calendar)
      ensures this.calendar == calendar && tables == NO_ROWS && log == [] && Valid()
    {
      this.calendar := calendar;
      tables := NO_ROWS;
      log := [];
    }

    /** `save_transaction`, one statement. */
    method SaveTransaction(tx: LoginTransaction, now: Time, trip: Trip) returns (ok: bool)
      requires Valid()
      modifies this
      ensures Valid() && log == if trip.Lost? then old(log) else old(log) + [Started(tx, now)]
      ensures ok <==> trip.Fine? && tx.csrfState !in old(tables).transactions
      ensures tables == if trip.Lost? || tx.csrfState in old(tables).transactions
                        then old(tables) else WithTransaction(old(tables), tx, now)
      ensures !trip.Lost? && tx.csrfState !in old(tables).transactions ==>
        tables.transactions == old(tables).transactions[tx.csrfState :=
          TransactionRow(tx.pkceVerifier, tx.nonce, tx.returnTo, now + 600000000)]
    {
      if trip.Lost? { return false; }
      RunOneMore(calendar, log, Started(tx, now));
      log := log + [Started(tx, now)];
      if tx.csrfState in tables.transactions { return false; }
      var row := TransactionRow(tx.pkceVerifier, tx.nonce, tx.returnTo, now + TEN_MINUTES);
      tables := tables.(transactions := tables.transactions[tx.csrfState := row]);
      return trip.Fine?;
    }

    /** `take_transaction`: the row goes whether or not it has expired. */
    method TakeTransaction(state: string, now: Time, trip: Trip) returns (r: Result<Option<LoginTransaction>, ()>)
      requires Valid()
      modifies this
      ensures Valid() && log == if trip.Lost? then old(log) else old(log) + [Taken(state)]
      ensures tables == if trip.Lost? then old(tables) else WithoutTransaction(old(tables), state)
      ensures state !in old(tables).transactions ==> tables == old(tables)
      ensures r.Ok? <==> trip.Fine?
      ensures r.Ok? && state in old(tables).transactions ==>
        var row := old(tables).transactions[state];
        (row.expiresAt > now ==>
           r.value == Some(Restored(state, row))
           && r.value.value.csrfState == state && r.value.value.pkceVerifier == row.codeVerifier
           && r.value.value.nonce == row.nonce && r.value.value.returnTo == row.returnTo
           && (row.expiresAt >= 600000000 ==> r.value.value.issuedAt == (row.expiresAt - 600000000) / 1000000))
        && (row.expiresAt <= now ==> r.value == None)
      ensures r.Ok? && state !in old(tables).transactions ==> r.value == None
    {
      var view := tables;
      if !trip.Lost? {
        RunOneMore(calendar, log, Taken(state));
        log := log + [Taken(state)];
      }
      if state !in view.transactions {
        assert WithoutTransaction(tables, state) == tables;
        return if trip.Fine? then Ok(None) else Err(());
      }
      var row := view.transactions[state];
      view := view.(transactions := view.transactions - {state});
      if !trip.Lost? { tables := view; }
      if !trip.Fine? { return Err(()); }
      if row.expiresAt <= now { return Ok(None); }
      return Ok(Some(Restored(state, row)));
    }

    /** `save_principal_and_session`: both rows or neither. */
    method SavePrincipalAndSession(identity: Identity, hash: string, now: Time, ttlSeconds: u64, trip: Trip)
      returns (stored: Stored)
      requires Valid()
      modifies this
      ensures Valid()
      ensures log == if trip.Lost? then old(log) else old(log) + [SignedIn(identity, hash, now, ttlSeconds)]
      ensures stored.Overflowed? <==> Expiry(calendar, now, ttlSeconds, identity.expiresAt).None?
      ensures stored.Overflowed? <==> now + Lifetime(ttlSeconds) >= (calendar.last + 1) * 1000000
      ensures stored.Created? ==> forall later ::
        Resolve(tables, hash, later) ==
        if BeforeEnd(calendar, now, ttlSeconds, identity.expiresAt, later) then Some(identity.principal) else None
      ensures stored.Created? ==> trip.Fine? && hash !in old(tables).sessions
      ensures trip.Fine? && hash !in old(tables).sessions && !stored.Overflowed? ==> stored.Created?
      ensures tables ==
        if stored.Overflowed? || trip.Lost? || hash in old(tables).sessions then old(tables)
        else WithSession(old(tables), identity.principal, hash,
                         Expiry(calendar, now, ttlSeconds, identity.expiresAt).value)
    {
      if !trip.Lost? {
        RunOneMore(calendar, log, SignedIn(identity, hash, now, ttlSeconds));
        log := log + [SignedIn(identity, hash, now, ttlSeconds)];
      }
      ExpiryExactly(calendar, now, ttlSeconds, identity.expiresAt, now);
      ghost var end := Expiry(calendar, now, ttlSeconds, identity.expiresAt);
      forall later
        ensures end.Some? ==> (later < end.value <==> BeforeEnd(calendar, now, ttlSeconds, identity.expiresAt, later))
      {
        ExpiryExactly(calendar, now, ttlSeconds, identity.expiresAt, later);
      }
      var configured := ConfiguredExpiry(calendar, now, ttlSeconds);
      if configured.None? { return Overflowed; }
      var claimed := ClaimedExpiry(calendar, identity.expiresAt);
      var expiresAt := configured.value;
      if claimed.Some? && claimed.value < expiresAt { expiresAt := claimed.value; }
      var view := tables;
      var subject := identity.principal.subject;
      view := view.(principals := view.principals[subject := identity.principal]);
      if hash in view.sessions { return Failed; }
      view := view.(sessions := view.sessions[hash := SessionRow(subject, expiresAt, None)]);
      if !trip.Lost? { tables := view; }
      return if trip.Fine? then Created else Failed;
    }

    /** `session_principal`. */
    method SessionPrincipal(hash: string, now: Time) returns (p: Option<Principal>)
      ensures p == Resolve(tables, hash, now)
    {
      if hash !in tables.sessions { return None; }
      var row := tables.sessions[hash];
      if row.revokedAt.Some? || row.expiresAt <= now || row.subject !in tables.principals { return None; }
      return Some(tables.principals[row.subject]);
    }

    /** `require_session`. */
    method RequireSession(hash: Option<string>, accessGroup: string, now: Time) returns (d: Decision)
      requires Valid()
      ensures d.Admitted? <==>
        hash.Some? && Resolve(tables, hash.value, now).Some?
        && accessGroup in Resolve(tables, hash.value, now).value.groups
      ensures d.Admitted? ==> Some(d.principal) == Resolve(tables, hash.value, now)
      ensures d.Admitted? ==>
        var k := Maker(calendar, log, hash.value);
        && k.Some? && !OutSince(log, hash.value, k.value) && now < EndOf(calendar, log[k.value]).value
        && Some(d.principal) == LastSeen(calendar, log, log[k.value].identity.principal.subject)
      ensures d.ToLogin? <==> hash.None? || Resolve(tables, hash.value, now).None?
    {
      if hash.None? { return ToLogin; }
      var found := SessionPrincipal(hash.value, now);
      ResolvesExactly(calendar, log, hash.value, now);
      if found.None? { return ToLogin; }
      var groups := found.value.groups;
      for i := 0 to |groups|
        invariant accessGroup !in groups[..i]
      {
        if groups[i] == accessGroup { return Admitted(found.value); }
      }
      assert groups[..|groups|] == groups;
      return Forbidden;
    }

    /** `logout`. */
    method Logout(hash: Option<string>, now: Time, trip: Trip)
      requires Valid()
      modifies this
      ensures Valid()
      ensures log == if hash.None? || trip.Lost? then old(log) else old(log) + [SignedOut(hash.value, now)]
      ensures tables == if hash.None? || trip.Lost? then old(tables) else Revoked(old(tables), hash.value, now)
      ensures hash.Some? && !trip.Lost? ==> forall later :: Resolve(tables, hash.value, later) == None
    {
      if hash.None? || trip.Lost? { return; }
      RunOneMore(calendar, log, SignedOut(hash.value, now));
      log := log + [SignedOut(hash.value, now)];
      if hash.value in tables.sessions {
        var row := tables.sessions[hash.value];
        tables := tables.(sessions := tables.sessions[hash.value := row.(revokedAt := Some(now))]);
      }
    }

    /** `oidc_callback`: the login is used up whatever comes of it, and signs in only if
        it was in time, the identity was vouched for and the new session was stored. */
    method OidcCallback(state: Option<string>, takenAt: Time, takeTrip: Trip, exchange: Option<Identity>,
                        accessGroup: string, hash: string, now: Time, ttlSeconds: u64, storeTrip: Trip)
      returns (a: Answer)
      requires Valid()
      modifies this
      ensures Valid()
      ensures state.Some? && !takeTrip.Lost? ==> state.value !in tables.transactions
      ensures a.SignedOn? <==>
        && state.Some? && state.value in old(tables).transactions
        && old(tables).transactions[state.value].expiresAt > takenAt && takeTrip.Fine?
        && exchange.Some? && accessGroup in exchange.value.principal.groups
        && now + Lifetime(ttlSeconds) < (calendar.last + 1) * 1000000
        && hash !in old(tables).sessions && storeTrip.Fine?
      ensures a.SignedOn? ==> a.hash == hash && forall later ::
        Resolve(tables, hash, later) ==
        if BeforeEnd(calendar, now, ttlSeconds, exchange.value.expiresAt, later)
        then Some(exchange.value.principal) else None
      ensures tables.sessions != old(tables).sessions || tables.principals != old(tables).principals ==>
        && InTime(old(tables), state, takenAt) && takeTrip.Fine? && Vouched(exchange, accessGroup)
        && Expiry(calendar, now, ttlSeconds, exchange.value.expiresAt).Some?
        && tables == WithSession(WithoutTransaction(old(tables), state.value), exchange.value.principal, hash,
                                 Expiry(calendar, now, ttlSeconds, exchange.value.expiresAt).value)
    {
      if state.None? { return BadRequest; }
      var taken := TakeTransaction(state.value, takenAt, takeTrip);
      if taken.Err? { return ServerError; }
      if taken.value.None? { return BadRequest; }
      if exchange.None? { return BadGateway; }
      if accessGroup !in exchange.value.principal.groups { return Denied; }
      var stored := SavePrincipalAndSession(exchange.value, hash, now, ttlSeconds, storeTrip);
      match stored {
        case Created => return SignedOn(hash);
        case Failed => return ServerError;
        case Overflowed => return Panicked;
      }
    }
  }
}
