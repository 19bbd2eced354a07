/** The acquisition daemon: any number of handlers share one cache directory and one
    mutex; requests, network deliveries, failures, crashes and restarts interleave
    freely. */
module Daemon {
  import opened Wrappers
  import opened Releases
  import opened Archives
  import opened Caches

  datatype Request = Request(schemaVersion: nat, release: string, platform: Platform, expectedSri: string)

  datatype Response = Ready(path: string, release: string, sri: string) | Refusal

  /** Where one handler is. */
  datatype Handler =
    | Arrived(request: Request)
    | Queued(release: Release, expected: string)
    | Holding(release: Release, expected: string)
    | Fetching(release: Release, expected: string)
    | Writing(release: Release, expected: string, body: Bytes)
    | HalfWritten(release: Release, expected: string, body: Bytes)
    | Settled(release: Release, expected: string, found: Result<Artifact, Error>)
    | Answered(response: Response)

  /** A `ready` response that was given, what was asked for, and the bytes that lay at
      its path then. */
  datatype Answer = Answer(request: Request, release: Release, response: Response, bytes: Bytes)

  datatype System = System(files: Files, handlers: map<nat, Handler>, requests: map<nat, Request>,
                           holder: Option<nat>, answers: seq<Answer>)

  datatype Action =
    | Receive(who: nat, request: Request)
    | Check(who: nat)
    | Lock(who: nat)
    | Look(who: nat)
    | Deliver(who: nat, delivery: Delivery)
    | WriteArchive(who: nat)
    | WriteSidecar(who: nat, at: u64, settled: bool)
    | Fail(who: nat)
    | Respond(who: nat, published: bool)
    | Crash

  const SRI_PREFIX := "sha256-"

  /** The checks before the mutex. */
  function Checked(q: Request): Handler
  {
    if q.schemaVersion != 1 || !q.platform.Linux? then Answered(Refusal)
    else match Parse(q.release)
      case None => Answered(Refusal)
      case Some(r) => if SRI_PREFIX <= q.expectedSri then Queued(r, q.expectedSri) else Answered(Refusal)
  }

  /** The response once the artifact is settled. */
  function Reply(h: Handler, published: bool): Response
    requires h.Settled?
  {
    match h.found
    case Ok(a) =>
      if a.provenance.nixSri == h.expected && published
      then Ready(a.archive, Show(a.provenance.release), a.provenance.nixSri) else Refusal
    case Err(_) => Refusal
  }

  // ------------------------------------------------------------ one request on its own

  /** A request passes the checks before the mutex and asks for this release. */
  predicate AsksFor(q: Request, r: Release)
  {
    q.schemaVersion == 1 && q.platform.Linux? && SRI_PREFIX <= q.expectedSri && Parse(q.release) == Some(r)
  }

  /** The checks before the mutex, spelled out. */
  lemma AsksForExactly(q: Request, r: Release)
    ensures AsksFor(q, r) <==>
      q.schemaVersion == 1 && q.platform == Linux && "sha256-" <= q.expectedSri && Parse(q.release) == Some(r)
    ensures Checked(q) == Queued(r, q.expectedSri) <==> AsksFor(q, r)
    ensures Checked(q) == Answered(Refusal) <==> !(exists p :: AsksFor(q, p))
  {
    if Parse(q.release).Some? && !AsksFor(q, Parse(q.release).value) {
      assert forall p :: !AsksFor(q, p);
    }
  }

  /** The bytes a working daemon has for a release: what the cache vouches for, or else
      what the account delivers; an unreadable entry is never replaced. */
  ghost function Available(c: Codec, files: Files, r: Release, delivery: Delivery, max: u64): Option<Bytes>
    requires InRange(r) && Sound(c, files)
  {
    match Lookup(c, files, r, Linux, max)
    case Err(_) => None
    case Ok(Some(a)) => LookupTruthful(c, files, r, Linux, max); Some(files[a.archive])
    case Ok(None) => if Obtained(c, delivery, r, max).Ok? then Some(Obtained(c, delivery, r, max).value) else None
  }

  /** What the service promises of a ready response. */
  ghost predicate Honours(c: Codec, max: u64, files: Files, q: Request, r: Release, response: Response)
  {
    && AsksFor(q, r)
    && response == Ready(ArchiveName(r, Linux), Show(r), q.expectedSri)
    && ArchiveName(r, Linux) in files && Acceptable(c.lib, files[ArchiveName(r, Linux)], r, max)
    && c.sri(c.lib.sha256(files[ArchiveName(r, Linux)])) == Some(q.expectedSri)
  }

  /** The part of `acquire` under the mutex: the cache, then the account, then the answer. */
  method ServeRelease(cache: Cache, r: Release, expected: string,
                      delivery: Delivery, published: bool, max: u64, at: u64)
    returns (response: Response)
    requires Lawful(cache.c) && Sound(cache.c, cache.files) && InRange(r)
    modifies cache
    ensures Sound(cache.c, cache.files)
    ensures response.Ready? ==>
      && published && response == Ready(ArchiveName(r, Linux), Show(r), expected)
      && ArchiveName(r, Linux) in cache.files && Acceptable(cache.c.lib, cache.files[ArchiveName(r, Linux)], r, max)
      && cache.c.sri(cache.c.lib.sha256(cache.files[ArchiveName(r, Linux)])) == Some(expected)
    ensures cache.healthy && published ==>
      (response.Ready? <==>
        var b := Available(cache.c, old(cache.files), r, delivery, max);
        b.Some? && cache.c.sri(cache.c.lib.sha256(b.value)) == Some(expected))
    ensures Lookup(cache.c, old(cache.files), r, Linux, max) != Ok(None) ==> cache.files == old(cache.files)
    ensures ArchiveName(r, Linux) in old(cache.files) && MetadataName(r, Linux) in old(cache.files) ==>
      cache.files == old(cache.files)
  {
    var found := cache.GetWithMax(r, Linux, max);
    LookupTruthful(cache.c, cache.files, r, Linux, max);
    if found.Err? { return Refusal; }
    var artifact := found.value;
    if artifact.None? {
      var fetched := cache.Fetch(r, Linux, LicensedAccount, delivery, max, at);
      if fetched.Err? { return Refusal; }
      artifact := Some(fetched.value);
    }
    assert Describes(cache.c, cache.files, artifact.value, r, Linux, max);
    response := Reply(Settled(r, expected, Ok(artifact.value)), published);
  }

  /** `acquire` of the daemon, from the checks to the response. */
  method Serve(cache: Cache, q: Request, delivery: Delivery, published: bool, max: u64, at: u64)
    returns (response: Response)
    requires Lawful(cache.c) && Sound(cache.c, cache.files)
    modifies cache
    ensures Sound(cache.c, cache.files)
    ensures response.Ready? ==>
      published && exists r :: Honours(cache.c, max, cache.files, q, r, response)
    ensures cache.healthy && published ==> forall r :: AsksFor(q, r) && InRange(r) ==>
      (response.Ready? <==>
        var b := Available(cache.c, old(cache.files), r, delivery, max);
        b.Some? && cache.c.sri(cache.c.lib.sha256(b.value)) == Some(q.expectedSri))
    ensures forall r :: AsksFor(q, r) && Lookup(cache.c, old(cache.files), r, Linux, max) != Ok(None) ==>
      cache.files == old(cache.files)
    ensures !(exists r :: AsksFor(q, r)) ==> cache.files == old(cache.files)
    ensures forall r ::
      AsksFor(q, r) && ArchiveName(r, Linux) in old(cache.files) && MetadataName(r, Linux) in old(cache.files) ==>
        cache.files == old(cache.files)
  {
    var start := Checked(q);
    if start.Answered? { return start.response; }
    var r := start.release;
    assert AsksFor(q, r) && forall s :: AsksFor(q, s) ==> s == r;
    response := ServeRelease(cache, r, q.expectedSri, delivery, published, max, at);
    if response.Ready? {
      assert Honours(cache.c, max, cache.files, q, r, response);
    }
  }

  // ------------------------------------------------------------------ many at a time

  /** A holder of the mutex looks the release up. */
  function AfterLook(c: Codec, max: u64, files: Files, h: Handler): Handler
    requires h.Holding?
  {
    match Lookup(c, files, h.release, Linux, max)
    case Ok(Some(a)) => Settled(h.release, h.expected, Ok(a))
    case Ok(None) => Fetching(h.release, h.expected)
    case Err(e) => Settled(h.release, h.expected, Err(e))
  }

  /** The account flow delivers, or does not. */
  function AfterDelivery(c: Codec, max: u64, d: Delivery, h: Handler): Handler
    requires h.Fetching?
  {
    match Obtained(c, d, h.release, max)
    case Ok(b) => Writing(h.release, h.expected, b)
    case Err(e) => Settled(h.release, h.expected, Err(e))
  }

  /** The first rename of a put, as seen by readers. */
  function ArchiveDone(s: System, i: nat): System
    requires i in s.handlers && s.handlers[i].Writing?
  {
    var h := s.handlers[i];
    s.(files := WithArchive(s.files, h.release, Linux, h.body),
       handlers := s.handlers[i := HalfWritten(h.release, h.expected, h.body)])
  }

  /** A handler after the second rename. The mode changes and the directory flush come
      after it, and if they fail the handler has an error although the entry is whole. */
  function AfterSidecar(c: Codec, h: Handler, at: u64, settled: bool): Handler
    requires h.HalfWritten? && c.sri(c.lib.sha256(h.body)).Some?
  {
    Settled(h.release, h.expected,
            if settled then Ok(Fetched(c, h.release, Linux, LicensedAccount, h.body, at)) else Err(Io))
  }

  /** The second rename of a put. */
  function SidecarDone(c: Codec, s: System, i: nat, at: u64, settled: bool): System
    requires i in s.handlers && s.handlers[i].HalfWritten? && c.sri(c.lib.sha256(s.handlers[i].body)).Some?
  {
    var h := s.handlers[i];
    var stored := Recorded(c, h.release, Linux, LicensedAccount, h.body, at);
    s.(files := s.files[MetadataName(h.release, Linux) := c.encode(stored)],
       handlers := s.handlers[i := AfterSidecar(c, h, at, settled)])
  }

  ghost predicate Step(c: Codec, max: u64, s: System, a: Action, s': System)
  {
    match a
    case Receive(i, q) =>
      i !in s.handlers && s' == s.(handlers := s.handlers[i := Arrived(q)], requests := s.requests[i := q])
    case Check(i) =>
      i in s.handlers && s.handlers[i].Arrived?
      && s' == s.(handlers := s.handlers[i := Checked(s.handlers[i].request)])
    case Lock(i) =>
      i in s.handlers && s.handlers[i].Queued? && s.holder.None?
      && s' == s.(handlers := s.handlers[i := Holding(s.handlers[i].release, s.handlers[i].expected)], holder := Some(i))
    case Look(i) =>
      i in s.handlers && s.handlers[i].Holding?
      && s' == s.(handlers := s.handlers[i := AfterLook(c, max, s.files, s.handlers[i])])
    case Deliver(i, d) =>
      i in s.handlers && s.handlers[i].Fetching?
      && s' == s.(handlers := s.handlers[i := AfterDelivery(c, max, d, s.handlers[i])])
    case WriteArchive(i) =>
      i in s.handlers && s.handlers[i].Writing? && s' == ArchiveDone(s, i)
    case WriteSidecar(i, at, settled) =>
      i in s.handlers && s.handlers[i].HalfWritten?
      && c.sri(c.lib.sha256(s.handlers[i].body)).Some? && s' == SidecarDone(c, s, i, at, settled)
    case Fail(i) =>
      i in s.handlers && (s.handlers[i].Writing? || s.handlers[i].HalfWritten?)
      && s' == s.(handlers := s.handlers[i := Settled(s.handlers[i].release, s.handlers[i].expected, Err(Io))])
    case Respond(i, published) =>
      i in s.handlers && i in s.requests && s.handlers[i].Settled?
      && (var h := s.handlers[i];
          var response := Reply(h, published);
          s' == s.(handlers := s.handlers[i := Answered(response)], holder := None,
                   answers := if response.Ready? && response.path in s.files
                              then s.answers + [Answer(s.requests[i], h.release, response, s.files[response.path])]
                              else s.answers))
    case Crash =>
      s' == s.(handlers := map[], requests := map[], holder := None)
  }

  ghost predicate Initial(c: Codec, s: System)
  {
    s.handlers == map[] && s.requests == map[] && s.holder.None? && s.answers == [] && Sound(c, s.files)
  }

  // ------------------------------------------------------------------ the invariant

  predicate Inside(h: Handler)
  {
    h.Holding? || h.Fetching? || h.Writing? || h.HalfWritten? || h.Settled?
  }

  /** A ready answer is true, and its entry is still whole. */
  ghost predicate Kept(c: Codec, max: u64, files: Files, a: Answer)
  {
    && InRange(a.release) && AsksFor(a.request, a.release)
    && a.response == Ready(ArchiveName(a.release, Linux), Show(a.release), a.request.expectedSri)
    && ArchiveName(a.release, Linux) in files && files[ArchiveName(a.release, Linux)] == a.bytes
    && c.sri(c.lib.sha256(a.bytes)) == Some(a.request.expectedSri)
    && Acceptable(c.lib, a.bytes, a.release, max)
    && Lookup(c, files, a.release, Linux, max).Ok? && Lookup(c, files, a.release, Linux, max).value.Some?
  }

  /** What a handler knows about the cache and the answers given so far. */
  ghost predicate Knows(c: Codec, max: u64, files: Files, answers: seq<Answer>, h: Handler)
  {
    match h
    case Queued(r, _) => InRange(r)
    case Holding(r, _) => InRange(r)
    case Fetching(r, _) => InRange(r) && Unanswered(answers, r) && Torn(files, r)
    case Writing(r, _, b) => InRange(r) && Unanswered(answers, r) && Torn(files, r) && Acceptable(c.lib, b, r, max)
    case HalfWritten(r, _, b) =>
      InRange(r) && Unanswered(answers, r) && Acceptable(c.lib, b, r, max)
      && ArchiveName(r, Linux) in files && files[ArchiveName(r, Linux)] == b
    case Settled(r, _, Ok(a)) => InRange(r) && Lookup(c, files, r, Linux, max) == Ok(Some(a))
    case Settled(r, _, Err(_)) => InRange(r)
    case _ => true
  }

  /** One of the two files of the entry is missing. */
  predicate Torn(files: Files, r: Release)
  {
    ArchiveName(r, Linux) !in files || MetadataName(r, Linux) !in files
  }

  /** No ready response has been given for this release. */
  ghost predicate Unanswered(answers: seq<Answer>, r: Release)
  {
    forall n :: 0 <= n < |answers| ==> answers[n].release != r
  }

  /** A handler past its checks works on what its request asked for. */
  predicate Faithful(h: Handler, q: Request)
  {
    match h
    case Arrived(request) => request == q
    case Answered(_) => true
    case _ => AsksFor(q, h.release) && h.expected == q.expectedSri
  }

  ghost predicate AllFaithful(s: System)
  {
    s.requests.Keys == s.handlers.Keys
    && forall i :: i in s.handlers ==> Faithful(s.handlers[i], s.requests[i])
  }

  ghost predicate OneInside(s: System)
  {
    forall i :: i in s.handlers && Inside(s.handlers[i]) ==> s.holder == Some(i)
  }

  ghost predicate AllKnow(c: Codec, max: u64, s: System)
  {
    forall i :: i in s.handlers ==> Knows(c, max, s.files, s.answers, s.handlers[i])
  }

  ghost predicate AllKept(c: Codec, max: u64, files: Files, answers: seq<Answer>)
  {
    forall n :: 0 <= n < |answers| ==> Kept(c, max, files, answers[n])
  }

  ghost predicate Good(c: Codec, max: u64, s: System)
  {
    Sound(c, s.files) && AllFaithful(s) && OneInside(s) && AllKnow(c, max, s) && AllKept(c, max, s.files, s.answers)
  }

  // -------------------------------------------------------------------- each step

  /** The mutex and the requests do not depend on the cache: every step keeps them. */
  lemma ControlKept(c: Codec, max: u64, s: System, a: Action, s': System)
    requires AllFaithful(s) && OneInside(s) && Step(c, max, s, a, s')
    ensures AllFaithful(s') && OneInside(s')
  {
    RequestsKept(c, max, s, a, s');
    ExclusionKept(c, max, s, a, s');
  }

  lemma RequestsKept(c: Codec, max: u64, s: System, a: Action, s': System)
    requires AllFaithful(s) && Step(c, max, s, a, s')
    ensures AllFaithful(s')
  {
    if a.Receive? {
      assert s'.handlers.Keys == s.handlers.Keys + {a.who};
    } else if !a.Crash? {
      OneHandlerMoves(c, max, s, a, s');
      StaysFaithful(c, max, s, a, s', s.requests[a.who]);
      FaithfulElsewhere(s, a.who, s');
    }
  }

  lemma OneHandlerMoves(c: Codec, max: u64, s: System, a: Action, s': System)
    requires Step(c, max, s, a, s') && !a.Receive? && !a.Crash?
    ensures a.who in s.handlers && a.who in s'.handlers && s'.requests == s.requests
    ensures s'.handlers == s.handlers[a.who := s'.handlers[a.who]]
  {
  }

  lemma FaithfulElsewhere(s: System, i: nat, s': System)
    requires AllFaithful(s) && i in s.handlers && i in s'.handlers && s'.requests == s.requests
    requires s'.handlers == s.handlers[i := s'.handlers[i]] && Faithful(s'.handlers[i], s.requests[i])
    ensures AllFaithful(s')
  {
    assert s'.handlers.Keys == s.handlers.Keys;
  }

  /** From the mutex on, a handler keeps its release and its expectation. */
  predicate SamePurpose(h: Handler, h': Handler)
  {
    !h.Arrived? && !h.Answered? && !h'.Arrived?
    && (h'.Answered? || (h'.release == h.release && h'.expected == h.expected))
  }

  lemma PurposeKept(c: Codec, max: u64, s: System, a: Action, s': System)
    requires Step(c, max, s, a, s') && !a.Receive? && !a.Check? && !a.Crash?
    ensures SamePurpose(s.handlers[a.who], s'.handlers[a.who])
  {
  }

  lemma SamePurposeFaithful(h: Handler, h': Handler, q: Request)
    requires SamePurpose(h, h') && Faithful(h, q)
    ensures Faithful(h', q)
  {
  }

  lemma CheckedFaithful(q: Request)
    ensures Faithful(Checked(q), q)
  {
  }

  lemma StaysFaithful(c: Codec, max: u64, s: System, a: Action, s': System, q: Request)
    requires Step(c, max, s, a, s') && !a.Receive? && !a.Crash? && Faithful(s.handlers[a.who], q)
    ensures Faithful(s'.handlers[a.who], q)
  {
    if a.Check? {
      CheckedFaithful(q);
    } else {
      PurposeKept(c, max, s, a, s');
      SamePurposeFaithful(s.handlers[a.who], s'.handlers[a.who], q);
    }
  }

  lemma ExclusionKept(c: Codec, max: u64, s: System, a: Action, s': System)
    requires OneInside(s) && Step(c, max, s, a, s')
    ensures OneInside(s')
  {
    match a
    case Look(i) =>
    case Deliver(i, d) =>
    case WriteArchive(i) =>
    case WriteSidecar(i, at, settled) =>
    case Respond(i, published) =>
    case _ =>
  }

  /** Writing for one release leaves an answer about another standing. */
  lemma AnswerOutlivesWrite(c: Codec, max: u64, files: Files, r: Release, b: Bytes, next: Files, a: Answer)
    requires InRange(r) && a.release != r && Kept(c, max, files, a)
    requires next == WithArchive(files, r, Linux, b) || next == files[MetadataName(r, Linux) := b]
    ensures Kept(c, max, next, a)
  {
    var q := a.release;
    if ArchiveName(r, Linux) == ArchiveName(q, Linux) { ArchiveNamesDistinct(r, Linux, q, Linux); }
    if MetadataName(r, Linux) == MetadataName(q, Linux) { MetadataNamesDistinct(r, Linux, q, Linux); }
    ArchiveIsNotMetadata(r, Linux, q, Linux);
    ArchiveIsNotMetadata(q, Linux, r, Linux);
    SameEntrySameLookup(c, files, next, q, Linux, max);
  }

  /** Lookup reads the two files of the entry and nothing else. */
  lemma SameEntrySameLookup(c: Codec, files: Files, next: Files, r: Release, p: Platform, max: u64)
    requires ArchiveName(r, p) in files <==> ArchiveName(r, p) in next
    requires MetadataName(r, p) in files <==> MetadataName(r, p) in next
    requires ArchiveName(r, p) in files ==> files[ArchiveName(r, p)] == next[ArchiveName(r, p)]
    requires MetadataName(r, p) in files ==> files[MetadataName(r, p)] == next[MetadataName(r, p)]
    ensures Lookup(c, files, r, p, max) == Lookup(c, next, r, p, max)
  {
  }

  lemma AnswersOutliveWrite(c: Codec, max: u64, s: System, r: Release, b: Bytes, next: Files)
    requires InRange(r) && Unanswered(s.answers, r) && AllKept(c, max, s.files, s.answers)
    requires next == WithArchive(s.files, r, Linux, b) || next == s.files[MetadataName(r, Linux) := b]
    ensures AllKept(c, max, next, s.answers)
  {
    forall n | 0 <= n < |s.answers| ensures Kept(c, max, next, s.answers[n]) {
      AnswerOutlivesWrite(c, max, s.files, r, b, next, s.answers[n]);
    }
  }

  /** Handlers outside the mutex know nothing that a step could spoil. */
  lemma OthersStillKnow(c: Codec, max: u64, s: System, i: nat, h: Handler, s': System)
    requires AllKnow(c, max, s) && OneInside(s) && s.holder == Some(i)
    requires s'.handlers == s.handlers[i := h] && Knows(c, max, s'.files, s'.answers, h)
    ensures AllKnow(c, max, s')
  {
    forall j | j in s'.handlers ensures Knows(c, max, s'.files, s'.answers, s'.handlers[j]) {
      if j != i {
        assert !Inside(s.handlers[j]);
        assert Knows(c, max, s.files, s.answers, s.handlers[j]);
      }
    }
  }

  lemma ArchiveWritten(c: Codec, max: u64, s: System, i: nat, s': System)
    requires Lawful(c) && Good(c, max, s) && Step(c, max, s, WriteArchive(i), s')
    ensures Sound(c, s'.files) && AllKnow(c, max, s') && AllKept(c, max, s'.files, s'.answers)
  {
    var h := s.handlers[i];
    assert Knows(c, max, s.files, s.answers, h);
    AnswersOutliveWrite(c, max, s, h.release, h.body, s'.files);
    PutKeepsSound(c, s.files, h.release, Linux, LicensedAccount, h.body, 0);
    OthersStillKnow(c, max, s, i, s'.handlers[i], s');
  }

  lemma SidecarWritten(c: Codec, max: u64, s: System, i: nat, at: u64, settled: bool, s': System)
    requires Lawful(c) && Good(c, max, s) && Step(c, max, s, WriteSidecar(i, at, settled), s')
    ensures Sound(c, s'.files) && AllKnow(c, max, s') && AllKept(c, max, s'.files, s'.answers)
  {
    var h := s.handlers[i];
    assert Knows(c, max, s.files, s.answers, h);
    AnswersOutliveWrite(c, max, s, h.release, c.encode(Recorded(c, h.release, Linux, LicensedAccount, h.body, at)), s'.files);
    SidecarTeaches(c, max, s.files, s.answers, h, at, settled);
    OthersStillKnow(c, max, s, i, s'.handlers[i], s');
  }

  /** The whole entry is sound, and is found. */
  lemma SidecarTeaches(c: Codec, max: u64, files: Files, answers: seq<Answer>, h: Handler, at: u64, settled: bool)
    requires Lawful(c) && Sound(c, files) && h.HalfWritten? && Knows(c, max, files, answers, h)
    requires c.sri(c.lib.sha256(h.body)).Some?
    ensures var stored := Recorded(c, h.release, Linux, LicensedAccount, h.body, at);
      var next := files[MetadataName(h.release, Linux) := c.encode(stored)];
      Sound(c, next) && Knows(c, max, next, answers, AfterSidecar(c, h, at, settled))
  {
    var stored := Recorded(c, h.release, Linux, LicensedAccount, h.body, at);
    assert WithArchive(files, h.release, Linux, h.body) == files;
    assert files[MetadataName(h.release, Linux) := c.encode(stored)]
        == WithEntry(c, files, h.release, Linux, h.body, stored);
    PutKeepsSound(c, files, h.release, Linux, LicensedAccount, h.body, at);
    StoredIsFound(c, files, h.release, Linux, LicensedAccount, h.body, at, max);
  }

  /** A release that is not found has had no ready answer. */
  lemma NotFoundUnanswered(c: Codec, max: u64, files: Files, answers: seq<Answer>, r: Release)
    requires AllKept(c, max, files, answers) && Lookup(c, files, r, Linux, max) == Ok(None)
    ensures Unanswered(answers, r)
  {
    forall n | 0 <= n < |answers| ensures answers[n].release != r {
      assert Kept(c, max, files, answers[n]);
    }
  }

  lemma LookTeaches(c: Codec, max: u64, files: Files, answers: seq<Answer>, h: Handler)
    requires h.Holding? && Knows(c, max, files, answers, h)
    requires Lookup(c, files, h.release, Linux, max) == Ok(None) ==> Unanswered(answers, h.release)
    ensures Knows(c, max, files, answers, AfterLook(c, max, files, h))
  {
  }

  lemma DeliveryTeaches(c: Codec, max: u64, files: Files, answers: seq<Answer>, d: Delivery, h: Handler)
    requires h.Fetching? && Knows(c, max, files, answers, h)
    ensures Knows(c, max, files, answers, AfterDelivery(c, max, d, h))
  {
    if Obtained(c, d, h.release, max).Ok? {
      AcceptsExactly(c.lib, Obtained(c, d, h.release, max).value, h.release, max);
    }
  }

  lemma Looked(c: Codec, max: u64, s: System, i: nat, s': System)
    requires AllKnow(c, max, s) && OneInside(s) && AllKept(c, max, s.files, s.answers)
    requires Step(c, max, s, Look(i), s')
    ensures AllKnow(c, max, s')
  {
    if Lookup(c, s.files, s.handlers[i].release, Linux, max) == Ok(None) {
      NotFoundUnanswered(c, max, s.files, s.answers, s.handlers[i].release);
    }
    LookTeaches(c, max, s.files, s.answers, s.handlers[i]);
    OthersStillKnow(c, max, s, i, s'.handlers[i], s');
  }

  lemma Delivered(c: Codec, max: u64, s: System, i: nat, d: Delivery, s': System)
    requires AllKnow(c, max, s) && OneInside(s) && Step(c, max, s, Deliver(i, d), s')
    ensures AllKnow(c, max, s')
  {
    DeliveryTeaches(c, max, s.files, s.answers, d, s.handlers[i]);
    OthersStillKnow(c, max, s, i, s'.handlers[i], s');
  }

  /** A ready response: the archive is there, and it is what was asked for. */
  lemma ReadyIsTrue(c: Codec, max: u64, files: Files, answers: seq<Answer>, h: Handler, q: Request)
    requires Sound(c, files) && h.Settled? && Knows(c, max, files, answers, h) && Faithful(h, q)
    requires Reply(h, true).Ready?
    ensures var a := Reply(h, true);
      a.path in files && Kept(c, max, files, Answer(q, h.release, a, files[a.path]))
  {
    LookupTruthful(c, files, h.release, Linux, max);
  }

  lemma Responded(c: Codec, max: u64, s: System, i: nat, published: bool, s': System)
    requires Good(c, max, s) && Step(c, max, s, Respond(i, published), s')
    ensures AllKnow(c, max, s') && AllKept(c, max, s'.files, s'.answers)
  {
    OthersStillKnow(c, max, s, i, s'.handlers[i], s');
    if Reply(s.handlers[i], published).Ready? {
      Entered(c, max, s, i, published, s');
      OneMoreKept(c, max, s.files, s.answers, s'.answers);
    }
  }

  /** A ready response is entered in the record, and the entry is true. */
  lemma Entered(c: Codec, max: u64, s: System, i: nat, published: bool, s': System)
    requires Sound(c, s.files) && AllFaithful(s) && AllKnow(c, max, s)
    requires Step(c, max, s, Respond(i, published), s') && Reply(s.handlers[i], published).Ready?
    ensures |s'.answers| == |s.answers| + 1 && s'.answers == s.answers + [s'.answers[|s.answers|]]
    ensures s'.answers[|s.answers|].request == s.requests[i]
    ensures s'.answers[|s.answers|].response == Reply(s.handlers[i], published)
    ensures Kept(c, max, s.files, s'.answers[|s.answers|])
  {
    var h, q := s.handlers[i], s.requests[i];
    assert Knows(c, max, s.files, s.answers, h);
    assert Faithful(h, q);
    assert Reply(h, published) == Reply(h, true);
    ReadyIsTrue(c, max, s.files, s.answers, h, q);
    RespondShape(c, max, s, i, published, s');
  }

  lemma RespondShape(c: Codec, max: u64, s: System, i: nat, published: bool, s': System)
    requires Step(c, max, s, Respond(i, published), s')
    requires Reply(s.handlers[i], published).Ready? && Reply(s.handlers[i], published).path in s.files
    ensures var a := Reply(s.handlers[i], published);
      s'.answers == s.answers + [Answer(s.requests[i], s.handlers[i].release, a, s.files[a.path])]
  {
  }

  lemma OneMoreKept(c: Codec, max: u64, files: Files, answers: seq<Answer>, more: seq<Answer>)
    requires AllKept(c, max, files, answers)
    requires |more| == |answers| + 1 && more == answers + [more[|answers|]]
    requires Kept(c, max, files, more[|answers|])
    ensures AllKept(c, max, files, more)
  {
    forall n | 0 <= n < |more| ensures Kept(c, max, files, more[n]) {
      if n < |answers| { assert more[n] == answers[n]; }
    }
  }

  /** Steps that touch neither the cache nor the answers. */
  lemma Moved(c: Codec, max: u64, s: System, a: Action, s': System)
    requires AllKnow(c, max, s) && Step(c, max, s, a, s')
    requires a.Receive? || a.Check? || a.Lock? || a.Fail? || a.Crash?
    ensures AllKnow(c, max, s') && s'.files == s.files && s'.answers == s.answers
  {
    forall j | j in s'.handlers ensures Knows(c, max, s.files, s.answers, s'.handlers[j]) {
      if j in s.handlers { assert Knows(c, max, s.files, s.answers, s.handlers[j]); }
      MovedOne(c, max, s, a, s', j);
    }
  }

  lemma MovedOne(c: Codec, max: u64, s: System, a: Action, s': System, j: nat)
    requires Step(c, max, s, a, s') && j in s'.handlers
    requires j in s.handlers ==> Knows(c, max, s.files, s.answers, s.handlers[j])
    requires a.Receive? || a.Check? || a.Lock? || a.Fail? || a.Crash?
    ensures Knows(c, max, s.files, s.answers, s'.handlers[j])
  {
  }

  lemma StepKeepsGood(c: Codec, max: u64, s: System, a: Action, s': System)
    requires Lawful(c) && Good(c, max, s) && Step(c, max, s, a, s')
    ensures Good(c, max, s')
    ensures s.answers <= s'.answers
  {
    ControlKept(c, max, s, a, s');
    match a
    case Look(i) => Looked(c, max, s, i, s');
    case Deliver(i, d) => Delivered(c, max, s, i, d, s');
    case WriteArchive(i) => ArchiveWritten(c, max, s, i, s');
    case WriteSidecar(i, at, settled) => SidecarWritten(c, max, s, i, at, settled, s');
    case Respond(i, published) => Responded(c, max, s, i, published, s');
    case _ => Moved(c, max, s, a, s');
  }

  /** The two descriptions of a put agree: every directory that `Cache.PutAt` passes
      through, temporary files and all, is for readers the cache before the handler's write
      steps, after the first of them, or after both. */
  lemma PutIsSteps(c: Codec, max: u64, s: System, i: nat, before: Files, at: u64, settled: bool, now: Files)
    requires i in s.handlers && s.handlers[i].Writing? && s.files == Lasting(before)
    requires PutMidway(c, before, s.handlers[i].release, Linux, LicensedAccount, s.handlers[i].body, at, now)
    ensures var first := ArchiveDone(s, i);
      && Step(c, max, s, WriteArchive(i), first)
      && (|| Lasting(now) == s.files
          || Lasting(now) == first.files
          || (&& c.sri(c.lib.sha256(s.handlers[i].body)).Some?
              && Step(c, max, first, WriteSidecar(i, at, settled), SidecarDone(c, first, i, at, settled))
              && Lasting(now) == SidecarDone(c, first, i, at, settled).files))
    ensures forall r, p, limit: u64 :: Lookup(c, now, r, p, limit) == Lookup(c, Lasting(now), r, p, limit)
  {
    forall r, p, limit: u64 ensures Lookup(c, now, r, p, limit) == Lookup(c, Lasting(now), r, p, limit) {
      LookupLasting(c, now, r, p, limit);
    }
  }

  // ------------------------------------------------------------------- every execution

  ghost predicate Execution(c: Codec, max: u64, states: seq<System>, actions: seq<Action>)
  {
    |states| == |actions| + 1 && Initial(c, states[0])
    && forall n :: 0 <= n < |actions| ==> Step(c, max, states[n], actions[n], states[n + 1])
  }

  lemma {:induction false} AlwaysGood(c: Codec, max: u64, states: seq<System>, actions: seq<Action>, n: nat)
    requires Lawful(c) && Execution(c, max, states, actions) && n <= |actions|
    ensures Good(c, max, states[n])
  {
    if n > 0 {
      AlwaysGood(c, max, states, actions, n - 1);
      StepKeepsGood(c, max, states[n - 1], actions[n - 1], states[n]);
    }
  }

  lemma {:induction false} AnswersGrow(c: Codec, max: u64, states: seq<System>, actions: seq<Action>, n: nat, m: nat)
    requires Lawful(c) && Execution(c, max, states, actions) && n <= m <= |actions|
    ensures states[n].answers <= states[m].answers
    decreases m - n
  {
    if n < m {
      AnswersGrow(c, max, states, actions, n, m - 1);
      AnswersStay(c, max, states, actions, m - 1);
      PrefixOn(states[n].answers, states[m - 1].answers, states[m].answers);
    }
  }

  lemma PrefixOn(a: seq<Answer>, b: seq<Answer>, c: seq<Answer>)
    requires a <= b && b <= c
    ensures a <= c
  {
  }

  lemma AnswersStay(c: Codec, max: u64, states: seq<System>, actions: seq<Action>, n: nat)
    requires Lawful(c) && Execution(c, max, states, actions) && n < |actions|
    ensures states[n].answers <= states[n + 1].answers
  {
    AlwaysGood(c, max, states, actions, n);
    StepKeepsGood(c, max, states[n], actions[n], states[n + 1]);
  }

  /** Whatever the interleaving: a ready response names the archive of the very release
      that was asked for, whose bytes have the SRI that was asked for and validate for
      that release; and in every later state, after any number of further requests,
      failures and crashes, the same bytes lie there. */
  lemma ReadyIsTrueForEver(c: Codec, max: u64, states: seq<System>, actions: seq<Action>, n: nat, m: nat, k: nat)
    requires Lawful(c) && Execution(c, max, states, actions)
    requires n <= m <= |actions| && k < |states[n].answers|
    ensures var a := states[n].answers[k];
      && a.request.schemaVersion == 1 && a.request.platform == Linux && "sha256-" <= a.request.expectedSri
      && Parse(a.request.release) == Some(a.release)
      && a.response == Ready(ArchiveName(a.release, Linux), Show(a.release), a.request.expectedSri)
      && c.sri(c.lib.sha256(a.bytes)) == Some(a.request.expectedSri)
      && Acceptable(c.lib, a.bytes, a.release, max)
      && a.response.path in states[m].files && states[m].files[a.response.path] == a.bytes
  {
    AnswersGrow(c, max, states, actions, n, m);
    AlwaysGood(c, max, states, actions, m);
    assert states[m].answers[k] == states[n].answers[k];
    assert Kept(c, max, states[m].files, states[m].answers[k]);
  }

  /** Every ready response is entered in the record the theorem above speaks of. */
  lemma EveryReadyIsRecorded(c: Codec, max: u64, states: seq<System>, actions: seq<Action>, n: nat)
    requires Lawful(c) && Execution(c, max, states, actions) && n < |actions|
    requires actions[n].Respond?
    requires var i, h := actions[n].who, states[n].handlers;
      i in h && h[i].Settled? && Reply(h[i], actions[n].published).Ready?
    ensures var i, k := actions[n].who, |states[n].answers|;
      && |states[n + 1].answers| == k + 1 && i in states[n].requests
      && states[n + 1].answers[k].request == states[n].requests[i]
      && states[n + 1].answers[k].response == Reply(states[n].handlers[i], actions[n].published)
  {
    AlwaysGood(c, max, states, actions, n);
    Entered(c, max, states[n], actions[n].who, actions[n].published, states[n + 1]);
  }

  /** A handler has renamed the archive of this release into place and not yet the sidecar. */
  predicate InBetween(s: System, r: Release)
  {
    exists i :: i in s.handlers && s.handlers[i].HalfWritten? && s.handlers[i].release == r
  }

  /** One step leaves an entry that has both files as it is, unless a put is between its two
      renames there. */
  lemma PairOutlivesStep(c: Codec, max: u64, s: System, a: Action, s': System, r: Release)
    requires Good(c, max, s) && Step(c, max, s, a, s') && InRange(r) && !Torn(s.files, r) && !InBetween(s, r)
    ensures !Torn(s'.files, r) && !InBetween(s', r)
    ensures s'.files[ArchiveName(r, Linux)] == s.files[ArchiveName(r, Linux)]
    ensures s'.files[MetadataName(r, Linux)] == s.files[MetadataName(r, Linux)]
  {
    NotBetween(c, max, s, a, s', r);
    if a.WriteArchive? || a.WriteSidecar? {
      WriterIsElsewhere(c, max, s, a.who, r);
      NamesApart(s.handlers[a.who].release, r);
      WritesTwoNames(c, max, s, a, s');
    } else {
      WritesNothing(c, max, s, a, s');
    }
  }

  /** A handler that is about to rename works on another release. */
  lemma WriterIsElsewhere(c: Codec, max: u64, s: System, i: nat, r: Release)
    requires AllKnow(c, max, s) && i in s.handlers && (s.handlers[i].Writing? || s.handlers[i].HalfWritten?)
    requires !Torn(s.files, r) && !InBetween(s, r)
    ensures s.handlers[i].release != r && InRange(s.handlers[i].release)
  {
    assert Knows(c, max, s.files, s.answers, s.handlers[i]);
  }

  lemma WritesTwoNames(c: Codec, max: u64, s: System, a: Action, s': System)
    requires Step(c, max, s, a, s') && (a.WriteArchive? || a.WriteSidecar?)
    ensures var r := s.handlers[a.who].release;
      forall n :: n in s.files && n != ArchiveName(r, Linux) && n != MetadataName(r, Linux) ==>
        n in s'.files && s'.files[n] == s.files[n]
  {
  }

  lemma WritesNothing(c: Codec, max: u64, s: System, a: Action, s': System)
    requires Step(c, max, s, a, s') && !a.WriteArchive? && !a.WriteSidecar?
    ensures s'.files == s.files
  {
  }

  lemma NamesApart(r: Release, q: Release)
    requires InRange(r) && InRange(q) && r != q
    ensures ArchiveName(r, Linux) != ArchiveName(q, Linux) && ArchiveName(r, Linux) != MetadataName(q, Linux)
    ensures MetadataName(r, Linux) != MetadataName(q, Linux) && MetadataName(r, Linux) != ArchiveName(q, Linux)
  {
    if ArchiveName(r, Linux) == ArchiveName(q, Linux) { ArchiveNamesDistinct(r, Linux, q, Linux); }
    if MetadataName(r, Linux) == MetadataName(q, Linux) { MetadataNamesDistinct(r, Linux, q, Linux); }
    ArchiveIsNotMetadata(r, Linux, q, Linux);
    ArchiveIsNotMetadata(q, Linux, r, Linux);
  }

  lemma NotBetween(c: Codec, max: u64, s: System, a: Action, s': System, r: Release)
    requires Good(c, max, s) && Step(c, max, s, a, s') && !Torn(s.files, r) && !InBetween(s, r)
    ensures !InBetween(s', r)
  {
    forall i | i in s'.handlers && s'.handlers[i].HalfWritten? ensures s'.handlers[i].release != r {
      HalfWrittenIsNew(c, max, s, a, s', i);
      if i in s.handlers { assert Knows(c, max, s.files, s.answers, s.handlers[i]); }
    }
  }

  lemma HalfWrittenIsNew(c: Codec, max: u64, s: System, a: Action, s': System, i: nat)
    requires Step(c, max, s, a, s') && i in s'.handlers && s'.handlers[i].HalfWritten?
    ensures i in s.handlers
    ensures s'.handlers[i] == s.handlers[i]
      || (s.handlers[i].Writing? && s.handlers[i].release == s'.handlers[i].release)
  {
  }

  /** Nothing replaces an entry: once both files are there and no put is between its two
      renames, readable or not, answered or not, both stay as they are for ever. */
  lemma {:induction false} EntryNeverReplaced(c: Codec, max: u64, states: seq<System>, actions: seq<Action>,
                                              n: nat, m: nat, r: Release)
    requires Lawful(c) && Execution(c, max, states, actions) && n <= m <= |actions| && InRange(r)
    requires !Torn(states[n].files, r) && !InBetween(states[n], r)
    ensures !Torn(states[m].files, r) && !InBetween(states[m], r)
    ensures states[m].files[ArchiveName(r, Linux)] == states[n].files[ArchiveName(r, Linux)]
    ensures states[m].files[MetadataName(r, Linux)] == states[n].files[MetadataName(r, Linux)]
    decreases m - n
  {
    if n < m {
      EntryNeverReplaced(c, max, states, actions, n, m - 1, r);
      AlwaysGood(c, max, states, actions, m - 1);
      PairOutlivesStep(c, max, states[m - 1], actions[m - 1], states[m], r);
    }
  }

  /** Torn writes: in every reachable state, also between the two renames and after a
      crash there, lookup answers nothing, an error, or the truth. */
  lemma NeverVouchesFalsely(c: Codec, max: u64, states: seq<System>, actions: seq<Action>, n: nat,
                            r: Release, p: Platform, limit: u64)
    requires Lawful(c) && Execution(c, max, states, actions) && n <= |actions| && InRange(r)
    ensures match Lookup(c, states[n].files, r, p, limit)
      case Ok(Some(a)) => Describes(c, states[n].files, a, r, p, limit)
      case _ => true
  {
    AlwaysGood(c, max, states, actions, n);
    LookupTruthful(c, states[n].files, r, p, limit);
  }
}
