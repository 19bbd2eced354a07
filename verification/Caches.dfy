/** The archive cache: an archive and a sidecar per release and platform, written by
    two separate renames; looking entries up, storing them, and the acquisition
    routes that end in the cache. */
module Caches {
  import opened Wrappers
  import opened Texts
  import opened Temps
  import opened Hosts
  import opened Releases
  import opened Archives

  datatype SourceKind = LicensedAccount | PreAcquiredArchive | SignedUrl

  datatype Provenance = Provenance(release: Release, platform: Platform, source: SourceKind, sha256: string,
                                   nixSri: string, size: nat, acquiredAtUnix: nat)

  datatype Artifact = Artifact(archive: string, provenance: Provenance)

  /** More library code: the sidecar's JSON, and the SRI form of a hex digest. */
  datatype Codec = Codec(lib: Library, encode: Provenance -> Bytes, decode: Bytes -> Option<Provenance>,
                         sri: string -> Option<string>)

  /** The widths of the numbers in a provenance: 16 and 32 bits for the release, 64 for
      size and time. */
  predicate Fits(p: Provenance)
  {
    InRange(p.release) && p.size <= U64_MAX && p.acquiredAtUnix <= U64_MAX
  }

  /** What is assumed of it: a sidecar reads back as it was written, and a digest
      is never empty and always has an SRI form. */
  ghost predicate Lawful(c: Codec)
  {
    (forall p: Provenance :: Fits(p) ==> c.decode(c.encode(p)) == Some(p))
    && (forall b: Bytes :: c.lib.sha256(b) != "" && c.sri(c.lib.sha256(b)).Some?)
  }

  /** The regular files of the cache directory. */
  type Files = map<string, Bytes>

  // --------------------------------------------------------------------- lookup

  /** `get_with_max`. */
  function Lookup(c: Codec, files: Files, r: Release, p: Platform, max: u64): Result<Option<Artifact>, Error>
  {
    var archive, metadata := ArchiveName(r, p), MetadataName(r, p);
    if archive !in files || metadata !in files then Ok(None)
    else match c.decode(files[metadata])
      case None => Err(Metadata)
      case Some(stored) =>
        if stored.release != r || stored.platform != p then Err(InvalidArchive)
        else match Verdict(c.lib, Regular(files[archive]), r, max)
          case Err(e) => Err(e)
          case Ok((sha, size)) =>
            if stored.sha256 != "" && stored.sha256 != sha then Err(InvalidArchive)
            else if stored.size != 0 && stored.size != size then Err(InvalidArchive)
            else if stored.nixSri == "" && c.sri(sha).None? then Err(InvalidArchive)
            else Ok(Some(Artifact(archive, stored.(
              sha256 := if stored.sha256 == "" then sha else stored.sha256,
              nixSri := if stored.nixSri == "" then c.sri(sha).value else stored.nixSri,
              size := if stored.size == 0 then size else stored.size))))
  }

  /** An artifact describes the bytes stored under its name. */
  predicate Describes(c: Codec, files: Files, a: Artifact, r: Release, p: Platform, max: u64)
  {
    && a.archive == ArchiveName(r, p) && a.archive in files
    && a.provenance.release == r && a.provenance.platform == p
    && a.provenance.sha256 == c.lib.sha256(files[a.archive])
    && a.provenance.size == |files[a.archive]|
    && Some(a.provenance.nixSri) == c.sri(c.lib.sha256(files[a.archive]))
    && Acceptable(c.lib, files[a.archive], r, max)
  }

  /** A sidecar with its own SRI, whether or not it fits the archive beside it. */
  predicate SidecarOk(c: Codec, sidecar: Bytes)
  {
    match c.decode(sidecar)
    case Some(p) => p.sha256 != "" && Some(p.nixSri) == c.sri(p.sha256)
    case None => true
  }

  /** Every sidecar in the cache is one the cache could have written. */
  ghost predicate Sound(c: Codec, files: Files)
  {
    forall r, p :: InRange(r) && MetadataName(r, p) in files ==> SidecarOk(c, files[MetadataName(r, p)])
  }

  /** Lookup never vouches for bytes it does not have: whatever archive lies beside
      whatever sound sidecar, the answer is nothing, an error, or the truth. */
  lemma LookupTruthful(c: Codec, files: Files, r: Release, p: Platform, max: u64)
    requires Sound(c, files) && InRange(r)
    ensures match Lookup(c, files, r, p, max)
      case Ok(Some(a)) => Describes(c, files, a, r, p, max)
      case _ => true
  {
    if ArchiveName(r, p) in files && MetadataName(r, p) in files {
      var sidecar := c.decode(files[MetadataName(r, p)]);
      assert SidecarOk(c, files[MetadataName(r, p)]);
      AcceptsExactly(c.lib, files[ArchiveName(r, p)], r, max);
      if Lookup(c, files, r, p, max).Ok? {
        assert sidecar.Some? && sidecar.value.sha256 == c.lib.sha256(files[ArchiveName(r, p)]);
      }
    }
  }

  /** In any cache at all, sound or not, digest, size, release and platform of an
      answer are right; the SRI is right exactly when none was stored or the right one
      was. */
  lemma LookupInAnyCache(c: Codec, files: Files, r: Release, p: Platform, max: u64)
    ensures var found := Lookup(c, files, r, p, max);
      found.Ok? && found.value.Some? ==>
        var a, b, stored := found.value.value, files[ArchiveName(r, p)], c.decode(files[MetadataName(r, p)]).value;
        && a.archive == ArchiveName(r, p)
        && a.provenance.release == r && a.provenance.platform == p
        && a.provenance.sha256 == c.lib.sha256(b) && a.provenance.size == |b|
        && Acceptable(c.lib, b, r, max)
        && (Some(a.provenance.nixSri) == c.sri(c.lib.sha256(b))
            <==> stored.nixSri == "" || Some(stored.nixSri) == c.sri(c.lib.sha256(b)))
  {
    if ArchiveName(r, p) in files && MetadataName(r, p) in files {
      AcceptsExactly(c.lib, files[ArchiveName(r, p)], r, max);
    }
  }

  /** Nothing is found exactly when one of the two files is missing. */
  lemma NothingExactly(c: Codec, files: Files, r: Release, p: Platform, max: u64)
    ensures Lookup(c, files, r, p, max) == Ok(None) <==>
      ArchiveName(r, p) !in files || MetadataName(r, p) !in files
  {
  }

  /** What is wrong with an entry that has both its files: the sidecar does not read, is
      for something else, the archive is not acceptable, or a digest or size that is
      written down differs; or there is no SRI to fill in. */
  predicate Spoiled(c: Codec, sidecar: Bytes, b: Bytes, r: Release, p: Platform, max: u64)
  {
    var read, sha := c.decode(sidecar), c.lib.sha256(b);
    || read.None?
    || read.value.release != r || read.value.platform != p
    || !Acceptable(c.lib, b, r, max)
    || (read.value.sha256 != "" && read.value.sha256 != sha)
    || (read.value.size != 0 && read.value.size != |b|)
    || (read.value.nixSri == "" && c.sri(sha).None?)
  }

  /** With both files there the answer is an error exactly when the entry is spoiled in one
      of these ways, and otherwise the sidecar with each empty field filled in from the
      bytes. */
  lemma EntryExactly(c: Codec, files: Files, r: Release, p: Platform, max: u64)
    requires ArchiveName(r, p) in files && MetadataName(r, p) in files
    ensures var found, b, sidecar := Lookup(c, files, r, p, max), files[ArchiveName(r, p)], files[MetadataName(r, p)];
      && (found.Err? <==> Spoiled(c, sidecar, b, r, p, max))
      && (!Spoiled(c, sidecar, b, r, p, max) ==>
            var stored, sha := c.decode(sidecar).value, c.lib.sha256(b);
            found == Ok(Some(Artifact(ArchiveName(r, p), Provenance(r, p, stored.source,
              if stored.sha256 == "" then sha else stored.sha256,
              if stored.nixSri == "" then c.sri(sha).value else stored.nixSri,
              if stored.size == 0 then |b| else stored.size,
              stored.acquiredAtUnix)))))
  {
    AcceptsExactly(c.lib, files[ArchiveName(r, p)], r, max);
  }

  /** Which error it is: unreadable metadata, what the validation says, or an invalid
      archive. */
  lemma EntryErrors(c: Codec, files: Files, r: Release, p: Platform, max: u64)
    requires ArchiveName(r, p) in files && MetadataName(r, p) in files
    ensures var found, read := Lookup(c, files, r, p, max), c.decode(files[MetadataName(r, p)]);
      var checked := Verdict(c.lib, Regular(files[ArchiveName(r, p)]), r, max);
      && (read.None? ==> found == Err(Metadata))
      && (read.Some? && (read.value.release != r || read.value.platform != p) ==> found == Err(InvalidArchive))
      && (read.Some? && read.value.release == r && read.value.platform == p && checked.Err? ==> found == Err(checked.error))
      && (read.Some? && checked.Ok? && found.Err? ==> found == Err(InvalidArchive))
  {
  }

  /** A whole entry whose sidecar agrees with the archive is answered with the sidecar. */
  lemma WholeEntryFound(c: Codec, files: Files, r: Release, p: Platform, b: Bytes, stored: Provenance, max: u64)
    requires ArchiveName(r, p) in files && files[ArchiveName(r, p)] == b && Acceptable(c.lib, b, r, max)
    requires MetadataName(r, p) in files && c.decode(files[MetadataName(r, p)]) == Some(stored)
    requires stored.release == r && stored.platform == p
    requires stored.sha256 == c.lib.sha256(b) != "" && stored.size == |b|
    requires stored.nixSri != "" || c.sri(c.lib.sha256(b)) == Some(stored.nixSri)
    ensures Lookup(c, files, r, p, max) == Ok(Some(Artifact(ArchiveName(r, p), stored)))
  {
    AcceptsExactly(c.lib, b, r, max);
  }

  /** A stored SRI is trusted: a sidecar with the right digest and any other SRI text
      is answered with that text. */
  lemma StoredSriTrusted(c: Codec, r: Release, p: Platform, b: Bytes, max: u64, claimed: string)
    requires Lawful(c) && InRange(r) && Acceptable(c.lib, b, r, max) && claimed != ""
    ensures var stored := Provenance(r, p, PreAcquiredArchive, c.lib.sha256(b), claimed, |b|, 0);
      var files := map[ArchiveName(r, p) := b, MetadataName(r, p) := c.encode(stored)];
      Lookup(c, files, r, p, max) == Ok(Some(Artifact(ArchiveName(r, p), stored)))
  {
    var stored := Provenance(r, p, PreAcquiredArchive, c.lib.sha256(b), claimed, |b|, 0);
    var archive, metadata := ArchiveName(r, p), MetadataName(r, p);
    assert archive != metadata by { ArchiveIsNotMetadata(r, p, r, p); }
    var files := map[archive := b, metadata := c.encode(stored)];
    WholeEntryFound(c, files, r, p, b, stored, max);
  }

  // ---------------------------------------------------------------- storing an entry

  function Recorded(c: Codec, r: Release, p: Platform, source: SourceKind, b: Bytes, at: u64): Provenance
    requires c.sri(c.lib.sha256(b)).Some?
  {
    Provenance(r, p, source, c.lib.sha256(b), c.sri(c.lib.sha256(b)).value, |b|, at)
  }

  /** The cache after the first rename. */
  function WithArchive(files: Files, r: Release, p: Platform, b: Bytes): Files
  {
    files[ArchiveName(r, p) := b]
  }

  /** The cache after the second. */
  function WithEntry(c: Codec, files: Files, r: Release, p: Platform, b: Bytes, stored: Provenance): Files
  {
    WithArchive(files, r, p, b)[MetadataName(r, p) := c.encode(stored)]
  }

  /** Without temporary files, which no lookup reads. */
  function Lasting(files: Files): Files
  {
    map n | n in files && !TempName(n) :: files[n]
  }

  lemma EntryNamesLast(r: Release, p: Platform)
    ensures !TempName(ArchiveName(r, p)) && !TempName(MetadataName(r, p))
  {
    assert ArchiveName(r, p)[0] == 'F' && MetadataName(r, p)[0] == 'f' && TEMP_PREFIX[0] == '.';
  }

  /** Lookups see only the lasting files. */
  lemma LookupLasting(c: Codec, files: Files, r: Release, p: Platform, max: u64)
    ensures Lookup(c, Lasting(files), r, p, max) == Lookup(c, files, r, p, max)
  {
    EntryNamesLast(r, p);
  }

  /** A stored entry is found, and describes what was stored. */
  lemma StoredIsFound(c: Codec, files: Files, r: Release, p: Platform, source: SourceKind, b: Bytes, at: u64, max: u64)
    requires Lawful(c) && InRange(r) && Acceptable(c.lib, b, r, max)
    ensures var stored := Recorded(c, r, p, source, b, at);
      var after := WithEntry(c, files, r, p, b, stored);
      && Lookup(c, after, r, p, max) == Ok(Some(Artifact(ArchiveName(r, p), stored)))
      && Describes(c, after, Artifact(ArchiveName(r, p), stored), r, p, max)
  {
    assert ArchiveName(r, p) != MetadataName(r, p) by { ArchiveIsNotMetadata(r, p, r, p); }
    var stored := Recorded(c, r, p, source, b, at);
    assert Fits(stored);
    WholeEntryFound(c, WithEntry(c, files, r, p, b, stored), r, p, b, stored, max);
  }

  /** Storing one entry, or part of it, leaves every other entry as it was. */
  lemma OthersUntouched(c: Codec, files: Files, r: Release, p: Platform, b: Bytes, stored: Provenance,
                        q: Release, o: Platform, max: u64)
    requires InRange(r) && InRange(q) && (r != q || p != o)
    ensures Lookup(c, WithArchive(files, r, p, b), q, o, max) == Lookup(c, files, q, o, max)
    ensures Lookup(c, WithEntry(c, files, r, p, b, stored), q, o, max) == Lookup(c, files, q, o, max)
  {
    if ArchiveName(r, p) == ArchiveName(q, o) { ArchiveNamesDistinct(r, p, q, o); }
    if MetadataName(r, p) == MetadataName(q, o) { MetadataNamesDistinct(r, p, q, o); }
    ArchiveIsNotMetadata(r, p, q, o);
    ArchiveIsNotMetadata(q, o, r, p);
  }

  /** Each of the two renames keeps the cache sound, so a stop between them does too. */
  lemma PutKeepsSound(c: Codec, files: Files, r: Release, p: Platform, source: SourceKind, b: Bytes, at: u64)
    requires Lawful(c) && Sound(c, files) && InRange(r) && |b| <= U64_MAX
    ensures Sound(c, WithArchive(files, r, p, b))
    ensures Sound(c, WithEntry(c, files, r, p, b, Recorded(c, r, p, source, b, at)))
  {
    assert Fits(Recorded(c, r, p, source, b, at));
    forall q, o | InRange(q)
      ensures MetadataName(q, o) != ArchiveName(r, p)
      ensures MetadataName(q, o) == MetadataName(r, p) ==> q == r && o == p
    {
      ArchiveIsNotMetadata(r, p, q, o);
      if MetadataName(q, o) == MetadataName(r, p) { MetadataNamesDistinct(q, o, r, p); }
    }
  }

  /** What a put that is stopped at some point may leave. */
  ghost predicate PutMidway(c: Codec, before: Files, r: Release, p: Platform, source: SourceKind, b: Bytes, at: u64, now: Files)
  {
    Lasting(now) == Lasting(before)
    || Lasting(now) == WithArchive(Lasting(before), r, p, b)
    || (c.sri(c.lib.sha256(b)).Some?
        && Lasting(now) == WithEntry(c, Lasting(before), r, p, b, Recorded(c, r, p, source, b, at)))
  }

  lemma SoundLasting(c: Codec, files: Files)
    ensures Sound(c, files) <==> Sound(c, Lasting(files))
  {
    forall r, p ensures !TempName(MetadataName(r, p)) { EntryNamesLast(r, p); }
  }

  lemma MidwaySound(c: Codec, before: Files, r: Release, p: Platform, source: SourceKind, b: Bytes, at: u64, now: Files)
    requires Lawful(c) && Sound(c, before) && InRange(r) && |b| <= U64_MAX
    requires PutMidway(c, before, r, p, source, b, at, now)
    ensures Sound(c, now)
  {
    SoundLasting(c, before);
    SoundLasting(c, now);
    PutKeepsSound(c, Lasting(before), r, p, source, b, at);
  }

  /** What a put in progress means for readers of the real directory, temporary files and
      all: every other entry is answered as before, and the entry itself as before, or as
      with the new archive beside the old sidecar, or as the whole new entry. */
  lemma MidwayAnswers(c: Codec, before: Files, r: Release, p: Platform, source: SourceKind, b: Bytes, at: u64, now: Files,
                      q: Release, o: Platform, max: u64)
    requires InRange(r) && InRange(q) && PutMidway(c, before, r, p, source, b, at, now)
    ensures r != q || p != o ==> Lookup(c, now, q, o, max) == Lookup(c, before, q, o, max)
    ensures
      || Lookup(c, now, q, o, max) == Lookup(c, before, q, o, max)
      || Lookup(c, now, q, o, max) == Lookup(c, WithArchive(before, r, p, b), q, o, max)
      || (c.sri(c.lib.sha256(b)).Some?
          && Lookup(c, now, q, o, max)
             == Lookup(c, WithEntry(c, before, r, p, b, Recorded(c, r, p, source, b, at)), q, o, max))
  {
    LookupLasting(c, now, q, o, max);
    LookupLasting(c, before, q, o, max);
    LastingArchive(before, r, p, b);
    LookupLasting(c, WithArchive(before, r, p, b), q, o, max);
    if r != q || p != o {
      OthersUntouched(c, Lasting(before), r, p, b, if c.sri(c.lib.sha256(b)).Some? then Recorded(c, r, p, source, b, at)
                                                   else Provenance(r, p, source, "", "", 0, 0), q, o, max);
    }
    if c.sri(c.lib.sha256(b)).Some? {
      var stored := Recorded(c, r, p, source, b, at);
      LastingEntry(c, before, r, p, b, stored);
      LookupLasting(c, WithEntry(c, before, r, p, b, stored), q, o, max);
    }
  }

  lemma LastingArchive(files: Files, r: Release, p: Platform, b: Bytes)
    ensures Lasting(WithArchive(files, r, p, b)) == WithArchive(Lasting(files), r, p, b)
  {
    EntryNamesLast(r, p);
  }

  lemma LastingEntry(c: Codec, files: Files, r: Release, p: Platform, b: Bytes, stored: Provenance)
    ensures Lasting(WithEntry(c, files, r, p, b, stored)) == WithEntry(c, Lasting(files), r, p, b, stored)
  {
    EntryNamesLast(r, p);
  }

  /** An entry just stored describes its bytes. */
  lemma StoredDescribes(c: Codec, before: Files, now: Files, r: Release, p: Platform, source: SourceKind, b: Bytes, at: u64, max: u64)
    requires Lawful(c) && InRange(r) && Acceptable(c.lib, b, r, max)
    requires Lasting(now) == WithEntry(c, Lasting(before), r, p, b, Recorded(c, r, p, source, b, at))
    ensures Describes(c, now, Artifact(ArchiveName(r, p), Recorded(c, r, p, source, b, at)), r, p, max)
  {
    StoredIsFound(c, Lasting(before), r, p, source, b, at, max);
    assert ArchiveName(r, p) in Lasting(now);
  }

  // -------------------------------------------------------------------------- routes

  /** What a request to the network comes to: an error before any byte, or a stream
      of chunks in which an error may occur. */
  datatype Delivery = Refused(error: Error) | Stream(chunks: seq<Option<Bytes>>)

  /** Where an acquisition may look. A credential file that cannot be read is `None`. */
  datatype Sources = Sources(signed: Option<Delivery>, username: Option<Option<string>>,
                             password: Option<Option<string>>, account: Delivery, offline: bool)

  function GatherFrom(chunks: seq<Option<Bytes>>, i: nat, body: Bytes, max: u64): Result<Bytes, Error>
    requires i <= |chunks|
    decreases |chunks| - i
  {
    if i == |chunks| then Ok(body)
    else match chunks[i]
      case None => Err(Http)
      case Some(chunk) =>
        if |body| + |chunk| > max then Err(TooLarge) else GatherFrom(chunks, i + 1, body + chunk, max)
  }

  /** Every chunk arrived. */
  predicate AllArrive(chunks: seq<Option<Bytes>>)
  {
    forall i :: 0 <= i < |chunks| ==> chunks[i].Some?
  }

  /** The chunks one after the other. */
  function Joined(chunks: seq<Option<Bytes>>): Bytes
    requires AllArrive(chunks)
  {
    if chunks == [] then [] else Joined(chunks[..|chunks| - 1]) + chunks[|chunks| - 1].value
  }

  lemma {:induction false} JoinedGrows(chunks: seq<Option<Bytes>>, i: nat)
    requires AllArrive(chunks) && i <= |chunks|
    ensures Joined(chunks[..i]) <= Joined(chunks)
    decreases |chunks|
  {
    if i < |chunks| {
      var front := chunks[..|chunks| - 1];
      JoinedGrows(front, i);
      assert front[..i] == chunks[..i];
    } else {
      assert chunks[..i] == chunks;
    }
  }

  /** The first `i` chunks arrive within the limit, and then the stream breaks. */
  predicate BreaksAt(chunks: seq<Option<Bytes>>, i: nat, max: u64)
  {
    i < |chunks| && AllArrive(chunks[..i]) && |Joined(chunks[..i])| <= max && chunks[i].None?
  }

  /** The first `i` chunks arrive and are too long. */
  predicate OverflowsAt(chunks: seq<Option<Bytes>>, i: nat, max: u64)
  {
    i <= |chunks| && AllArrive(chunks[..i]) && |Joined(chunks[..i])| > max
  }

  /** What gathering comes to: everything in order if all of it arrives and fits;
      otherwise whichever of the two faults comes first. */
  lemma {:induction false} GatherMeans(chunks: seq<Option<Bytes>>, i: nat, max: u64)
    requires i <= |chunks| && AllArrive(chunks[..i]) && |Joined(chunks[..i])| <= max
    ensures var r := GatherFrom(chunks, i, Joined(chunks[..i]), max);
      && (r.Ok? <==> AllArrive(chunks) && |Joined(chunks)| <= max)
      && (r.Ok? ==> r.value == Joined(chunks))
      && (r == Err(Http) ==> exists j :: BreaksAt(chunks, j, max))
      && (r.Err? && r != Err(Http) ==> r == Err(TooLarge) && exists j :: OverflowsAt(chunks, j, max))
    decreases |chunks| - i
  {
    if i == |chunks| {
      assert chunks[..i] == chunks;
    } else if chunks[i].None? {
      assert BreaksAt(chunks, i, max);
    } else {
      var next := chunks[..i + 1];
      assert next[..i] == chunks[..i];
      assert Joined(next) == Joined(chunks[..i]) + chunks[i].value;
      if |Joined(next)| > max {
        assert OverflowsAt(chunks, i + 1, max);
        if AllArrive(chunks) { JoinedGrows(chunks, i + 1); }
      } else {
        GatherMeans(chunks, i + 1, max);
      }
    }
  }

  /** A stream cannot both break and overflow first, so each error says which it was. */
  lemma OneFaultFirst(chunks: seq<Option<Bytes>>, i: nat, j: nat, max: u64)
    requires BreaksAt(chunks, i, max)
    ensures !OverflowsAt(chunks, j, max)
  {
    if j <= i {
      JoinedGrows(chunks[..i], j);
      assert chunks[..i][..j] == chunks[..j];
    } else if j <= |chunks| {
      assert chunks[..j][i].None?;
    }
  }

  /** The bytes a delivery puts into the cache, or why it puts none there. */
  function Obtained(c: Codec, d: Delivery, r: Release, max: u64): Result<Bytes, Error>
  {
    match d
    case Refused(e) => Err(e)
    case Stream(chunks) =>
      match GatherFrom(chunks, 0, [], max)
      case Err(e) => Err(e)
      case Ok(body) =>
        match Verdict(c.lib, Regular(body), r, max)
        case Err(e) => Err(e)
        case Ok(_) => Ok(body)
  }

  /** What a delivery comes to, without the steps: bytes exactly when every chunk arrives,
      they fit, and together they are an acceptable archive; a refusal is passed on. */
  lemma ObtainedExactly(c: Codec, d: Delivery, r: Release, max: u64)
    ensures var got := Obtained(c, d, r, max);
      && (d.Refused? ==> got == Err(d.error))
      && (d.Stream? ==>
            && (got.Ok? <==> AllArrive(d.chunks) && |Joined(d.chunks)| <= max
                             && Acceptable(c.lib, Joined(d.chunks), r, max))
            && (got.Ok? ==> got.value == Joined(d.chunks))
            && ((exists i :: BreaksAt(d.chunks, i, max)) ==> got == Err(Http))
            && ((exists i :: OverflowsAt(d.chunks, i, max)) ==> got == Err(TooLarge)))
  {
    if d.Stream? {
      GatheredExactly(d.chunks, max);
      if AllArrive(d.chunks) { AcceptsExactly(c.lib, Joined(d.chunks), r, max); }
    }
  }

  lemma GatheredExactly(chunks: seq<Option<Bytes>>, max: u64)
    ensures var r := GatherFrom(chunks, 0, [], max);
      && (r.Ok? <==> AllArrive(chunks) && |Joined(chunks)| <= max)
      && (r.Ok? ==> r.value == Joined(chunks))
      && (r == Err(Http) <==> exists i :: BreaksAt(chunks, i, max))
      && (r == Err(TooLarge) <==> exists i :: OverflowsAt(chunks, i, max))
  {
    GatherMeans(chunks, 0, max);
    assert chunks[..0] == [];
    forall i, j | BreaksAt(chunks, i, max) ensures !OverflowsAt(chunks, j, max) {
      OneFaultFirst(chunks, i, j, max);
    }
    forall i | OverflowsAt(chunks, i, max) ensures !(AllArrive(chunks) && |Joined(chunks)| <= max) {
      if AllArrive(chunks) { JoinedGrows(chunks, i); }
    }
    forall i: nat | BreaksAt(chunks, i, max) ensures !AllArrive(chunks) { assert chunks[i].None?; }
  }

  /** `AccountCredentials::from_files`. */
  function CredentialFault(username: Option<string>, password: Option<string>): Option<Error>
  {
    if username.None? || password.None? then Some(Io)
    else if Blank(username.value) || Blank(password.value) then Some(InvalidRelease)
    else None
  }

  function Fetched(c: Codec, r: Release, p: Platform, source: SourceKind, b: Bytes, at: u64): Artifact
    requires c.sri(c.lib.sha256(b)).Some?
  {
    Artifact(ArchiveName(r, p), Recorded(c, r, p, source, b, at))
  }

  /** The signed URL is tried, and delivers. */
  predicate SignedDelivers(c: Codec, s: Sources, r: Release, max: u64)
  {
    !s.offline && s.signed.Some? && Obtained(c, s.signed.value, r, max).Ok?
  }

  /** Both credential files can be read and have something in them besides white space. */
  predicate Usable(s: Sources)
  {
    && s.username.Some? && s.username.value.Some?
    && (exists i :: 0 <= i < |s.username.value.value| && !IsSpace(s.username.value.value[i]))
    && s.password.Some? && s.password.value.Some?
    && (exists i :: 0 <= i < |s.password.value.value| && !IsSpace(s.password.value.value[i]))
  }

  /** One credential file is named and the other is not. */
  predicate HalfAPair(s: Sources)
  {
    !s.offline && s.username.Some? != s.password.Some?
  }

  /** Both are named, and one cannot be read or is blank. */
  predicate Unusable(s: Sources)
  {
    !s.offline && s.username.Some? && s.password.Some? && !Usable(s)
  }

  /** The account is tried, and delivers. */
  predicate AccountDelivers(c: Codec, s: Sources, r: Release, max: u64)
  {
    !s.offline && Usable(s) && Obtained(c, s.account, r, max).Ok?
  }

  /** What is stored of an acquisition, field by field. */
  lemma FetchedFields(c: Codec, r: Release, p: Platform, source: SourceKind, b: Bytes, at: u64)
    requires c.sri(c.lib.sha256(b)).Some?
    ensures var a := Fetched(c, r, p, source, b, at);
      && a.archive == ArchiveName(r, p)
      && a.provenance == Provenance(r, p, source, c.lib.sha256(b), c.sri(c.lib.sha256(b)).value, |b|, at)
  {
  }

  // ------------------------------------------------------------------- the directory

  class Cache {
    const c: Codec
    const healthy: bool
    var files: Files
    ghost var history: seq<Files>

    constructor (c: Codec, files: Files, healthy: bool)
      ensures this.c == c && this.files == files && this.healthy == healthy && history == []
    {
      this.c := c;
      this.files := files;
      this.healthy := healthy;
      history := [];
    }

    method GetWithMax(r: Release, p: Platform, max: u64) returns (found: Result<Option<Artifact>, Error>)
      ensures found == Lookup(c, files, r, p, max)
      ensures found == Ok(None) <==> ArchiveName(r, p) !in files || MetadataName(r, p) !in files
      ensures found.Err? <==>
        ArchiveName(r, p) in files && MetadataName(r, p) in files
        && Spoiled(c, files[MetadataName(r, p)], files[ArchiveName(r, p)], r, p, max)
    {
      if ArchiveName(r, p) in files && MetadataName(r, p) in files { EntryExactly(c, files, r, p, max); }
      var archive, metadata := ArchiveName(r, p), MetadataName(r, p);
      if archive !in files || metadata !in files {
        return Ok(None);
      }
      var read := c.decode(files[metadata]);
      if read.None? { return Err(Metadata); }
      var provenance := read.value;
      if provenance.release != r || provenance.platform != p { return Err(InvalidArchive); }
      var checked := ValidateArchive(c.lib, Regular(files[archive]), r, max);
      if checked.Err? { return Err(checked.error); }
      var (sha256, size) := checked.value;
      if provenance.sha256 != "" && provenance.sha256 != sha256 { return Err(InvalidArchive); }
      if provenance.size != 0 && provenance.size != size { return Err(InvalidArchive); }
      if provenance.sha256 == "" { provenance := provenance.(sha256 := sha256); }
      if provenance.nixSri == "" {
        var sri := c.sri(sha256);
        if sri.None? { return Err(InvalidArchive); }
        provenance := provenance.(nixSri := sri.value);
      }
      if provenance.size == 0 { provenance := provenance.(size := size); }
      return Ok(Some(Artifact(archive, provenance)));
    }

    /** A temporary file with these contents is made and renamed to `name`. A failure
        may leave the temporary file behind. */
    method Publish(name: string, contents: Bytes) returns (ok: bool)
      requires !TempName(name)
      modifies this
      ensures Lasting(files) == if ok then Lasting(old(files))[name := contents] else Lasting(old(files))
      ensures healthy ==> ok
      ensures |history| > |old(history)| && history[..|old(history)|] == old(history)
      ensures forall i :: |old(history)| <= i < |history| ==>
        Lasting(history[i]) == Lasting(old(files)) || (ok && Lasting(history[i]) == Lasting(files))
    {
      ghost var was := files;
      var temp := FreshName(files.Keys);
      files := files[temp := contents];
      history := history + [files];
      assert Lasting(files) == Lasting(was);
      ok := Luck(healthy);
      if ok {
        files := (files - {temp})[name := contents];
        assert Lasting(files) == Lasting(was)[name := contents];
        history := history + [files];
      }
    }

    /** `copy_file`: chunk by chunk, with a saturating count. */
    method CopyFile(input: Bytes, max: u64) returns (r: Result<Bytes, Error>)
      ensures r.Ok? ==> r.value == input
      ensures |input| <= max ==> r.Ok?
      ensures r.Ok? && max < U64_MAX ==> |input| <= max
    {
      var output: Bytes := [];
      var copied: u64 := 0;
      while |output| < |input|
        invariant |output| <= |input| && output == input[..|output|]
        invariant copied == if |output| <= U64_MAX then |output| else U64_MAX
        invariant copied <= max
        decreases |input| - |output|
      {
        var left := |input| - |output|;
        var read := if left < 1024 * 1024 then left else 1024 * 1024;
        copied := if copied + read <= U64_MAX then copied + read else U64_MAX;
        if copied > max { return Err(TooLarge); }
        output := output + input[|output|..|output| + read];
      }
      return Ok(output);
    }

    /** `put_at`: nothing changes unless the input validates; then the archive and the
        sidecar take their names one after the other. */
    method PutAt(r: Release, p: Platform, source: SourceKind, input: Input, max: u64, at: u64)
      returns (put: Result<Artifact, Error>)
      modifies this
      ensures Verdict(c.lib, input, r, max).Err? ==>
        put == Err(Verdict(c.lib, input, r, max).error) && files == old(files) && history == old(history)
      ensures put.Ok? ==>
        && input.Regular? && Acceptable(c.lib, input.bytes, r, max) && c.sri(c.lib.sha256(input.bytes)).Some?
        && var stored := Recorded(c, r, p, source, input.bytes, at);
           stored == Provenance(r, p, source, c.lib.sha256(input.bytes), c.sri(c.lib.sha256(input.bytes)).value,
                                |input.bytes|, at)
           && put.value == Artifact(ArchiveName(r, p), stored)
           && Lasting(files) == WithEntry(c, Lasting(old(files)), r, p, input.bytes, stored)
      ensures input.Regular? ==>
        |old(history)| <= |history| && history[..|old(history)|] == old(history)
        && PutMidway(c, old(files), r, p, source, input.bytes, at, files)
        && forall i :: |old(history)| <= i < |history| ==>
             PutMidway(c, old(files), r, p, source, input.bytes, at, history[i])
      ensures put.Err? && healthy && Verdict(c.lib, input, r, max).Ok? ==> c.sri(c.lib.sha256(input.bytes)).None?
      ensures Lawful(c) && Sound(c, old(files)) && InRange(r) ==> Sound(c, files)
    {
      var checked := ValidateArchive(c.lib, input, r, max);
      if checked.Err? { return Err(checked.error); }
      AcceptsExactly(c.lib, input.bytes, r, max);
      // The input was measured by the validation, so the copy's own limit cannot be hit.
      var copied := CopyFile(input.bytes, max);
      put := StoreBoth(r, p, source, copied.value, checked.value.0, checked.value.1, at);
      if Lawful(c) && Sound(c, old(files)) && InRange(r) {
        MidwaySound(c, old(files), r, p, source, input.bytes, at, files);
      }
    }

    /** The two renames. */
    method StoreBoth(r: Release, p: Platform, source: SourceKind, b: Bytes, sha256: string, size: nat, at: u64)
      returns (put: Result<Artifact, Error>)
      requires sha256 == c.lib.sha256(b) && size == |b|
      modifies this
      ensures |old(history)| <= |history| && history[..|old(history)|] == old(history)
      ensures PutMidway(c, old(files), r, p, source, b, at, files)
      ensures forall i :: |old(history)| <= i < |history| ==>
        PutMidway(c, old(files), r, p, source, b, at, history[i])
      ensures put.Ok? ==>
        c.sri(sha256).Some?
        && put.value == Fetched(c, r, p, source, b, at)
        && Lasting(files) == WithEntry(c, Lasting(old(files)), r, p, b, Recorded(c, r, p, source, b, at))
      ensures put.Err? && healthy ==> c.sri(sha256).None?
    {
      EntryNamesLast(r, p);
      ghost var past := history;
      var archived := Publish(ArchiveName(r, p), b);
      if !archived { return Err(Io); }
      var sri := c.sri(sha256);
      if sri.None? { return Err(InvalidArchive); }
      var stored := Provenance(r, p, source, sha256, sri.value, size, at);
      ghost var mid := history;
      var described := Publish(MetadataName(r, p), c.encode(stored));
      assert history[..|past|] == history[..|mid|][..|past|];
      assert forall i :: |past| <= i < |mid| ==> history[i] == history[..|mid|][i];
      if !described { return Err(Io); }
      // The mode changes and the directory flush: the entry is whole even if they fail.
      var settled := Luck(healthy);
      if !settled { return Err(Io); }
      return Ok(Artifact(ArchiveName(r, p), stored));
    }

    /** The body of a download: chunks until the end, an error, or too many bytes. */
    method Download(chunks: seq<Option<Bytes>>, max: u64) returns (r: Result<Bytes, Error>)
      ensures r == GatherFrom(chunks, 0, [], max)
      ensures r.Ok? <==> AllArrive(chunks) && |Joined(chunks)| <= max
      ensures r.Ok? ==> r.value == Joined(chunks)
      ensures r == Err(Http) <==> exists i :: BreaksAt(chunks, i, max)
      ensures r == Err(TooLarge) <==> exists i :: OverflowsAt(chunks, i, max)
    {
      GatheredExactly(chunks, max);
      var body: Bytes := [];
      var i := 0;
      while i < |chunks|
        invariant 0 <= i <= |chunks| && |body| <= max
        invariant GatherFrom(chunks, 0, [], max) == GatherFrom(chunks, i, body, max)
      {
        if chunks[i].None? { return Err(Http); }
        var size := |body| + |chunks[i].value|;
        if size > U64_MAX || size > max { return Err(TooLarge); }
        body := body + chunks[i].value;
        i := i + 1;
      }
      return Ok(body);
    }

    /** One acquisition route: what the network delivers is stored if it validates. */
    method Fetch(r: Release, p: Platform, source: SourceKind, delivery: Delivery, max: u64, at: u64)
      returns (got: Result<Artifact, Error>)
      modifies this
      ensures got.Ok? ==>
        && Obtained(c, delivery, r, max).Ok? && c.sri(c.lib.sha256(Obtained(c, delivery, r, max).value)).Some?
        && var b := Obtained(c, delivery, r, max).value;
           got.value == Artifact(ArchiveName(r, p), Recorded(c, r, p, source, b, at))
           && Lasting(files) == WithEntry(c, Lasting(old(files)), r, p, b, Recorded(c, r, p, source, b, at))
      ensures Obtained(c, delivery, r, max).Err? ==>
        got == Err(Obtained(c, delivery, r, max).error) && files == old(files)
      ensures got.Err? && healthy && Lawful(c) ==> Obtained(c, delivery, r, max).Err?
      ensures Lawful(c) && Sound(c, old(files)) && InRange(r) ==> Sound(c, files)
      ensures got.Ok? && Lawful(c) && InRange(r) ==> Describes(c, files, got.value, r, p, max)
    {
      if delivery.Refused? { return Err(delivery.error); }
      var body := Download(delivery.chunks, max);
      if body.Err? { return Err(body.error); }
      AcceptsExactly(c.lib, body.value, r, max);
      got := PutAt(r, p, source, Regular(body.value), max, at);
      if got.Ok? && Lawful(c) && InRange(r) {
        StoredDescribes(c, old(files), files, r, p, source, body.value, at, max);
      }
    }

    /** `acquire`: the signed URL, then the account, then the cache. */
    method Acquire(r: Release, sources: Sources, p: Platform, max: u64, at: u64) returns (got: Result<Artifact, Error>)
      requires Lawful(c) && Sound(c, files) && InRange(r)
      modifies this
      ensures got.Ok? ==> Describes(c, files, got.value, r, p, max)
      ensures sources.offline ==> files == old(files)
      ensures healthy && SignedDelivers(c, sources, r, max) ==>
        got == Ok(Fetched(c, r, p, SignedUrl, Obtained(c, sources.signed.value, r, max).value, at))
      ensures healthy && !SignedDelivers(c, sources, r, max) && AccountDelivers(c, sources, r, max) ==>
        got == Ok(Fetched(c, r, p, LicensedAccount, Obtained(c, sources.account, r, max).value, at))
      ensures healthy && !SignedDelivers(c, sources, r, max) && HalfAPair(sources) ==> got == Err(NoAcquisitionSource)
      ensures healthy && !SignedDelivers(c, sources, r, max) && Unusable(sources) ==>
        got == Err(if sources.username.value.None? || sources.password.value.None? then Io else InvalidRelease)
      ensures healthy && !SignedDelivers(c, sources, r, max) && !AccountDelivers(c, sources, r, max)
              && !HalfAPair(sources) && !Unusable(sources) ==>
        match Lookup(c, old(files), r, p, max)
        case Ok(Some(a)) => got == Ok(a)
        case Err(e) => got == Err(e)
        case Ok(None) =>
          got == Err(if !sources.offline && sources.username.Some? then Obtained(c, sources.account, r, max).error
                     else if !sources.offline && sources.signed.Some? then Obtained(c, sources.signed.value, r, max).error
                     else NoAcquisitionSource)
    {
      var lastError := None;
      if !sources.offline {
        if sources.signed.Some? {
          var fetched := Fetch(r, p, SignedUrl, sources.signed.value, max, at);
          if fetched.Ok? {
            return fetched;
          }
          lastError := Some(fetched.error);
        }
        if sources.username.Some? != sources.password.Some? {
          return Err(NoAcquisitionSource);
        }
        if sources.username.Some? {
          var fault := CredentialFault(sources.username.value, sources.password.value);
          if fault.Some? { return Err(fault.value); }
          var fetched := Fetch(r, p, LicensedAccount, sources.account, max, at);
          if fetched.Ok? {
            return fetched;
          }
          lastError := Some(fetched.error);
        }
      }
      var cached := GetWithMax(r, p, max);
      match cached {
        case Err(e) => return Err(e);
        case Ok(Some(a)) =>
          LookupTruthful(c, files, r, p, max);
          return Ok(a);
        case Ok(None) => return Err(if lastError.Some? then lastError.value else NoAcquisitionSource);
      }
    }
  }
}
