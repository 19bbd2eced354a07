/** Validation of release archives: safe names and links, bounded expansion, and a
    package.json that names the requested release. */
module Archives {
  import opened Wrappers
  import opened Paths
  import Trees
  import opened Texts
  import opened Releases

  type Bytes = Trees.Bytes

  const U64_MAX: nat := 18446744073709551615

  type u64 = n: nat | n <= U64_MAX witness 0

  const MAX_ZIP_ENTRIES: nat := 100000
  const MAX_PACKAGE_JSON_BYTES: nat := 4 * 1024 * 1024

  datatype Json =
    | JNull
    | JBool(value: bool)
    | JNumber(asU64: Option<nat>)
    | JString(text: string)
    | JArray(items: seq<Json>)
    | JObject(fields: map<string, Json>)

  /** What an archive entry decompresses to; reading it may fail. */
  datatype Content = Broken | Data(bytes: Bytes)

  /** An entry as the ZIP reader presents it; even its name may be undecodable. */
  datatype ZipEntry = Unreadable | Entry(name: Option<string>, symlink: bool, size: u64, content: Content)

  /** The library code validation calls: hashing, ZIP directory, UTF-8 and JSON. */
  datatype Library = Library(
    sha256: Bytes -> string,
    unzip: Bytes -> Option<seq<ZipEntry>>,
    text: Bytes -> Option<string>,
    json: Bytes -> Option<Json>)

  datatype Error = NotRegularFile | TooLarge | InvalidArchive | Metadata | InvalidRelease | InvalidUrl
                 | Http | Remote | NoAcquisitionSource | Io

  /** What lies at a path given as an archive. */
  datatype Input = Missing | NotAFile | Regular(bytes: Bytes)

  // ---------------------------------------------------------------- package.json

  function Field(j: Json, name: string): Option<Json>
  {
    if j.JObject? && name in j.fields then Some(j.fields[name]) else None
  }

  /** `json_u32`: a number in range, or a string that reads as one. */
  function JsonU32(v: Option<Json>): Option<nat>
  {
    match v
    case Some(JNumber(Some(n))) => if n <= MAX_BUILD then Some(n) else None
    case Some(JString(s)) => ParseUInt(s, MAX_BUILD)
    case _ => None
  }

  /** `validate_package_release`. */
  predicate PackageNames(package: Json, r: Release)
  {
    match Field(package, "release")
    case Some(JObject(fields)) =>
      JsonU32(Field(JObject(fields), "generation")) == Some(r.major)
      && JsonU32(Field(JObject(fields), "build")) == Some(r.build)
    case _ =>
      r.major < 13
      && match Field(package, "version")
         case Some(JString(version)) => Parse(version) == Some(r)
         case _ => false
  }

  /** One package.json vouches for at most one release. */
  lemma PackageNamesOne(package: Json, r: Release, q: Release)
    requires PackageNames(package, r) && PackageNames(package, q)
    ensures r == q
  {
    match Field(package, "release")
    case Some(JObject(_)) =>
    case _ =>
  }

  /** A number of a release, written as a JSON number or as its decimal text. */
  predicate Writes(v: Option<Json>, n: nat)
  {
    v == Some(JNumber(Some(n))) || v == Some(JString(Dec(n)))
  }

  /** A release object with both numbers, each in either form, names its release. */
  lemma ReleaseObjectNames(package: Json, r: Release)
    requires InRange(r) && Field(package, "release").Some? && Field(package, "release").value.JObject?
    requires Writes(Field(Field(package, "release").value, "generation"), r.major)
    requires Writes(Field(Field(package, "release").value, "build"), r.build)
    ensures PackageNames(package, r)
  {
    ParseDec(r.major, MAX_BUILD);
    ParseDec(r.build, MAX_BUILD);
  }

  /** Without a release object a version text names exactly the release it parses to, and
      only one before 13. */
  lemma LegacyVersionNames(package: Json, r: Release, version: string)
    requires InRange(r) && !(Field(package, "release").Some? && Field(package, "release").value.JObject?)
    requires Field(package, "version") == Some(JString(version))
    requires version == Show(r)
             || exists middle :: '+' !in middle && version == Dec(r.major) + ['.'] + middle + ['+'] + Dec(r.build)
    ensures PackageNames(package, r) <==> r.major < 13
  {
    if version == Show(r) {
      ParseShow(r);
    } else {
      var middle :| '+' !in middle && version == Dec(r.major) + ['.'] + middle + ['+'] + Dec(r.build);
      ParseVersion(r, middle);
    }
  }

  /** A JSON value says a 32-bit number: as a number, or as a text that spells it. */
  lemma JsonU32Exactly(v: Option<Json>, n: nat)
    ensures JsonU32(v) == Some(n) <==>
      n <= 4294967295
      && (v == Some(JNumber(Some(n))) || (v.Some? && v.value.JString? && Spells(v.value.text, n)))
  {
    if v.Some? && v.value.JString? { ReadsExactly(v.value.text, MAX_BUILD, n); }
  }

  /** A field says this number. */
  ghost predicate SaysNumber(fields: map<string, Json>, name: string, n: nat)
  {
    name in fields
    && (fields[name] == JNumber(Some(n)) || (fields[name].JString? && Spells(fields[name].text, n)))
  }

  /** With a release object, a package.json names exactly the release of its two numbers. */
  lemma ReleaseObjectExactly(package: Json, inner: map<string, Json>, r: Release)
    requires InRange(r) && package.JObject? && "release" in package.fields
    requires package.fields["release"] == JObject(inner)
    ensures PackageNames(package, r) <==>
      SaysNumber(inner, "generation", r.major) && SaysNumber(inner, "build", r.build)
  {
    var release := JObject(inner);
    assert Field(package, "release") == Some(release);
    NumberField(release, "generation", r.major);
    NumberField(release, "build", r.build);
  }

  lemma NumberField(j: Json, name: string, n: nat)
    requires j.JObject? && n <= 4294967295
    ensures JsonU32(Field(j, name)) == Some(n) <==> SaysNumber(j.fields, name, n)
  {
    JsonU32Exactly(Field(j, name), n);
  }

  /** Without one, exactly the release before 13 that its version text parses to. */
  lemma LegacyVersionExactly(package: Json, r: Release)
    requires !(package.JObject? && "release" in package.fields && package.fields["release"].JObject?)
    ensures PackageNames(package, r) <==>
      r.major < 13 && package.JObject? && "version" in package.fields && package.fields["version"].JString?
      && Parse(package.fields["version"].text) == Some(r)
  {
  }

  // -------------------------------------------------------------------- entry names

  /** `safe_zip_path`. */
  predicate SafeZipPath(name: string)
  {
    name != "" && name[0] != '/' && ':' !in name
    && forall i :: 0 <= i < |Components(name)| ==>
         Components(name)[i].Normal? || Components(name)[i].CurDir?
  }

  /** In terms of the text: not empty, not absolute, no colon, and no piece of two dots. */
  lemma SafeZipPathExactly(name: string)
    ensures SafeZipPath(name) <==> name != "" && name[0] != '/' && ':' !in name && ".." !in SplitSlash(name)
  {
    if name != "" && name[0] != '/' {
      NoRootDir(name);
      ParentPieces(SplitSlash(name), "..");
      var b := Body(SplitSlash(name));
      assert Components(name) == b || Components(name) == [CurDir] + b;
      assert ParentDir in Components(name) <==> ParentDir in b;
      if ParentDir in Components(name) {
        var i :| 0 <= i < |Components(name)| && Components(name)[i] == ParentDir;
      }
    }
  }

  lemma {:induction false} ParentPieces(parts: seq<string>, up: string)
    requires up == ".."
    ensures ParentDir in Body(parts) <==> up in parts
  {
    if parts != [] {
      ParentPieces(parts[1..], up);
      assert parts == [parts[0]] + parts[1..];
      BodyFirst(parts[0], parts[1..]);
      OnePart(parts[0]);
    }
  }

  /** An accepted name never leaves the directory it is extracted into. */
  lemma SafeEntryStaysInside(root: Path, name: string, k: nat)
    requires SafeZipPath(name) && root != [] && k <= |Components(name)|
    ensures UnderRoot(root, Lex(root, Components(name)[..k]))
  {
    var cs := Components(name);
    NoRootDir(name);
    assert RootDir !in cs;
    DownOnly(0, cs);
    ContainedIffStays(root, [], cs);
    assert root + [] == root;
  }

  lemma {:induction false} DownOnly(depth: nat, cs: seq<Component>)
    requires forall i :: 0 <= i < |cs| ==> cs[i].Normal? || cs[i].CurDir?
    ensures Stays(depth, cs)
    decreases cs
  {
    if cs != [] { DownOnly(depth + Weight(cs[0]), cs[1..]); }
  }

  // -------------------------------------------------------------------- the verdict

  predicate IsPackageJson(e: ZipEntry)
  {
    e.Entry? && e.name.Some?
    && (Slashed(e.name.value) == "resources/app/package.json" || Slashed(e.name.value) == "package.json")
  }

  /** The link text has been read before the entry's bytes are asked for. */
  function PackageBytes(e: ZipEntry): Bytes
    requires e.Entry?
  {
    if e.symlink || e.content.Broken? then [] else e.content.bytes
  }

  /** The unbounded sum of the sizes of the first `i` entries. */
  function Total(es: seq<ZipEntry>, i: nat): nat
    requires i <= |es|
  {
    if i == 0 then 0
    else Total(es, i - 1) + (if es[i - 1].Entry? then es[i - 1].size else 0)
  }

  predicate LinkOk(lib: Library, e: ZipEntry)
    requires e.Entry? && e.name.Some?
  {
    e.symlink ==>
      e.content.Data? && lib.text(e.content.bytes).Some?
      && SafeTarget(Slashed(e.name.value), lib.text(e.content.bytes).value)
  }

  /** What the loop finds wrong with an entry when `before` bytes precede it. */
  function Fault(lib: Library, e: ZipEntry, before: nat, max: u64): Option<Error>
  {
    if e.Unreadable? || e.name.None? then Some(InvalidArchive)
    else if !SafeZipPath(Slashed(e.name.value)) then Some(InvalidArchive)
    else if !LinkOk(lib, e) then Some(InvalidArchive)
    else if before + e.size > U64_MAX then Some(InvalidArchive)
    else if before + e.size > max then Some(TooLarge)
    else if IsPackageJson(e) && e.size > MAX_PACKAGE_JSON_BYTES then Some(InvalidArchive)
    else if IsPackageJson(e) && !e.symlink && e.content.Broken? then Some(Io)
    else None
  }

  /** The first fault from entry `i` on. */
  function Scan(lib: Library, es: seq<ZipEntry>, i: nat, max: u64): Option<Error>
    requires i <= |es|
    decreases |es| - i
  {
    if i == |es| then None
    else if Fault(lib, es[i], Total(es, i), max).Some? then Fault(lib, es[i], Total(es, i), max)
    else Scan(lib, es, i + 1, max)
  }

  /** The last package.json among the first `i` entries. */
  function LastPackage(es: seq<ZipEntry>, i: nat): (p: Option<nat>)
    requires i <= |es|
    ensures p.Some? ==> p.value < i && IsPackageJson(es[p.value])
    ensures forall j :: 0 <= j < i && IsPackageJson(es[j]) ==> p.Some? && j <= p.value
  {
    if i == 0 then None
    else if IsPackageJson(es[i - 1]) then Some(i - 1)
    else LastPackage(es, i - 1)
  }

  /** The result of validation, error by error. */
  function Verdict(lib: Library, input: Input, r: Release, max: u64): Result<(string, nat), Error>
  {
    match input
    case Missing => Err(Io)
    case NotAFile => Err(NotRegularFile)
    case Regular(bytes) =>
      if |bytes| > max then Err(TooLarge)
      else match lib.unzip(bytes)
        case None => Err(InvalidArchive)
        case Some(es) =>
          if |es| > MAX_ZIP_ENTRIES then Err(InvalidArchive)
          else if Scan(lib, es, 0, max).Some? then Err(Scan(lib, es, 0, max).value)
          else match LastPackage(es, |es|)
            case None => Err(InvalidArchive)
            case Some(i) =>
              match lib.json(PackageBytes(es[i]))
              case None => Err(InvalidArchive)
              case Some(package) =>
                if PackageNames(package, r) then Ok((lib.sha256(bytes), |bytes|)) else Err(InvalidArchive)
  }

  /** The body of the loop of `validate_archive`: one entry, after `expanded` bytes. */
  method CheckEntry(lib: Library, entry: ZipEntry, expanded: u64, max: u64) returns (fault: Option<Error>)
    ensures fault == Fault(lib, entry, expanded, max)
    ensures fault.None? ==> entry.Entry? && expanded + entry.size <= max
  {
    if entry.Unreadable? || entry.name.None? { return Some(InvalidArchive); }
    var name := Slashed(entry.name.value);
    if !SafeZipPath(name) { return Some(InvalidArchive); }
    if entry.symlink {
      if entry.content.Broken? || lib.text(entry.content.bytes).None? { return Some(InvalidArchive); }
      var safe := SafeSymlinkTarget(name, lib.text(entry.content.bytes).value);
      if !safe { return Some(InvalidArchive); }
    }
    if expanded + entry.size > U64_MAX { return Some(InvalidArchive); }
    if expanded + entry.size > max { return Some(TooLarge); }
    if IsPackageJson(entry) {
      if entry.size > MAX_PACKAGE_JSON_BYTES { return Some(InvalidArchive); }
      if !entry.symlink && entry.content.Broken? { return Some(Io); }
    }
    return None;
  }

  /** `validate_archive`: one pass over the entries with a 64-bit running size. */
  method ValidateArchive(lib: Library, input: Input, r: Release, max: u64) returns (v: Result<(string, nat), Error>)
    ensures v == Verdict(lib, input, r, max)
  {
    if input.Missing? { return Err(Io); }
    if input.NotAFile? { return Err(NotRegularFile); }
    var bytes := input.bytes;
    if |bytes| > max { return Err(TooLarge); }
    var zip := lib.unzip(bytes);
    if zip.None? { return Err(InvalidArchive); }
    var es := zip.value;
    if |es| > MAX_ZIP_ENTRIES { return Err(InvalidArchive); }
    var packageJson: Option<Bytes> := None;
    var expanded: u64 := 0;
    var index := 0;
    while index < |es|
      invariant 0 <= index <= |es|
      invariant Scan(lib, es, 0, max) == Scan(lib, es, index, max)
      invariant expanded == Total(es, index)
      invariant packageJson == match LastPackage(es, index) case Some(i) => Some(PackageBytes(es[i])) case None => None
    {
      var entry := es[index];
      var fault := CheckEntry(lib, entry, expanded, max);
      if fault.Some? { return Err(fault.value); }
      expanded := expanded + entry.size;
      if IsPackageJson(entry) { packageJson := Some(PackageBytes(entry)); }
      index := index + 1;
    }
    if packageJson.None? { return Err(InvalidArchive); }
    var package := lib.json(packageJson.value);
    if package.None? { return Err(InvalidArchive); }
    if !PackageNames(package.value, r) { return Err(InvalidArchive); }
    return Ok((lib.sha256(bytes), |bytes|));
  }

  // ----------------------------------------------------------- what acceptance means

  /** A single entry, whatever comes before it. */
  predicate EntryOk(lib: Library, e: ZipEntry)
  {
    e.Entry? && e.name.Some? && SafeZipPath(Slashed(e.name.value)) && LinkOk(lib, e)
    && (IsPackageJson(e) ==> e.size <= MAX_PACKAGE_JSON_BYTES && (e.symlink || e.content.Data?))
  }

  /** The specification of an acceptable archive. */
  predicate Acceptable(lib: Library, bytes: Bytes, r: Release, max: u64)
  {
    |bytes| <= max
    && match lib.unzip(bytes)
       case None => false
       case Some(es) =>
         |es| <= MAX_ZIP_ENTRIES
         && (forall i :: 0 <= i < |es| ==> EntryOk(lib, es[i]))
         && Total(es, |es|) <= max
         && match LastPackage(es, |es|)
            case None => false
            case Some(i) =>
              lib.json(PackageBytes(es[i])).Some?
              && PackageNames(lib.json(PackageBytes(es[i])).value, r)
  }

  lemma {:induction false} TotalGrows(es: seq<ZipEntry>, i: nat, j: nat)
    requires i <= j <= |es|
    ensures Total(es, i) <= Total(es, j)
    decreases j
  {
    if i < j { TotalGrows(es, i, j - 1); }
  }

  /** The loop finds no fault if and only if every entry is acceptable by itself and
      the unbounded total is within the limit: neither the order of the checks nor the
      64-bit overflow test ever changes the verdict. */
  lemma {:induction false} ScanMeans(lib: Library, es: seq<ZipEntry>, i: nat, max: u64)
    requires i <= |es| && Total(es, i) <= max
    ensures Scan(lib, es, i, max).None? <==>
      (forall j :: i <= j < |es| ==> EntryOk(lib, es[j])) && Total(es, |es|) <= max
    decreases |es| - i
  {
    if i < |es| {
      TotalGrows(es, i + 1, |es|);
      assert Total(es, i + 1) == Total(es, i) + if es[i].Entry? then es[i].size else 0;
      if Fault(lib, es[i], Total(es, i), max).None? {
        ScanMeans(lib, es, i + 1, max);
      }
    }
  }

  /** Validation accepts exactly its specification, and then reports the digest and
      the length of the very bytes it was given. */
  lemma AcceptsExactly(lib: Library, bytes: Bytes, r: Release, max: u64)
    ensures Verdict(lib, Regular(bytes), r, max).Ok? <==> Acceptable(lib, bytes, r, max)
    ensures Verdict(lib, Regular(bytes), r, max).Ok? ==>
      Verdict(lib, Regular(bytes), r, max).value == (lib.sha256(bytes), |bytes|)
  {
    if lib.unzip(bytes).Some? {
      ScanMeans(lib, lib.unzip(bytes).value, 0, max);
    }
  }

  /** An archive is accepted for one release at most. */
  lemma AcceptedForOne(lib: Library, bytes: Bytes, r: Release, q: Release, max: u64)
    requires Acceptable(lib, bytes, r, max) && Acceptable(lib, bytes, q, max)
    ensures r == q
  {
    var es := lib.unzip(bytes).value;
    PackageNamesOne(lib.json(PackageBytes(es[LastPackage(es, |es|).value])).value, r, q);
  }

  /** A larger limit accepts no less. */
  lemma LimitMonotone(lib: Library, bytes: Bytes, r: Release, max: u64, larger: u64)
    requires Acceptable(lib, bytes, r, max) && max <= larger
    ensures Acceptable(lib, bytes, r, larger)
  {
  }

  // ------------------------------------------------ acceptance and refusal, spelled out

  /** Sizes are added entry by entry. */
  lemma TotalSpelled(es: seq<ZipEntry>, e: ZipEntry)
    requires e.Entry?
    ensures Total([], 0) == 0
    ensures Total(es + [e], |es| + 1) == Total(es, |es|) + e.size
  {
    TotalOfFront(es, [e], |es|);
  }

  lemma {:induction false} TotalOfFront(es: seq<ZipEntry>, more: seq<ZipEntry>, i: nat)
    requires i <= |es|
    ensures Total(es + more, i) == Total(es, i)
  {
    if i > 0 { TotalOfFront(es, more, i - 1); }
  }

  /** What every entry of an accepted archive is like, in terms of its own fields. */
  ghost predicate Harmless(lib: Library, e: ZipEntry)
  {
    e.Entry? && e.name.Some?
    && var name := Slashed(e.name.value);
       && name != "" && name[0] != '/' && ':' !in name && ".." !in SplitSlash(name)
       && (e.symlink ==> e.content.Data? && lib.text(e.content.bytes).Some?
                         && SafeTarget(name, lib.text(e.content.bytes).value))
       && (name == "resources/app/package.json" || name == "package.json" ==>
             e.size <= 4194304 && (e.symlink || e.content.Data?))
  }

  lemma HarmlessExactly(lib: Library, e: ZipEntry)
    ensures EntryOk(lib, e) <==> Harmless(lib, e)
  {
    if e.Entry? && e.name.Some? { SafeZipPathExactly(Slashed(e.name.value)); }
  }

  /** The entry is one of the two package files, by name. */
  lemma PackageFilesByName(e: ZipEntry)
    ensures IsPackageJson(e) <==>
      e.Entry? && e.name.Some?
      && (Slashed(e.name.value) == "resources/app/package.json" || Slashed(e.name.value) == "package.json")
  {
  }

  /** The last entry with one of the two names is a file whose JSON names the release. */
  ghost predicate NamedBy(lib: Library, es: seq<ZipEntry>, i: nat, r: Release)
  {
    i < |es| && es[i].Entry? && es[i].name.Some?
    && (Slashed(es[i].name.value) == "resources/app/package.json" || Slashed(es[i].name.value) == "package.json")
    && (forall j :: i < j < |es| && es[j].Entry? && es[j].name.Some? ==>
          Slashed(es[j].name.value) != "resources/app/package.json" && Slashed(es[j].name.value) != "package.json")
    && var json := lib.json(if es[i].symlink || es[i].content.Broken? then [] else es[i].content.bytes);
       json.Some? && PackageNames(json.value, r)
  }

  /** The whole verdict in one statement: an archive is accepted exactly when it is small
      enough, is a ZIP of at most 100000 harmless entries whose sizes add up to no more than
      the limit, and the last entry called `resources/app/package.json` or `package.json`
      names the release. */
  lemma AcceptedByName(lib: Library, bytes: Bytes, r: Release, max: u64)
    ensures Verdict(lib, Regular(bytes), r, max).Ok? <==>
      |bytes| <= max && lib.unzip(bytes).Some?
      && var es := lib.unzip(bytes).value;
         |es| <= 100000 && (forall i :: 0 <= i < |es| ==> Harmless(lib, es[i])) && Total(es, |es|) <= max
         && exists i :: NamedBy(lib, es, i, r)
  {
    AcceptsExactly(lib, bytes, r, max);
    if lib.unzip(bytes).Some? {
      var es := lib.unzip(bytes).value;
      forall i | 0 <= i < |es| ensures EntryOk(lib, es[i]) <==> Harmless(lib, es[i]) {
        HarmlessExactly(lib, es[i]);
      }
      LastByName(lib, es, r);
    }
  }

  ghost predicate LastNaming(lib: Library, es: seq<ZipEntry>, i: nat, r: Release)
  {
    i < |es| && IsPackageJson(es[i]) && (forall j :: i < j < |es| ==> !IsPackageJson(es[j]))
    && var json := lib.json(PackageBytes(es[i]));
       json.Some? && PackageNames(json.value, r)
  }

  lemma NamingByName(lib: Library, es: seq<ZipEntry>, i: nat, r: Release)
    ensures NamedBy(lib, es, i, r) <==> LastNaming(lib, es, i, r)
  {
    forall j | 0 <= j < |es| { PackageFilesByName(es[j]); }
  }

  lemma LastByName(lib: Library, es: seq<ZipEntry>, r: Release)
    ensures (exists i :: NamedBy(lib, es, i, r)) <==>
      var p := LastPackage(es, |es|);
      p.Some? && lib.json(PackageBytes(es[p.value])).Some?
      && PackageNames(lib.json(PackageBytes(es[p.value])).value, r)
  {
    var p := LastPackage(es, |es|);
    if p.Some? && Names(lib, es[p.value], r) {
      FoundIsLast(es);
      assert LastNaming(lib, es, p.value, r);
      NamingByName(lib, es, p.value, r);
    }
    if exists i :: NamedBy(lib, es, i, r) {
      var i :| NamedBy(lib, es, i, r);
      NamingByName(lib, es, i, r);
      OnlyLast(es, i);
    }
  }

  /** The file's JSON names the release. */
  ghost predicate Names(lib: Library, e: ZipEntry, r: Release)
    requires e.Entry?
  {
    lib.json(PackageBytes(e)).Some? && PackageNames(lib.json(PackageBytes(e)).value, r)
  }

  lemma FoundIsLast(es: seq<ZipEntry>)
    requires LastPackage(es, |es|).Some?
    ensures var i := LastPackage(es, |es|).value;
      IsPackageJson(es[i]) && forall j :: i < j < |es| ==> !IsPackageJson(es[j])
  {
  }

  lemma OnlyLast(es: seq<ZipEntry>, i: nat)
    requires i < |es| && IsPackageJson(es[i]) && forall j :: i < j < |es| ==> !IsPackageJson(es[j])
    ensures LastPackage(es, |es|) == Some(i)
  {
    FoundIsLast(es);
  }

  /** The kinds of refusal of one entry: too large exactly when a good name and link come
      with a sum past the limit that still fits 64 bits; unreadable exactly when a package
      file of good size cannot be read; anything else is an invalid archive. */
  lemma FaultKinds(lib: Library, e: ZipEntry, before: nat, max: u64)
    ensures var f := Fault(lib, e, before, max);
      var named := e.Entry? && e.name.Some? && SafeZipPath(Slashed(e.name.value)) && LinkOk(lib, e);
      && (f == Some(TooLarge) <==> named && max < before + e.size <= 18446744073709551615)
      && (f == Some(Io) <==>
            named && before + e.size <= max && !e.symlink && e.content.Broken? && e.size <= 4194304
            && (Slashed(e.name.value) == "resources/app/package.json" || Slashed(e.name.value) == "package.json"))
      && (f.None? || f == Some(TooLarge) || f == Some(Io) || f == Some(InvalidArchive))
  {
  }

  /** The scan reports the first entry that is at fault. */
  lemma {:induction false} ScanFirst(lib: Library, es: seq<ZipEntry>, i: nat, max: u64)
    requires i <= |es|
    ensures Scan(lib, es, i, max).Some? <==>
      exists k :: i <= k < |es| && Fault(lib, es[k], Total(es, k), max).Some?
    ensures forall k :: i <= k < |es| && Fault(lib, es[k], Total(es, k), max).Some?
                        && (forall j :: i <= j < k ==> Fault(lib, es[j], Total(es, j), max).None?) ==>
      Scan(lib, es, i, max) == Fault(lib, es[k], Total(es, k), max)
    decreases |es| - i
  {
    if i < |es| { ScanFirst(lib, es, i + 1, max); }
  }

  /** The kinds of refusal of a whole archive. */
  lemma RefusalKinds(lib: Library, input: Input, r: Release, max: u64)
    ensures input.Missing? ==> Verdict(lib, input, r, max) == Err(Io)
    ensures input.NotAFile? ==> Verdict(lib, input, r, max) == Err(NotRegularFile)
    ensures input.Regular? && |input.bytes| > max ==> Verdict(lib, input, r, max) == Err(TooLarge)
    ensures input.Regular? && |input.bytes| <= max ==>
      var zip, v := lib.unzip(input.bytes), Verdict(lib, input, r, max);
      if zip.None? || |zip.value| > 100000 then v == Err(InvalidArchive)
      else
        var fault := Scan(lib, zip.value, 0, max);
        if fault.Some? then v == Err(fault.value) else v.Ok? || v == Err(InvalidArchive)
  {
  }
}
