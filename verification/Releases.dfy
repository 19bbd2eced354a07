/** Release identifiers: how they are read from names and versions, how they are
    written, and the names of the cache files made from them. */
module Releases {
  import opened Wrappers
  import opened Texts

  const MAX_MAJOR: nat := 65535
  const MAX_BUILD: nat := 4294967295

  /** A major of 16 bits and a build of 32. */
  datatype Release = Release(major: nat, build: nat)

  datatype Platform = Node | Linux

  predicate InRange(r: Release)
  {
    r.major <= MAX_MAJOR && r.build <= MAX_BUILD
  }

  const LINUX_PREFIX := "FoundryVTT-Linux-"
  const NODE_PREFIX := "FoundryVTT-Node-"
  const PLAIN_PREFIX := "FoundryVTT-"
  const ZIP := ".zip"

  /** `strip_suffix(".zip")` of what a prefix leaves, or all of `value`: a prefix is
      dropped only together with the suffix. */
  function Bare(value: string): string
  {
    var rest :=
      if LINUX_PREFIX <= value then value[|LINUX_PREFIX|..]
      else if PLAIN_PREFIX <= value then value[|PLAIN_PREFIX|..]
      else value;
    if |rest| >= |ZIP| && rest[|rest| - |ZIP|..] == ZIP then rest[..|rest| - |ZIP|] else value
  }

  /** `M.x.y+B` is read as `M.B`. */
  function Normalized(v: string): string
  {
    var plus := Find(v, '+');
    if plus < |v| then v[..Find(v[..plus], '.')] + ['.'] + v[plus + 1..] else v
  }

  function FromNormalized(n: string): Option<Release>
  {
    var dot := Find(n, '.');
    if dot == |n| then None
    else
      var major, build := n[..dot], n[dot + 1..];
      if major == "" || build == "" || '.' in build then None
      else match (ParseUInt(major, MAX_MAJOR), ParseUInt(build, MAX_BUILD))
        case (Some(m), Some(b)) => Some(Release(m, b))
        case _ => None
  }

  /** `ReleaseId::parse`. */
  function Parse(value: string): (r: Option<Release>)
    ensures r.Some? ==> InRange(r.value)
  {
    FromNormalized(Normalized(Bare(Trim(value))))
  }

  /** `Display`. */
  function Show(r: Release): string
  {
    Dec(r.major) + ['.'] + Dec(r.build)
  }

  function ArchiveName(r: Release, p: Platform): string
  {
    (if p.Node? then NODE_PREFIX else LINUX_PREFIX) + Show(r) + ZIP
  }

  const META_PREFIX := "foundryvtt-"

  function MetadataName(r: Release, p: Platform): string
  {
    META_PREFIX + Show(r) + (if p.Node? then "-node.json" else "-linux.json")
  }

  // ------------------------------------------------------------------- round trips

  lemma TrimNothing(s: string)
    requires s != "" && !IsSpace(s[0]) && !IsSpace(s[|s| - 1])
    ensures Trim(s) == s
  {
  }

  lemma ShowShape(r: Release)
    ensures IsDigit(Show(r)[0]) && IsDigit(Show(r)[|Show(r)| - 1])
    ensures forall i :: 0 <= i < |Show(r)| ==> IsDigit(Show(r)[i]) || Show(r)[i] == '.'
  {
    var a, b := Dec(r.major), Dec(r.build);
    assert Show(r)[0] == a[0] && Show(r)[|Show(r)| - 1] == b[|b| - 1];
  }

  lemma NormalizedShow(r: Release)
    requires InRange(r)
    ensures Normalized(Show(r)) == Show(r)
    ensures FromNormalized(Show(r)) == Some(r)
  {
    var a, b := Dec(r.major), Dec(r.build);
    ShowShape(r);
    assert '+' !in Show(r);
    FindNone(Show(r), '+');
    NoCharInDigits(a, '.');
    NoCharInDigits(b, '.');
    FindAt(a, '.', b);
    assert Show(r)[..|a|] == a && Show(r)[|a| + 1..] == b;
    ParseDec(r.major, MAX_MAJOR);
    ParseDec(r.build, MAX_BUILD);
  }

  /** What begins and ends with a digit has neither prefix nor suffix. */
  lemma BareDigits(s: string)
    requires s != "" && IsDigit(s[0]) && IsDigit(s[|s| - 1])
    ensures Bare(Trim(s)) == s
  {
    TrimNothing(s);
    if |s| >= |ZIP| { assert s[|s| - |ZIP|..][|ZIP| - 1] == s[|s| - 1]; }
  }

  /** Parsing inverts display. */
  lemma ParseShow(r: Release)
    requires InRange(r)
    ensures Parse(Show(r)) == Some(r)
  {
    ShowShape(r);
    BareDigits(Show(r));
    NormalizedShow(r);
  }

  /** Whatever is accepted is displayed in a form that is accepted as the same release. */
  lemma AcceptedReparses(s: string)
    requires Parse(s).Some?
    ensures Parse(Show(Parse(s).value)) == Parse(s)
  {
    ParseShow(Parse(s).value);
  }

  lemma Decorated(prefix: string, r: Release)
    requires prefix != "" && !IsSpace(prefix[0])
    ensures Trim(prefix + Show(r) + ZIP) == prefix + Show(r) + ZIP
  {
    TrimNothing(prefix + Show(r) + ZIP);
  }

  /** Prefix and suffix come off together. */
  lemma BareArchive(r: Release)
    ensures Bare(LINUX_PREFIX + Show(r) + ZIP) == Show(r)
    ensures Bare(NODE_PREFIX + Show(r) + ZIP) == NODE_PREFIX[|PLAIN_PREFIX|..] + Show(r)
  {
    var show := Show(r);
    BareLinux(show);
    BareNode(show);
  }

  lemma BareLinux(show: string)
    ensures Bare(LINUX_PREFIX + show + ZIP) == show
  {
    var name := LINUX_PREFIX + show + ZIP;
    assert LINUX_PREFIX <= name;
    var rest := name[|LINUX_PREFIX|..];
    assert rest == show + ZIP;
    assert rest[|rest| - |ZIP|..] == ZIP && rest[..|rest| - |ZIP|] == show;
  }

  lemma BareNode(show: string)
    ensures Bare(NODE_PREFIX + show + ZIP) == NODE_PREFIX[|PLAIN_PREFIX|..] + show
  {
    var name := NODE_PREFIX + show + ZIP;
    assert name[11] == NODE_PREFIX[11] == 'N' && LINUX_PREFIX[11] == 'L';
    assert PLAIN_PREFIX <= name;
    var rest, bare := name[|PLAIN_PREFIX|..], NODE_PREFIX[|PLAIN_PREFIX|..] + show;
    assert rest == bare + ZIP;
    assert rest[|rest| - |ZIP|..] == ZIP && rest[..|rest| - |ZIP|] == bare;
  }

  /** Parsing inverts the name of a Linux archive. */
  lemma ParseArchiveName(r: Release)
    requires InRange(r)
    ensures Parse(ArchiveName(r, Linux)) == Some(r)
  {
    Decorated(LINUX_PREFIX, r);
    BareArchive(r);
    NormalizedShow(r);
  }

  /** The name of a Node archive is not a release identifier. */
  lemma NodeNameRejected(r: Release)
    ensures Parse(ArchiveName(r, Node)).None?
  {
    Decorated(NODE_PREFIX, r);
    BareArchive(r);
    var node := NODE_PREFIX[|PLAIN_PREFIX|..];
    assert node == ['N', 'o', 'd', 'e', '-'];
    LetterFirstRejected(node + Show(r));
  }

  /** What begins with a letter is no identifier. */
  lemma LetterFirstRejected(bare: string)
    requires bare != "" && !IsDigit(bare[0]) && bare[0] != '+' && bare[0] != '.'
    ensures FromNormalized(Normalized(bare)).None?
  {
    var n := Normalized(bare);
    var plus := Find(bare, '+');
    if plus < |bare| {
      assert bare[..plus][0] == bare[0];
      assert Find(bare[..plus], '.') > 0;
    }
    assert n != "" && n[0] == bare[0];
    var dot := Find(n, '.');
    if dot < |n| { assert n[..dot][0] == n[0]; }
  }

  /** A prefix is kept when the suffix is missing. */
  lemma BareWithoutSuffix(v: string)
    requires !(|v| >= |ZIP| && v[|v| - |ZIP|..] == ZIP)
    ensures Bare(v) == v
  {
    TailOfTail(v, |LINUX_PREFIX|);
    TailOfTail(v, |PLAIN_PREFIX|);
  }

  lemma TailOfTail(v: string, n: nat)
    requires !(|v| >= |ZIP| && v[|v| - |ZIP|..] == ZIP)
    ensures n <= |v| && |v[n..]| >= |ZIP| ==> v[n..][|v[n..]| - |ZIP|..] != ZIP
  {
    if n <= |v| && |v[n..]| >= |ZIP| {
      assert v[n..][|v[n..]| - |ZIP|..] == v[|v| - |ZIP|..];
    }
  }

  /** Either prefix without the suffix is kept, and whatever follows it, the text is no
      identifier. */
  lemma PrefixAloneRejected(value: string)
    requires PLAIN_PREFIX <= Trim(value) || LINUX_PREFIX <= Trim(value)
    requires var v := Trim(value); !(|v| >= |ZIP| && v[|v| - |ZIP|..] == ZIP)
    ensures Parse(value).None?
  {
    var v := Trim(value);
    assert v[0] == 'F' by { assert PLAIN_PREFIX[0] == LINUX_PREFIX[0] == 'F'; }
    BareWithoutSuffix(v);
    LetterFirstRejected(v);
  }

  /** The version form: the first number and what follows the plus sign count. */
  lemma ParseVersion(r: Release, middle: string)
    requires InRange(r) && '+' !in middle
    ensures Parse(Dec(r.major) + ['.'] + middle + ['+'] + Dec(r.build)) == Some(r)
  {
    var a, b := Dec(r.major), Dec(r.build);
    var s := a + ['.'] + middle + ['+'] + b;
    assert s[0] == a[0] && s[|s| - 1] == b[|b| - 1];
    BareDigits(s);
    var version := a + ['.'] + middle;
    NoCharInDigits(a, '+');
    NoCharInDigits(a, '.');
    assert '+' !in version;
    FindAt(version, '+', b);
    assert s == version + ['+'] + b;
    assert s[..|version|] == version && s[|version| + 1..] == b;
    FindAt(a, '.', middle);
    assert version[..|a|] == a;
    assert s[..|a|] == a;
    assert Normalized(s) == Show(r);
    NormalizedShow(r);
  }

  // -------------------------------------------------------- exactly what is accepted

  /** The fixed texts, letter by letter. */
  lemma NamesSpelled(r: Release)
    ensures Show(r) == Dec(r.major) + "." + Dec(r.build)
    ensures ArchiveName(r, Linux) == "FoundryVTT-Linux-" + Show(r) + ".zip"
    ensures ArchiveName(r, Node) == "FoundryVTT-Node-" + Show(r) + ".zip"
    ensures MetadataName(r, Linux) == "foundryvtt-" + Show(r) + "-linux.json"
    ensures MetadataName(r, Node) == "foundryvtt-" + Show(r) + "-node.json"
    ensures LINUX_PREFIX == "FoundryVTT-Linux-" && PLAIN_PREFIX == "FoundryVTT-" && ZIP == ".zip"
  {
  }

  predicate EndsInZip(v: string)
  {
    |v| >= |ZIP| && v[|v| - |ZIP|..] == ZIP
  }

  /** `a` is what stands before the first dot of `m`, or all of it. */
  predicate Heads(a: string, m: string)
  {
    '.' !in a && (m == a || a + ['.'] <= m)
  }

  /** A bare text names a release: the numerals of a 16-bit major and a 32-bit build, either
      with one dot between, or with a plus sign before the build and perhaps more after a
      dot behind the major. */
  ghost predicate Identifies(v: string, r: Release)
  {
    r.major <= 65535 && r.build <= 4294967295
    && if '+' !in v then PlainForm(v, r) else PlusForm(v, r)
  }

  ghost predicate PlainForm(v: string, r: Release)
  {
    exists a, b :: v == a + ['.'] + b && '.' !in a && '.' !in b && Spells(a, r.major) && Spells(b, r.build)
  }

  ghost predicate PlusForm(v: string, r: Release)
  {
    exists a, m, b ::
      v == m + ['+'] + b && '+' !in m && Heads(a, m) && '.' !in b && Spells(a, r.major) && Spells(b, r.build)
  }

  /** Two numerals with a dot between: what the last part of `parse` accepts. */
  lemma DottedExactly(a: string, b: string, r: Release)
    requires '.' !in a
    ensures FromNormalized(a + ['.'] + b) == Some(r) <==>
      '.' !in b && r.major <= 65535 && r.build <= 4294967295 && Spells(a, r.major) && Spells(b, r.build)
  {
    var n := a + ['.'] + b;
    FindAt(a, '.', b);
    assert n[..|a|] == a && n[|a| + 1..] == b;
    ReadsExactly(a, MAX_MAJOR, r.major);
    ReadsExactly(b, MAX_BUILD, r.build);
    SpellsSomething(a, r.major);
    SpellsSomething(b, r.build);
  }

  lemma SpellsSomething(s: string, n: nat)
    ensures Spells(s, n) ==> s != ""
  {
    if Spells(s, n) {
      var k, plus :| (plus == "" || plus == "+") && s == plus + Zeros(k) + Dec(n);
    }
  }

  lemma UndottedRejected(n: string)
    requires '.' !in n
    ensures FromNormalized(n).None?
  {
    FindNone(n, '.');
  }

  /** The part of a text before its first dot. */
  lemma HeadOf(m: string) returns (a: string)
    ensures Heads(a, m) && a == m[..Find(m, '.')]
  {
    var dot := Find(m, '.');
    a := m[..dot];
    if dot < |m| { assert m == a + ['.'] + m[dot + 1..]; } else { assert a == m; }
  }

  lemma OneHead(a: string, m: string)
    requires Heads(a, m)
    ensures a == m[..Find(m, '.')]
  {
    if m == a {
      FindNone(m, '.');
    } else {
      var rest := m[|a| + 1..];
      assert m == a + ['.'] + rest;
      FindAt(a, '.', rest);
    }
  }

  /** The bare forms, both ways. */
  lemma BareFormsExactly(v: string, r: Release)
    ensures FromNormalized(Normalized(v)) == Some(r) <==> Identifies(v, r)
  {
    if '+' !in v { PlainFormExactly(v, r); } else { PlusFormExactly(v, r); }
  }

  lemma PlainFormExactly(v: string, r: Release)
    requires '+' !in v
    ensures FromNormalized(Normalized(v)) == Some(r) <==>
      r.major <= 65535 && r.build <= 4294967295 && PlainForm(v, r)
  {
    FindNone(v, '+');
    var dot := Find(v, '.');
    if dot == |v| {
      UndottedRejected(v);
    } else {
      var a, b := v[..dot], v[dot + 1..];
      assert v == a + ['.'] + b;
      DottedExactly(a, b, r);
      PlainFormParts(v, a, b, r);
    }
  }

  /** There is one way to take a text apart at its only dot. */
  lemma PlainFormParts(v: string, a: string, b: string, r: Release)
    requires v == a + ['.'] + b && '.' !in a
    ensures PlainForm(v, r) <==> '.' !in b && Spells(a, r.major) && Spells(b, r.build)
  {
    if PlainForm(v, r) {
      var x, y :| v == x + ['.'] + y && '.' !in x && '.' !in y && Spells(x, r.major) && Spells(y, r.build);
      OneCut(v, '.', x, y, a, b);
    }
  }

  /** A text is cut at the first of some character in one way. */
  lemma OneCut(v: string, c: char, x: string, y: string, a: string, b: string)
    requires v == x + [c] + y && v == a + [c] + b && c !in x && c !in a
    ensures x == a && y == b
  {
    FindAt(x, c, y);
    FindAt(a, c, b);
    assert x == v[..Find(v, c)] == a;
    assert y == v[Find(v, c) + 1..] == b;
  }

  lemma PlusFormExactly(v: string, r: Release)
    requires '+' in v
    ensures FromNormalized(Normalized(v)) == Some(r) <==>
      r.major <= 65535 && r.build <= 4294967295 && PlusForm(v, r)
  {
    var plus := Find(v, '+');
    var m, b := v[..plus], v[plus + 1..];
    assert v == m + ['+'] + b;
    var a := HeadOf(m);
    assert Normalized(v) == a + ['.'] + b;
    DottedExactly(a, b, r);
    PlusFormParts(v, a, m, b, r);
  }

  /** There is one way to take a text with a plus sign apart. */
  lemma PlusFormParts(v: string, a: string, m: string, b: string, r: Release)
    requires v == m + ['+'] + b && '+' !in m && Heads(a, m)
    ensures PlusForm(v, r) <==> '.' !in b && Spells(a, r.major) && Spells(b, r.build)
  {
    if PlusForm(v, r) {
      var x, k, y :|
        v == k + ['+'] + y && '+' !in k && Heads(x, k) && '.' !in y && Spells(x, r.major) && Spells(y, r.build);
      OneCut(v, '+', k, y, m, b);
      OneHead(x, m);
      OneHead(a, m);
    }
  }

  /** What the prefixes and the suffix leave, in every case there is. */
  lemma BareExactly(v: string, s: string)
    ensures !EndsInZip(v) ==> Bare(v) == v
    ensures v == LINUX_PREFIX + s + ZIP ==> Bare(v) == s
    ensures v == PLAIN_PREFIX + s + ZIP && !(LINUX_PREFIX <= v) ==> Bare(v) == s
    ensures v == s + ZIP && !(PLAIN_PREFIX <= v) ==> Bare(v) == s
  {
    if !EndsInZip(v) { BareWithoutSuffix(v); }
    if v == LINUX_PREFIX + s + ZIP { BareLinux(s); }
    if v == PLAIN_PREFIX + s + ZIP && !(LINUX_PREFIX <= v) { BarePlain(v, s); }
    if v == s + ZIP && !(PLAIN_PREFIX <= v) { BareSuffix(v, s); }
  }

  lemma BarePlain(v: string, s: string)
    requires v == PLAIN_PREFIX + s + ZIP && !(LINUX_PREFIX <= v)
    ensures Bare(v) == s
  {
    assert PLAIN_PREFIX <= v;
    var rest := v[|PLAIN_PREFIX|..];
    assert rest == s + ZIP;
    assert rest[|rest| - |ZIP|..] == ZIP && rest[..|rest| - |ZIP|] == s;
  }

  lemma BareSuffix(v: string, s: string)
    requires v == s + ZIP && !(PLAIN_PREFIX <= v)
    ensures Bare(v) == s
  {
    LinuxIsPlain(v);
    assert v[|v| - |ZIP|..] == ZIP && v[..|v| - |ZIP|] == s;
  }

  lemma LinuxIsPlain(v: string)
    ensures LINUX_PREFIX <= v ==> PLAIN_PREFIX <= v
  {
    assert PLAIN_PREFIX == LINUX_PREFIX[..|PLAIN_PREFIX|];
  }

  /** Exactly the accepted texts: white space at the ends aside, a bare form, alone or
      between a prefix or nothing and the suffix. */
  lemma ParseExactly(value: string, s: string, r: Release)
    ensures var v, parsed := Trim(value), Parse(value) == Some(r);
      && (!EndsInZip(v) ==> (parsed <==> Identifies(v, r)))
      && (v == LINUX_PREFIX + s + ZIP ==> (parsed <==> Identifies(s, r)))
      && (v == PLAIN_PREFIX + s + ZIP && !(LINUX_PREFIX <= v) ==> (parsed <==> Identifies(s, r)))
      && (v == s + ZIP && !(PLAIN_PREFIX <= v) ==> (parsed <==> Identifies(s, r)))
  {
    var v := Trim(value);
    BareExactly(v, s);
    BareFormsExactly(v, r);
    BareFormsExactly(s, r);
  }

  /** Three numbers with dots and no plus sign are no identifier. */
  lemma DottedBuildRejected(value: string, a: string, b: string, c: string)
    requires Trim(value) == a + ['.'] + b + ['.'] + c && '+' !in Trim(value) && !EndsInZip(Trim(value))
    ensures Parse(value).None?
  {
    var v := Trim(value);
    if Parse(value).Some? {
      var r := Parse(value).value;
      ParseExactly(value, v, r);
      var x, y :| v == x + ['.'] + y && '.' !in x && '.' !in y && Spells(x, r.major) && Spells(y, r.build);
      OneDot(x, y, a, b, c);
    }
  }

  lemma OneDot(x: string, y: string, a: string, b: string, c: string)
    requires '.' !in x && '.' !in y
    ensures x + ['.'] + y != a + ['.'] + b + ['.'] + c
  {
    DotPlace(x, y, x + ['.'] + y);
    DotPlaces(a, b, c, a + ['.'] + b + ['.'] + c);
  }

  lemma DotPlace(x: string, y: string, v: string)
    requires '.' !in x && '.' !in y && v == x + ['.'] + y
    ensures forall i :: 0 <= i < |v| && v[i] == '.' ==> i == |x|
  {
    forall i | 0 <= i < |v| && i != |x| ensures v[i] != '.' {
      if i < |x| { assert v[i] == x[i]; } else { assert v[i] == y[i - |x| - 1]; }
    }
  }

  lemma DotPlaces(a: string, b: string, c: string, w: string)
    requires w == a + ['.'] + b + ['.'] + c
    ensures |w| > |a| + 1 + |b| && w[|a|] == '.' && w[|a| + 1 + |b|] == '.'
  {
  }

  // ------------------------------------------------------------ cache names never collide

  lemma ShowInjective(r: Release, q: Release)
    requires InRange(r) && InRange(q) && Show(r) == Show(q)
    ensures r == q
  {
    ParseShow(r);
    ParseShow(q);
  }

  lemma MiddleEqual(p: string, a: string, b: string, s: string)
    requires p + a + s == p + b + s
    ensures a == b
  {
    assert |a| == |b|;
    assert (p + a + s)[|p|..|p| + |a|] == a;
    assert (p + b + s)[|p|..|p| + |b|] == b;
  }

  lemma ArchiveMark(r: Release, p: Platform)
    ensures |ArchiveName(r, p)| > 11 && ArchiveName(r, p)[11] == if p.Node? then 'N' else 'L'
  {
    assert NODE_PREFIX[11] == 'N' && LINUX_PREFIX[11] == 'L';
  }

  lemma MetadataMark(r: Release, p: Platform)
    ensures var m := MetadataName(r, p); |m| > 6 && m[|m| - 6] == if p.Node? then 'e' else 'x'
  {
    var m := MetadataName(r, p);
    var tail := if p.Node? then "-node.json" else "-linux.json";
    assert m[|m| - 6] == tail[|tail| - 6];
  }

  /** Different releases or platforms have different archives. */
  lemma ArchiveNamesDistinct(r: Release, p: Platform, q: Release, o: Platform)
    requires InRange(r) && InRange(q)
    requires ArchiveName(r, p) == ArchiveName(q, o)
    ensures r == q && p == o
  {
    ArchiveMark(r, p);
    ArchiveMark(q, o);
    MiddleEqual(if p.Node? then NODE_PREFIX else LINUX_PREFIX, Show(r), Show(q), ZIP);
    ShowInjective(r, q);
  }

  /** Different releases or platforms have different sidecars. */
  lemma MetadataNamesDistinct(r: Release, p: Platform, q: Release, o: Platform)
    requires InRange(r) && InRange(q)
    requires MetadataName(r, p) == MetadataName(q, o)
    ensures r == q && p == o
  {
    MetadataMark(r, p);
    MetadataMark(q, o);
    MiddleEqual(META_PREFIX, Show(r), Show(q), if p.Node? then "-node.json" else "-linux.json");
    ShowInjective(r, q);
  }

  /** An archive is never a sidecar. */
  lemma ArchiveIsNotMetadata(r: Release, p: Platform, q: Release, o: Platform)
    ensures ArchiveName(r, p) != MetadataName(q, o)
  {
    assert ArchiveName(r, p)[0] == 'F' && MetadataName(q, o)[0] == 'f';
  }
}
