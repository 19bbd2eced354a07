/** Relative and absolute paths as the archive validator and the package copier
    see them: splitting into components, and the lexical symlink resolver. */
module Paths {

  /** A location inside a tree, as the names on the way down from its root. */
  type Path = seq<string>

  datatype Component = RootDir | CurDir | ParentDir | Normal(name: string)

  // ---------------------------------------------------------------- components

  /** The pieces of `s` between slashes; there is always at least one. */
  function SplitSlash(s: string): (parts: seq<string>)
    ensures |parts| >= 1
  {
    if s == "" then [""]
    else
      var rest := SplitSlash(s[1..]);
      if s[0] == '/' then [""] + rest else [[s[0]] + rest[0]] + rest[1..]
  }

  /** Empty pieces and single dots vanish once a path has begun. */
  function Body(parts: seq<string>): (cs: seq<Component>)
    ensures RootDir !in cs && CurDir !in cs
  {
    if parts == [] then []
    else
      (if parts[0] == "" || parts[0] == "." then []
       else if parts[0] == ".." then [ParentDir]
       else [Normal(parts[0])])
      + Body(parts[1..])
  }

  /** A leading slash or a leading dot is a component of its own. */
  function Components(s: string): (cs: seq<Component>)
  {
    var parts := SplitSlash(s);
    (if s != "" && s[0] == '/' then [RootDir]
     else if parts[0] == "." then [CurDir]
     else [])
    + Body(parts)
  }

  /** What `Path::parent().unwrap_or("")` leaves. */
  function Dirname(cs: seq<Component>): seq<Component>
  {
    if cs == [] || cs[|cs| - 1] == RootDir then [] else cs[..|cs| - 1]
  }

  function Normals(p: Path): (cs: seq<Component>)
    ensures |cs| == |p|
    ensures forall i :: 0 <= i < |p| ==> cs[i] == Normal(p[i])
  {
    if p == [] then [] else [Normal(p[0])] + Normals(p[1..])
  }

  // ------------------------------------------------------- names and joined paths

  /** A name a directory can hold. */
  predicate ValidName(n: string)
  {
    n != "" && n != "." && n != ".." && '/' !in n
  }

  function Join(p: Path): string
  {
    if p == [] then "" else if |p| == 1 then p[0] else p[0] + "/" + Join(p[1..])
  }

  lemma {:induction false} SplitPlain(n: string)
    requires '/' !in n
    ensures SplitSlash(n) == [n]
  {
    if n != "" {
      assert n[0] in n;
      forall c | c in n[1..] ensures c != '/' {}
      SplitPlain(n[1..]);
      assert [n[0]] + n[1..] == n;
    }
  }

  lemma {:induction false} SplitJoined(n: string, rest: string)
    requires '/' !in n
    ensures SplitSlash(n + "/" + rest) == [n] + SplitSlash(rest)
  {
    var s := n + "/" + rest;
    if n == "" {
      assert s[1..] == rest;
    } else {
      assert n[0] in n;
      forall c | c in n[1..] ensures c != '/' {}
      SplitJoined(n[1..], rest);
      assert s[1..] == n[1..] + "/" + rest;
      assert [n[0]] + n[1..] == n;
    }
  }

  /** Splitting a joined path gives back exactly its names. */
  lemma {:induction false} ComponentsOfJoin(p: Path)
    requires forall i :: 0 <= i < |p| ==> ValidName(p[i])
    ensures Components(Join(p)) == Normals(p)
  {
    if p != [] {
      BodyOfJoin(p);
      if |p| == 1 {
        SplitPlain(p[0]);
      } else {
        SplitJoined(p[0], Join(p[1..]));
        assert (p[0] + "/" + Join(p[1..]))[0] == p[0][0];
      }
      assert p[0][0] in p[0];
    }
  }

  lemma {:induction false} BodyOfJoin(p: Path)
    requires p != []
    requires forall i :: 0 <= i < |p| ==> ValidName(p[i])
    ensures Body(SplitSlash(Join(p))) == Normals(p)
  {
    if |p| == 1 {
      SplitPlain(p[0]);
      assert Body([p[0]]) == [Normal(p[0])] + Body([]);
    } else {
      SplitJoined(p[0], Join(p[1..]));
      BodyOfJoin(p[1..]);
      var parts := [p[0]] + SplitSlash(Join(p[1..]));
      assert parts[1..] == SplitSlash(Join(p[1..]));
    }
  }

  /** Joining pieces by slashes and splitting again gives the pieces, empty ones included. */
  lemma {:induction false} SplitOfJoin(ps: seq<string>)
    requires ps != [] && forall i :: 0 <= i < |ps| ==> '/' !in ps[i]
    ensures SplitSlash(Join(ps)) == ps
  {
    if |ps| == 1 {
      SplitPlain(ps[0]);
    } else {
      SplitOfJoin(ps[1..]);
      SplitJoined(ps[0], Join(ps[1..]));
    }
  }

  /** Every piece speaks for itself. */
  lemma {:induction false} BodyAppends(ps: seq<string>, qs: seq<string>)
    ensures Body(ps + qs) == Body(ps) + Body(qs)
  {
    if ps == [] {
      assert ps + qs == qs;
    } else {
      assert (ps + qs)[1..] == ps[1..] + qs;
      BodyAppends(ps[1..], qs);
    }
  }

  /** The components of any text, piece by piece: a first empty piece before a slash is the
      root, a first dot is itself; later empty pieces and dots vanish, two dots are the
      parent, and anything else is a name (`OnePart`). */
  lemma ComponentsOfPieces(ps: seq<string>, dot: string)
    requires ps != [] && dot == "." && forall i :: 0 <= i < |ps| ==> '/' !in ps[i]
    ensures Components(Join(ps)) ==
      (if |ps| > 1 && ps[0] == "" then [RootDir] else if ps[0] == dot then [CurDir] else []) + Body(ps)
    ensures forall i :: 0 <= i < |ps| ==> Body(ps) == Body(ps[..i]) + Body([ps[i]]) + Body(ps[i + 1..])
  {
    HeadOfPieces(ps, Join(ps), dot);
    forall i | 0 <= i < |ps| ensures Body(ps) == Body(ps[..i]) + Body([ps[i]]) + Body(ps[i + 1..]) {
      BodyAt(ps, i);
    }
  }

  lemma HeadOfPieces(ps: seq<string>, text: string, dot: string)
    requires ps != [] && dot == "." && text == Join(ps) && forall i :: 0 <= i < |ps| ==> '/' !in ps[i]
    ensures Components(text) ==
      (if |ps| > 1 && ps[0] == "" then [RootDir] else if ps[0] == dot then [CurDir] else []) + Body(ps)
  {
    SplitOfJoin(ps);
    FirstChar(ps);
  }

  lemma BodyAt(ps: seq<string>, i: nat)
    requires i < |ps|
    ensures Body(ps) == Body(ps[..i]) + Body([ps[i]]) + Body(ps[i + 1..])
  {
    CutAround(ps, i);
    BodyThreeWays(ps, ps[..i], [ps[i]], ps[i + 1..]);
  }

  lemma CutAround(ps: seq<string>, i: nat)
    requires i < |ps|
    ensures ps == ps[..i] + [ps[i]] + ps[i + 1..]
  {
  }

  lemma BodyThreeWays(ps: seq<string>, front: seq<string>, mid: seq<string>, rest: seq<string>)
    requires ps == front + mid + rest
    ensures Body(ps) == Body(front) + Body(mid) + Body(rest)
  {
    BodyAppends(front, mid);
    BodyAppends(front + mid, rest);
  }

  /** A joined text begins with a slash exactly when a first piece is empty. */
  lemma FirstChar(ps: seq<string>)
    requires ps != [] && forall i :: 0 <= i < |ps| ==> '/' !in ps[i]
    ensures Join(ps) != "" && Join(ps)[0] == '/' <==> |ps| > 1 && ps[0] == ""
  {
    if ps[0] != "" {
      assert ps[0][0] in ps[0];
      assert Join(ps)[0] == ps[0][0];
    }
  }

  /** An absolute path of plain names. */
  lemma ComponentsOfAbsolute(p: Path, slash: string)
    requires p != [] && slash == "/" && forall i :: 0 <= i < |p| ==> ValidName(p[i])
    ensures Components(slash + Join(p)) == [RootDir] + Normals(p)
  {
    var none, rest := "", Join(p);
    assert none + "/" + rest == slash + rest;
    SplitJoined(none, rest);
    BodyOfJoin(p);
    NoneThenRest(slash + rest, none, SplitSlash(rest));
  }

  lemma NoneThenRest(v: string, none: string, parts: seq<string>)
    requires none == "" && v != "" && v[0] == '/' && SplitSlash(v) == [none] + parts
    ensures Components(v) == [RootDir] + Body(parts)
  {
    BodyFirst(none, parts);
    OnePart(none);
  }

  lemma ComponentsOfName(n: string)
    requires ValidName(n)
    ensures Components(n) == [Normal(n)]
  {
    SplitPlain(n);
    OnePart(n);
    assert n[0] in n;
  }

  /** An absolute path of one name. */
  lemma ComponentsOfRoot(n: string, slash: string)
    requires ValidName(n) && slash == "/"
    ensures Components(slash + n) == [RootDir, Normal(n)]
  {
    assert Join([n]) == n;
    ComponentsOfAbsolute([n], slash);
    assert Normals([n]) == [Normal(n)];
  }

  // ------------------------------------------------------------ lexical resolution

  /** Following components from `at` by name only; `..` at the top stays there. */
  function Lex(at: Path, cs: seq<Component>): Path
    decreases cs
  {
    if cs == [] then at
    else Lex(LexStep(at, cs[0]), cs[1..])
  }

  function LexStep(at: Path, c: Component): Path
  {
    match c
    case Normal(n) => at + [n]
    case ParentDir => if at == [] then [] else at[..|at| - 1]
    case CurDir => at
    case RootDir => []
  }

  function Weight(c: Component): int
  {
    match c
    case Normal(_) => 1
    case ParentDir => -1
    case _ => 0
  }

  /** The change of depth over a whole component list. */
  function Delta(cs: seq<Component>): int
  {
    if cs == [] then 0 else Weight(cs[0]) + Delta(cs[1..])
  }

  /** Walking `cs` from `depth` levels down never climbs above the top. */
  predicate Stays(depth: int, cs: seq<Component>)
    decreases cs
  {
    depth >= 0 && (cs == [] || Stays(depth + Weight(cs[0]), cs[1..]))
  }

  /** `Stays` is exactly a statement about every prefix. */
  lemma {:induction false} StaysIffEveryPrefix(depth: int, cs: seq<Component>)
    ensures Stays(depth, cs) <==> forall k :: 0 <= k <= |cs| ==> depth + Delta(cs[..k]) >= 0
    decreases cs
  {
    if cs == [] {
      assert cs[..0] == [];
    } else {
      var d := depth + Weight(cs[0]);
      StaysIffEveryPrefix(d, cs[1..]);
      forall k | 0 <= k <= |cs|
        ensures depth + Delta(cs[..k]) == if k == 0 then depth else d + Delta(cs[1..][..k - 1])
      {
        if k > 0 { assert cs[..k][1..] == cs[1..][..k - 1]; }
      }
      if Stays(depth, cs) {
        forall k | 0 <= k <= |cs| ensures depth + Delta(cs[..k]) >= 0 {
          if k > 0 { assert d + Delta(cs[1..][..k - 1]) >= 0; }
        }
      }
      if forall k :: 0 <= k <= |cs| ==> depth + Delta(cs[..k]) >= 0 {
        assert depth + Delta(cs[..0]) >= 0;
        forall j | 0 <= j <= |cs[1..]| ensures d + Delta(cs[1..][..j]) >= 0 {
          assert depth + Delta(cs[..j + 1]) >= 0;
        }
      }
    }
  }

  predicate UnderRoot(root: Path, at: Path)
  {
    |root| <= |at| && at[..|root|] == root
  }

  /** A walk that never climbs above its starting tree resolves to the same
      relative place whatever directory that tree is hung under. */
  lemma {:induction false} SamePlaceEverywhere(root: Path, dir: Path, cs: seq<Component>)
    requires RootDir !in cs
    requires Stays(|dir|, cs)
    ensures Lex(root + dir, cs) == root + Lex(dir, cs)
    ensures |Lex(dir, cs)| == |dir| + Delta(cs)
    decreases cs
  {
    if cs != [] {
      var c := cs[0];
      assert c in cs;
      assert c != RootDir;
      var next := LexStep(dir, c);
      assert |next| == |dir| + Weight(c);
      if c.ParentDir? {
        assert (root + dir)[..|root + dir| - 1] == root + next;
      } else if c.Normal? {
        assert root + dir + [c.name] == root + next;
      }
      assert LexStep(root + dir, c) == root + next;
      SamePlaceEverywhere(root, next, cs[1..]);
    }
  }

  /** The depth test holds if and only if no prefix of the walk leaves `root`. */
  lemma {:induction false} ContainedIffStays(root: Path, dir: Path, cs: seq<Component>)
    requires root != [] && RootDir !in cs
    ensures Stays(|dir|, cs)
       <==> forall k :: 0 <= k <= |cs| ==> UnderRoot(root, Lex(root + dir, cs[..k]))
  {
    if Stays(|dir|, cs) {
      forall k | 0 <= k <= |cs| ensures UnderRoot(root, Lex(root + dir, cs[..k])) {
        StaysOnPrefix(|dir|, cs, k);
        SamePlaceEverywhere(root, dir, cs[..k]);
      }
    } else {
      var k := FirstEscape(root, dir, cs);
    }
  }

  lemma {:induction false} StaysOnPrefix(depth: int, cs: seq<Component>, k: nat)
    requires k <= |cs| && Stays(depth, cs)
    ensures Stays(depth, cs[..k])
    decreases k
  {
    if k > 0 {
      StaysOnPrefix(depth + Weight(cs[0]), cs[1..], k - 1);
      assert cs[..k][1..] == cs[1..][..k - 1];
    }
  }

  /** Finds the prefix at which a walk that fails the test is outside `root`. */
  lemma {:induction false} FirstEscape(root: Path, dir: Path, cs: seq<Component>) returns (k: nat)
    requires root != [] && RootDir !in cs
    requires !Stays(|dir|, cs)
    ensures k <= |cs| && !UnderRoot(root, Lex(root + dir, cs[..k]))
    decreases cs
  {
    assert cs != [];
    var c := cs[0];
    assert c in cs;
    assert c != RootDir;
    if c.ParentDir? && dir == [] {
      k := 1;
      assert cs[..1][1..] == [];
      assert root + dir == root;
      assert Lex(root + dir, cs[..1]) == root[..|root| - 1];
    } else {
      var next := LexStep(dir, c);
      if c.ParentDir? { assert (root + dir)[..|root + dir| - 1] == root + next; }
      if c.Normal? { assert root + dir + [c.name] == root + next; }
      var j := FirstEscape(root, next, cs[1..]);
      k := j + 1;
      assert cs[..k][1..] == cs[1..][..j];
    }
  }

  // ---------------------------------------------------- safe_symlink_target

  function TrimNul(s: string): string
  {
    if s != "" && s[|s| - 1] == '\0' then TrimNul(s[..|s| - 1]) else s
  }

  function Slashed(s: string): (r: string)
  {
    seq(|s|, i requires 0 <= i < |s| => if s[i] == '\\' then '/' else s[i])
  }

  /** The text the check reads: the target without the NULs at its end, and with a slash
      for each backslash. */
  lemma {:induction false} CleanedExactly(target: string)
    ensures var t := Slashed(TrimNul(target));
      && |t| <= |target| && (forall i :: |t| <= i < |target| ==> target[i] as int == 0)
      && (t != "" ==> target[|t| - 1] as int != 0)
      && forall i :: 0 <= i < |t| ==> t[i] == if target[i] as int == 92 then '/' else target[i]
  {
    if target != "" && target[|target| - 1] == '\0' {
      CleanedExactly(target[..|target| - 1]);
    }
  }

  /** How many components `PathBuf::pop` can still remove. */
  function Poppable(cs: seq<Component>): nat
  {
    |cs| - (if cs != [] && cs[0] == RootDir then 1 else 0)
  }

  /** The verdict on a cleaned target `t` of a link whose directory is `dir`. */
  predicate SafeFrom(dir: seq<Component>, t: string)
  {
    t != "" && t[0] != '/' && ':' !in t && Stays(Poppable(dir), Components(t))
  }

  /** The verdict on a link called `name` that points at `target`. */
  predicate SafeTarget(name: string, target: string)
  {
    SafeFrom(Dirname(Components(name)), Slashed(TrimNul(target)))
  }

  /** A slash can only be a component at the very front. */
  predicate RootOnlyFirst(cs: seq<Component>)
  {
    forall j :: 1 <= j < |cs| ==> cs[j] != RootDir
  }

  lemma DirnameShape(s: string)
    ensures RootOnlyFirst(Dirname(Components(s)))
  {
    var b := Body(SplitSlash(s));
    forall j | 0 <= j < |b| ensures b[j] != RootDir { assert b[j] in b; }
  }

  /** One turn of the loop below, on component `c` with `rest` still to come. */
  lemma PushPop(resolved: seq<Component>, c: Component, rest: seq<Component>)
    requires RootOnlyFirst(resolved)
    ensures c.Normal? ==>
      Stays(Poppable(resolved), [c] + rest) == Stays(Poppable(resolved + [c]), rest)
      && RootOnlyFirst(resolved + [c])
    ensures c.CurDir? ==> Stays(Poppable(resolved), [c] + rest) == Stays(Poppable(resolved), rest)
    ensures c.ParentDir? && (resolved == [] || resolved[|resolved| - 1] == RootDir) ==>
      !Stays(Poppable(resolved), [c] + rest)
    ensures c.ParentDir? && resolved != [] && resolved[|resolved| - 1] != RootDir ==>
      Stays(Poppable(resolved), [c] + rest) == Stays(Poppable(resolved[..|resolved| - 1]), rest)
      && RootOnlyFirst(resolved[..|resolved| - 1])
  {
    assert ([c] + rest)[1..] == rest;
  }

  /** The push/pop loop over the target's components. */
  method PushPopAll(dir: seq<Component>, cs: seq<Component>) returns (ok: bool)
    requires RootOnlyFirst(dir)
    requires forall i :: 0 <= i < |cs| ==> cs[i] != RootDir
    ensures ok == Stays(Poppable(dir), cs)
  {
    var resolved := dir;
    var i := 0;
    assert cs[0..] == cs;
    while i < |cs|
      invariant 0 <= i <= |cs|
      invariant RootOnlyFirst(resolved)
      invariant Stays(Poppable(dir), cs) == Stays(Poppable(resolved), cs[i..])
    {
      assert cs[i..] == [cs[i]] + cs[i + 1..];
      PushPop(resolved, cs[i], cs[i + 1..]);
      if cs[i].Normal? {
        resolved := resolved + [cs[i]];
      } else if cs[i].ParentDir? {
        if resolved == [] || resolved[|resolved| - 1] == RootDir {
          return false;
        }
        resolved := resolved[..|resolved| - 1];
      }
      i := i + 1;
    }
    return true;
  }

  /** `safe_symlink_target` decides `SafeTarget`. */
  method SafeSymlinkTarget(name: string, target: string) returns (ok: bool)
    ensures ok == SafeTarget(name, target)
  {
    var t := Slashed(TrimNul(target));
    if t == "" || t[0] == '/' || ':' in t {
      return false;
    }
    DirnameShape(name);
    NoRootDir(t);
    ok := PushPopAll(Dirname(Components(name)), Components(t));
  }

  lemma NoRootDir(t: string)
    requires t != "" && t[0] != '/'
    ensures forall i :: 0 <= i < |Components(t)| ==> Components(t)[i] != RootDir
  {
    var b := Body(SplitSlash(t));
    forall j | 0 <= j < |b| ensures b[j] != RootDir { assert b[j] in b; }
  }

  /** For a link at `dir + [name]` named by plain components and any target at all, the
      verdict is: the cleaned text is not empty, is not absolute, has no colon, and every
      prefix of its resolution stays inside the tree, under any root. */
  lemma SafeIffContained(root: Path, dir: Path, name: string, target: string)
    requires root != []
    requires forall i :: 0 <= i < |dir| ==> ValidName(dir[i])
    requires ValidName(name)
    ensures SafeTarget(Join(dir + [name]), target) <==>
      var t := Slashed(TrimNul(target));
      t != "" && t[0] != '/' && ':' !in t
      && forall k :: 0 <= k <= |Components(t)| ==> UnderRoot(root, Lex(root + dir, Components(t)[..k]))
  {
    var t := Slashed(TrimNul(target));
    LinkDepth(dir, name);
    if t != "" && t[0] != '/' {
      NoRootDir(t);
      assert RootDir !in Components(t);
      ContainedIffStays(root, dir, Components(t));
    }
  }

  /** The link that is created keeps its backslashes. It stays inside the tree exactly when
      the same check, made on the text without turning backslashes into slashes, accepts
      it too. */
  lemma KeptBackslashesContained(root: Path, dir: Path, name: string, target: string)
    requires root != []
    requires forall i :: 0 <= i < |dir| ==> ValidName(dir[i])
    requires ValidName(name) && SafeTarget(Join(dir + [name]), target)
    ensures var t := TrimNul(target);
      SafeFrom(Dirname(Components(Join(dir + [name]))), t) <==>
      forall k :: 0 <= k <= |Components(t)| ==> UnderRoot(root, Lex(root + dir, Components(t)[..k]))
  {
    var t := TrimNul(target);
    LinkDepth(dir, name);
    assert Slashed(t)[0] != '/';
    NoRootDir(t);
    assert RootDir !in Components(t);
    ContainedIffStays(root, dir, Components(t));
    forall i | 0 <= i < |t| ensures t[i] != ':' { assert Slashed(t)[i] != ':'; }
  }

  lemma PlainTarget(target: string)
    requires '\\' !in target
    ensures Slashed(target) == target
    ensures target != "" && target[0] != '/' ==> RootDir !in Components(target)
  {
    PlainText(target);
  }

  lemma NormalsDepth(p: Path)
    requires p != []
    ensures Poppable(Dirname(Normals(p))) == |p| - 1
  {
    var cs := Normals(p);
    assert cs[|cs| - 1] == Normal(p[|p| - 1]);
    assert cs[0] == Normal(p[0]);
  }

  lemma LinkDepth(dir: Path, name: string)
    requires forall i :: 0 <= i < |dir| ==> ValidName(dir[i])
    requires ValidName(name)
    ensures Components(Join(dir + [name])) == Normals(dir + [name])
    ensures Poppable(Dirname(Components(Join(dir + [name])))) == |dir|
  {
    var p := dir + [name];
    forall i | 0 <= i < |p| ensures ValidName(p[i]) {
      if i < |dir| { assert p[i] == dir[i]; }
    }
    ComponentsOfJoin(p);
    NormalsDepth(p);
  }

  lemma DotSlash(s: string, dot: string)
    requires dot == "."
    ensures Components("./" + s) == [CurDir] + Body(SplitSlash(s))
  {
    var v := dot + "/" + s;
    assert "./" + s == v;
    SplitJoined(dot, s);
    DotFirst(v, dot, SplitSlash(s));
  }

  lemma DotFirst(v: string, dot: string, rest: seq<string>)
    requires dot == "." && SplitSlash(v) == [dot] + rest && v != "" && v[0] != '/'
    ensures Components(v) == [CurDir] + Body(rest)
  {
    BodyFirst(dot, rest);
    OnePart(dot);
  }

  /** An entry name that begins with `./` is allowed exactly one level more than
      the directory it lies in has. */
  lemma LeadingDotCountsAsALevel(dir: Path, name: string, target: string)
    requires forall i :: 0 <= i < |dir| ==> ValidName(dir[i])
    requires ValidName(name)
    ensures Components("./" + Join(dir + [name])) == [CurDir] + Normals(dir + [name])
    ensures SafeTarget("./" + Join(dir + [name]), target)
       <==> var t := Slashed(TrimNul(target));
            t != "" && t[0] != '/' && ':' !in t && Stays(|dir| + 1, Components(t))
  {
    var p := dir + [name];
    BodyOfJoin(p);
    DotSlash(Join(p), ".");
    DotDepth(p);
  }

  /** What such an entry may point at stays inside the tree exactly when the check accepts
      it for the name without the dot. */
  lemma LeadingDotContained(root: Path, dir: Path, name: string, target: string)
    requires root != []
    requires forall i :: 0 <= i < |dir| ==> ValidName(dir[i])
    requires ValidName(name) && SafeTarget("./" + Join(dir + [name]), target)
    ensures SafeTarget(Join(dir + [name]), target) <==>
      var t := Slashed(TrimNul(target));
      forall k :: 0 <= k <= |Components(t)| ==> UnderRoot(root, Lex(root + dir, Components(t)[..k]))
  {
    SafeIffContained(root, dir, name, target);
  }

  lemma DotDepth(p: Path)
    requires p != []
    ensures Poppable(Dirname([CurDir] + Normals(p))) == |p|
  {
    var cs := [CurDir] + Normals(p);
    assert cs[|cs| - 1] == Normal(p[|p| - 1]);
    assert cs[..|cs| - 1][0] == CurDir;
  }

  /** Where the verdict is too generous: an entry named `./x` may point at `..`,
      which leaves the tree. */
  lemma LeadingDotEscapes(root: Path, x: string, up: string)
    requires root != [] && ValidName(x) && up == ".."
    ensures SafeTarget("./" + x, up)
    ensures !UnderRoot(root, Lex(root, Components(up)))
  {
    assert [] + [x] == [x] && Join([x]) == x;
    LeadingDotCountsAsALevel([], x, up);
    UpAlone(up);
    UpEscapes(root);
  }

  /** The text of `..` is its own cleaned form. */
  lemma UpAlone(up: string)
    requires up == ".."
    ensures Slashed(TrimNul(up)) == up && ':' !in up && Components(up) == [ParentDir] && Stays(1, [ParentDir])
  {
    DotDot(up);
    PlainTarget(up);
    assert TrimNul(up) == up;
    assert [ParentDir][1..] == [];
  }

  lemma UpEscapes(root: Path)
    requires root != []
    ensures !UnderRoot(root, Lex(root, [ParentDir]))
  {
    assert [ParentDir][1..] == [];
    assert Lex(root, [ParentDir]) == root[..|root| - 1];
  }

  lemma DotDot(up: string)
    requires up == ".."
    ensures Components(up) == [ParentDir]
  {
    SplitPlain(up);
    OnePart(up);
  }

  /** The verdict is given on a copy of the target with backslashes turned into
      slashes; the link that is created keeps them, and may climb further: one
      name with a backslash counts as two levels. */
  lemma BackslashEscapes(root: Path, name: string, a: string, b: string, up: string)
    requires root != []
    requires ValidName(name) && ValidName(a) && ValidName(b) && up == ".."
    requires '\\' !in a && '\\' !in b && ':' !in a && ':' !in b
    ensures SafeTarget(name, a + "\\" + (b + "/" + (up + "/" + up)))
    ensures !UnderRoot(root, Lex(root, Components(a + "\\" + (b + "/" + (up + "/" + up)))))
  {
    var rest := b + "/" + (up + "/" + up);
    var n := a + "\\" + b;
    assert n[|a|] == '\\' && n[0] == a[0] && a[0] in a;
    forall i | 0 <= i < |n| ensures n[i] != '/' {
      if i < |a| { assert n[i] in a; } else if i > |a| { assert n[i] in b; }
    }
    NameThenUpUp(n, up);
    assert n + "/" + (up + "/" + up) == a + "\\" + rest;
    UpUpEscapes(root, n);
    UpUpRest(b, up);
    Cleaned(a, rest);
    CleanedSafe(name, a, b, up);
  }

  lemma UpUpRest(b: string, up: string)
    requires up == ".." && '\\' !in b
    ensures var rest := b + "/" + (up + "/" + up);
            '\\' !in rest && rest[|rest| - 1] == '.'
  {
    var rest := b + "/" + (up + "/" + up);
    forall i | 0 <= i < |rest| ensures rest[i] != '\\' {
      if i < |b| { assert rest[i] in b; }
    }
  }

  lemma CleanedSafe(name: string, a: string, b: string, up: string)
    requires ValidName(name) && ValidName(a) && ValidName(b) && up == ".."
    requires ':' !in a && ':' !in b
    ensures SafeFrom(Dirname(Components(name)), a + "/" + (b + "/" + (up + "/" + up)))
  {
    var t := a + "/" + (b + "/" + (up + "/" + up));
    assert t != "" && t[0] != '/' && ':' !in t by { NoColon(a, b, up); }
    NamesThenUpUp(a, b, up);
    TwoDownTwoUp(a, b);
    LinkDepth([], name);
    assert [] + [name] == [name];
  }

  lemma NoColon(a: string, b: string, up: string)
    requires a != "" && a[0] != '/' && ':' !in a && ':' !in b && ':' !in up
    ensures var t := a + "/" + (b + "/" + (up + "/" + up)); t[0] != '/' && ':' !in t
  {
    var inner := up + "/" + up;
    var rest := b + "/" + inner;
    assert ':' !in inner;
    assert ':' !in rest;
  }

  lemma UpUpEscapes(root: Path, n: string)
    requires root != []
    ensures !UnderRoot(root, Lex(root, [Normal(n), ParentDir, ParentDir]))
  {
    var rs := [Normal(n), ParentDir, ParentDir];
    assert rs[1..] == [ParentDir, ParentDir];
    assert LexStep(root + [n], ParentDir) == root;
    assert Lex(root, rs) == Lex(root, [ParentDir]);
    assert Lex(root, [ParentDir]) == root[..|root| - 1];
  }

  lemma NameThenUpUp(n: string, up: string)
    requires ValidName(n) && up == ".."
    ensures Components(n + "/" + (up + "/" + up)) == [Normal(n), ParentDir, ParentDir]
  {
    ThreeParts(n, up, up);
    OnePart(n);
    OnePart(up);
    assert n[0] in n;
  }

  lemma NamesThenUpUp(a: string, b: string, up: string)
    requires ValidName(a) && ValidName(b) && up == ".."
    ensures Components(a + "/" + (b + "/" + (up + "/" + up))) == [Normal(a), Normal(b), ParentDir, ParentDir]
  {
    FourParts(a, b, up, up);
    OnePart(a);
    OnePart(b);
    OnePart(up);
    assert a[0] in a;
  }

  lemma TwoDownTwoUp(a: string, b: string)
    ensures Stays(0, [Normal(a), Normal(b), ParentDir, ParentDir])
  {
    var cs := [Normal(a), Normal(b), ParentDir, ParentDir];
    assert cs[1..] == [Normal(b), ParentDir, ParentDir];
    assert cs[1..][1..] == [ParentDir, ParentDir];
    assert cs[1..][1..][1..] == [ParentDir];
    assert cs[1..][1..][1..][1..] == [];
    assert Stays(0, []) && Stays(1, [ParentDir]) && Stays(2, [ParentDir, ParentDir]);
    assert Stays(1, cs[1..]);
  }

  lemma Cleaned(a: string, rest: string)
    requires '\\' !in a && '\\' !in rest && rest != "" && rest[|rest| - 1] != '\0'
    ensures Slashed(TrimNul(a + "\\" + rest)) == a + "/" + rest
  {
    var s := a + "\\" + rest;
    assert s[|s| - 1] == rest[|rest| - 1];
    assert TrimNul(s) == s;
    SlashedJoin(a, "\\", rest);
    PlainText(a);
    PlainText(rest);
    assert Slashed("\\") == "/";
  }

  lemma SlashedJoin(a: string, mid: string, rest: string)
    ensures Slashed(a + mid + rest) == Slashed(a) + Slashed(mid) + Slashed(rest)
  {
  }

  lemma PlainText(s: string)
    requires '\\' !in s
    ensures Slashed(s) == s
  {
  }

  lemma OnePart(n: string)
    ensures Body([n]) == if n == "" || n == "." then [] else if n == ".." then [ParentDir] else [Normal(n)]
  {
    assert Body([n]) == (if n == "" || n == "." then [] else if n == ".." then [ParentDir] else [Normal(n)]) + Body([]);
  }

  lemma BodyFirst(p: string, rest: seq<string>)
    ensures Body([p] + rest) == Body([p]) + Body(rest)
  {
    assert ([p] + rest)[1..] == rest;
    assert [p][1..] == [];
    assert Body([]) == [];
  }

  lemma ThreeParts(a: string, b: string, c: string)
    requires '/' !in a && '/' !in b && '/' !in c
    ensures SplitSlash(a + "/" + (b + "/" + c)) == [a, b, c]
    ensures Body([a, b, c]) == Body([a]) + Body([b]) + Body([c])
  {
    SplitThree(a, b, c, b + "/" + c);
    BodyThree(a, b, c);
  }

  lemma SplitThree(a: string, b: string, c: string, rest: string)
    requires '/' !in a && '/' !in b && '/' !in c && rest == b + "/" + c
    ensures SplitSlash(a + "/" + rest) == [a, b, c]
  {
    SplitPlain(c);
    SplitJoined(b, c);
    SplitJoined(a, rest);
  }

  lemma BodyTwo(b: string, c: string)
    ensures Body([b, c]) == Body([b]) + Body([c])
  {
    BodyFirst(b, [c]);
    assert [b] + [c] == [b, c];
  }

  lemma BodyThree(a: string, b: string, c: string)
    ensures Body([a, b, c]) == Body([a]) + Body([b]) + Body([c])
  {
    var rest := [b, c];
    BodyTwo(b, c);
    BodyFirst(a, rest);
    assert [a] + rest == [a, b, c];
  }

  lemma FourParts(a: string, b: string, c: string, d: string)
    requires '/' !in a && '/' !in b && '/' !in c && '/' !in d
    ensures SplitSlash(a + "/" + (b + "/" + (c + "/" + d))) == [a, b, c, d]
    ensures Body([a, b, c, d]) == Body([a]) + Body([b, c, d])
    ensures Body([b, c, d]) == Body([b]) + Body([c]) + Body([d])
  {
    ThreeParts(b, c, d);
    SplitJoined(a, b + "/" + (c + "/" + d));
    BodyFirst(a, [b, c, d]);
    assert [a] + [b, c, d] == [a, b, c, d];
  }
}
