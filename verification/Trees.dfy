/** File trees: looking nodes up, replacing and removing them, the copy that
    seeding makes of a package, and walks that follow symbolic links. */
module Trees {
  import opened Wrappers
  import opened Paths

  /** Permission bits. */
  type Mode = bv12

  /** Owner write permission, octal 200. */
  const OWNER_WRITE: Mode := 0x80

  type Bytes = seq<bv8>

  datatype Node =
    | Dir(mode: Mode, entries: map<string, Node>)
    | File(mode: Mode, bytes: Bytes)
    | Link(target: string)
    | Special

  // ------------------------------------------------------ lookup and update

  /** The node at `p`, not following links. */
  function Get(t: Node, p: Path): Option<Node>
  {
    if p == [] then Some(t)
    else if t.Dir? && p[0] in t.entries then Get(t.entries[p[0]], p[1..])
    else None
  }

  predicate IsDir(t: Node, p: Path)
  {
    Get(t, p).Some? && Get(t, p).value.Dir?
  }

  /** The parent of `p` is a directory. */
  predicate HasParent(t: Node, p: Path)
  {
    p != [] && IsDir(t, p[..|p| - 1])
  }

  /** `t` with `n` at `p`. */
  function Put(t: Node, p: Path, n: Node): Node
  {
    if p == [] then n
    else if !t.Dir? || (|p| > 1 && p[0] !in t.entries) then t
    else if |p| == 1 then t.(entries := t.entries[p[0] := n])
    else t.(entries := t.entries[p[0] := Put(t.entries[p[0]], p[1..], n)])
  }

  /** `t` without `p`. */
  function Del(t: Node, p: Path): Node
    requires p != []
  {
    if !t.Dir? || p[0] !in t.entries then t
    else if |p| == 1 then t.(entries := t.entries - {p[0]})
    else t.(entries := t.entries[p[0] := Del(t.entries[p[0]], p[1..])])
  }

  /** Same permission bits on what is, in both trees, a directory. */
  predicate SameDir(a: Option<Node>, b: Option<Node>)
  {
    a.Some? && b.Some? && a.value.Dir? && b.value.Dir? && a.value.mode == b.value.mode
  }

  lemma {:induction false} GetAppend(t: Node, p: Path, r: Path)
    ensures Get(t, p).Some? ==> Get(t, p + r) == Get(Get(t, p).value, r)
    ensures Get(t, p).None? ==> Get(t, p + r).None?
    decreases p
  {
    if p == [] {
      assert p + r == r;
    } else {
      assert (p + r)[1..] == p[1..] + r;
      if t.Dir? && p[0] in t.entries { GetAppend(t.entries[p[0]], p[1..], r); }
    }
  }

  /** Above an existing node there are only directories. */
  lemma {:induction false} ParentIsDir(t: Node, p: Path)
    requires p != [] && Get(t, p).Some?
    ensures HasParent(t, p)
    decreases p
  {
    if |p| > 1 {
      ParentIsDir(t.entries[p[0]], p[1..]);
      assert p[..|p| - 1][1..] == p[1..][..|p[1..]| - 1];
    } else {
      assert p[..0] == [];
    }
  }

  /** What a replacement changes, at every place in the tree. */
  lemma {:induction false} GetPut(t: Node, p: Path, n: Node, q: Path)
    requires HasParent(t, p)
    ensures p <= q ==> Get(Put(t, p, n), q) == Get(n, q[|p|..])
    ensures !(p <= q) && !(q <= p) ==> Get(Put(t, p, n), q) == Get(t, q)
    ensures q < p ==> SameDir(Get(t, q), Get(Put(t, p, n), q))
    decreases p
  {
    if |p| > 1 {
      var c := t.entries[p[0]];
      assert p[..|p| - 1][1..] == p[1..][..|p[1..]| - 1];
      assert IsDir(c, p[1..][..|p[1..]| - 1]);
      if q != [] && q[0] == p[0] {
        GetPut(c, p[1..], n, q[1..]);
        assert p <= q <==> p[1..] <= q[1..] by { PrefixTail(p, q); }
        assert q <= p <==> q[1..] <= p[1..] by { PrefixTail(q, p); }
        if p <= q { assert q[|p|..] == q[1..][|p[1..]|..]; }
      }
    } else {
      assert p[..0] == [];
      if q != [] {
        if q[0] == p[0] { assert p <= q; assert q[1..] == q[|p|..]; }
      }
    }
  }

  lemma PrefixTail(p: Path, q: Path)
    requires p != [] && q != [] && p[0] == q[0]
    ensures p <= q <==> p[1..] <= q[1..]
  {
    assert p == [p[0]] + p[1..];
    assert q == [q[0]] + q[1..];
  }

  /** What a removal changes, at every place in the tree. */
  lemma {:induction false} GetDel(t: Node, p: Path, q: Path)
    requires HasParent(t, p)
    ensures p <= q ==> Get(Del(t, p), q).None?
    ensures !(p <= q) && !(q <= p) ==> Get(Del(t, p), q) == Get(t, q)
    ensures q < p ==> SameDir(Get(t, q), Get(Del(t, p), q))
    decreases p
  {
    if |p| > 1 {
      var c := t.entries[p[0]];
      assert p[..|p| - 1][1..] == p[1..][..|p[1..]| - 1];
      assert IsDir(c, p[1..][..|p[1..]| - 1]);
      if q != [] && q[0] == p[0] {
        GetDel(c, p[1..], q[1..]);
        assert p <= q <==> p[1..] <= q[1..] by { PrefixTail(p, q); }
        assert q <= p <==> q[1..] <= p[1..] by { PrefixTail(q, p); }
      }
    } else {
      assert p[..0] == [];
      if q != [] && q[0] == p[0] { assert p <= q; }
    }
  }

  lemma HasParentStep(t: Node, p: Path)
    requires HasParent(t, p)
    ensures t.Dir?
    ensures |p| > 1 ==> p[0] in t.entries && HasParent(t.entries[p[0]], p[1..])
  {
    if |p| > 1 { assert p[..|p| - 1][1..] == p[1..][..|p[1..]| - 1]; }
  }

  lemma PutInto(t: Node, k: string, r: Path, x: Node)
    requires t.Dir? && (r == [] || k in t.entries)
    ensures Put(t, [k] + r, x) == t.(entries := t.entries[k := if r == [] then x else Put(t.entries[k], r, x)])
  {
    assert ([k] + r)[1..] == r;
  }

  /** Writing below a place just written is one write. */
  lemma {:induction false} PutBelowPut(t: Node, p: Path, n: Node, r: Path, x: Node)
    requires HasParent(t, p)
    ensures Put(Put(t, p, n), p + r, x) == Put(t, p, Put(n, r, x))
    decreases p
  {
    var k, tail := p[0], p[1..];
    HasParentStep(t, p);
    assert p == [k] + tail && p + r == [k] + (tail + r);
    PutInto(t, k, tail, n);
    PutInto(t, k, tail, Put(n, r, x));
    if tail == [] {
      assert tail + r == r;
      PutTwice(t, k, n, r, x);
    } else {
      PutBelowPut(t.entries[k], tail, n, r, x);
      PutTwice(t, k, Put(t.entries[k], tail, n), tail + r, x);
    }
  }

  lemma PutTwice(t: Node, k: string, w: Node, r: Path, x: Node)
    requires t.Dir?
    ensures Put(t.(entries := t.entries[k := w]), [k] + r, x)
         == t.(entries := t.entries[k := if r == [] then x else Put(w, r, x)])
  {
    var u := t.(entries := t.entries[k := w]);
    PutInto(u, k, r, x);
    var v := if r == [] then x else Put(w, r, x);
    assert u.entries[k := v] == t.entries[k := v];
  }

  // ------------------------------------------------------------- the copy

  /** The copy seeding leaves behind: the same tree, owner-writable. */
  function Mutable(n: Node): Node
  {
    match n
    case Dir(m, es) => Dir(m | OWNER_WRITE, map k | k in es :: Mutable(es[k]))
    case File(m, b) => File(m | OWNER_WRITE, b)
    case Link(_) => n
    case Special => n
  }

  /** Everything below `n`, which lies at `rel` in its package, can be copied:
      it is a directory, a file or a link that stays in the package. */
  predicate Copyable(n: Node, rel: Path)
  {
    match n
    case Dir(_, es) => forall k | k in es :: Copyable(es[k], rel + [k])
    case File(_, _) => true
    case Link(target) => SafeTarget(Join(rel), target)
    case Special => false
  }

  /** The same said of every node of the tree, by its place. */
  lemma CopyableEverywhere(n: Node, rel: Path)
    ensures Copyable(n, rel) <==>
      forall q :: Get(n, q).Some? ==>
        var x := Get(n, q).value;
        x.Dir? || x.File? || (x.Link? && SafeTarget(Join(rel + q), x.target))
  {
    CopyableByPlace(n, rel);
    forall q | Get(n, q).Some?
      ensures CopyableHere(Get(n, q).value, rel + q) <==>
        var x := Get(n, q).value;
        x.Dir? || x.File? || (x.Link? && SafeTarget(Join(rel + q), x.target))
    {
    }
  }

  lemma {:induction false} CopyableByPlace(n: Node, rel: Path)
    ensures Copyable(n, rel) <==> forall q :: Get(n, q).Some? ==> CopyableHere(Get(n, q).value, rel + q)
    decreases n
  {
    if Copyable(n, rel) {
      forall q | Get(n, q).Some? ensures CopyableHere(Get(n, q).value, rel + q) {
        CopyableAt(n, rel, q);
      }
    }
    if forall q :: Get(n, q).Some? ==> CopyableHere(Get(n, q).value, rel + q) {
      assert Get(n, []).Some? && rel + [] == rel;
      assert CopyableHere(n, rel);
      if n.Dir? {
        forall k | k in n.entries ensures Copyable(n.entries[k], rel + [k]) {
          forall q | Get(n.entries[k], q).Some?
            ensures CopyableHere(Get(n.entries[k], q).value, rel + [k] + q)
          {
            assert ([k] + q)[1..] == q;
            assert Get(n, [k] + q) == Get(n.entries[k], q);
            assert rel + [k] + q == rel + ([k] + q);
          }
          CopyableByPlace(n.entries[k], rel + [k]);
        }
      }
    }
  }

  predicate CopyableHere(n: Node, place: Path)
  {
    !n.Special? && (n.Link? ==> SafeTarget(Join(place), n.target))
  }

  lemma {:induction false} CopyableAt(n: Node, rel: Path, q: Path)
    requires Copyable(n, rel) && Get(n, q).Some?
    ensures CopyableHere(Get(n, q).value, rel + q)
    decreases q
  {
    if q == [] {
      assert rel + q == rel;
    } else {
      CopyableAt(n.entries[q[0]], rel + [q[0]], q[1..]);
      assert rel + [q[0]] + q[1..] == rel + q;
    }
  }

  /** One node of the copy next to its original: the same kind, the same names,
      bytes and link text, and the mode with owner write added. */
  predicate CopyOf(copy: Node, original: Node)
  {
    match original
    case Dir(m, es) => copy.Dir? && copy.mode == m | OWNER_WRITE && copy.entries.Keys == es.Keys
    case File(m, b) => copy == File(m | OWNER_WRITE, b)
    case Link(_) => copy == original
    case Special => copy == original
  }

  /** The copy has a node exactly where the original has one, and each is the
      copy of its original. */
  lemma {:induction false} MutableNodeByNode(n: Node, q: Path)
    ensures Get(Mutable(n), q).Some? <==> Get(n, q).Some?
    ensures Get(n, q).Some? ==>
      Get(Mutable(n), q).value == Mutable(Get(n, q).value)
      && CopyOf(Get(Mutable(n), q).value, Get(n, q).value)
    decreases q
  {
    if q != [] && n.Dir? && q[0] in n.entries {
      MutableNodeByNode(n.entries[q[0]], q[1..]);
    }
  }

  /** Owner write is bit 7, octal 200: the copy's mode has it and every other bit of the
      original's. */
  lemma OwnerWriteIsBit7(m: Mode)
    ensures (m | OWNER_WRITE) & 0x080 == 0x080
    ensures (m | OWNER_WRITE) & 0xF7F == m & 0xF7F
  {
  }

  /** Copying a copy changes nothing more. */
  lemma {:induction false} MutableTwice(n: Node)
    ensures Mutable(Mutable(n)) == Mutable(n)
  {
    match n
    case Dir(m, es) =>
      forall k | k in es ensures Mutable(Mutable(es[k])) == Mutable(es[k]) { MutableTwice(es[k]); }
      assert Mutable(Mutable(n)).entries == Mutable(n).entries;
    case File(_, _) =>
    case Link(_) =>
    case Special =>
  }

  // ------------------------------------------------------- walks along links

  datatype Walked = Reached(path: Path) | Missing | NotADirectory | TooManyLinks

  /** Resolving `todo` from the directory `cur` as the kernel does. A link met on
      the way is replaced by its target; a final one only if `followLast`. */
  function Walk(root: Node, cur: Path, todo: seq<Component>, followLast: bool, links: nat): Walked
    decreases links, |todo|
  {
    if todo == [] then Reached(cur)
    else if !IsDir(root, cur) then NotADirectory
    else
      var es := Get(root, cur).value.entries;
      match todo[0]
      case RootDir => Walk(root, [], todo[1..], followLast, links)
      case CurDir => Walk(root, cur, todo[1..], followLast, links)
      case ParentDir => Walk(root, LexStep(cur, ParentDir), todo[1..], followLast, links)
      case Normal(n) =>
        if n !in es then Missing
        else if es[n].Link? && (|todo| > 1 || followLast) then
          if links == 0 then TooManyLinks
          else Walk(root, cur, Components(es[n].target) + todo[1..], followLast, links - 1)
        else Walk(root, cur + [n], todo[1..], followLast, links)
  }

  predicate IsLink(t: Node, p: Path)
  {
    Get(t, p).Some? && Get(t, p).value.Link?
  }

  /** When no strict prefix of the way is itself a link, the step-by-step walk
      arrives exactly where the lexical resolution says, and it arrives exactly
      when every strict prefix is a directory and the end exists. */
  lemma {:induction false} WalkIsLexical(root: Node, cur: Path, cs: seq<Component>, links: nat, p: Path)
    requires Get(root, cur).Some? && RootDir !in cs
    requires forall k :: 0 <= k < |cs| ==> !IsLink(root, Lex(cur, cs[..k]))
    ensures Walk(root, cur, cs, false, links) == Reached(p)
       <==> p == Lex(cur, cs) && Get(root, p).Some?
            && forall k :: 0 <= k < |cs| ==> IsDir(root, Lex(cur, cs[..k]))
    decreases cs
  {
    if cs != [] {
      assert cs[..0] == [];
      assert Lex(cur, cs[..0]) == cur;
      if IsDir(root, cur) {
        var c := cs[0];
        assert c in cs;
        assert c != RootDir;
        var next := LexStep(cur, c);
        if c.Normal? { GetAppend(root, cur, [c.name]); }
        if c.ParentDir? && cur != [] { ParentIsDir(root, cur); }
        forall k | 0 <= k < |cs[1..]| ensures Lex(next, cs[1..][..k]) == Lex(cur, cs[..k + 1]) {
          assert cs[..k + 1][1..] == cs[1..][..k];
        }
        if |cs| > 1 {
          assert cs[..1][1..] == [] && cs[..1][0] == c;
          assert Lex(cur, cs[..1]) == Lex(next, []);
          assert !IsLink(root, Lex(cur, cs[..1]));
        }
        WalkOneStep(root, cur, cs, links);
        if Get(root, next).Some? {
          forall k | 0 <= k < |cs[1..]| ensures !IsLink(root, Lex(next, cs[1..][..k])) {
            assert Lex(next, cs[1..][..k]) == Lex(cur, cs[..k + 1]);
          }
          WalkIsLexical(root, next, cs[1..], links, p);
          AllPrefixes(root, cur, cs);
        } else {
          LexMissing(root, cur, cs);
        }
      }
    }
  }

  /** A first component that is no link on the way is taken as it stands. */
  lemma WalkOneStep(root: Node, cur: Path, cs: seq<Component>, links: nat)
    requires cs != [] && cs[0] != RootDir && IsDir(root, cur)
    requires |cs| > 1 ==> !IsLink(root, LexStep(cur, cs[0]))
    ensures Walk(root, cur, cs, false, links)
         == if Get(root, LexStep(cur, cs[0])).Some? then Walk(root, LexStep(cur, cs[0]), cs[1..], false, links)
            else Missing
  {
    var c := cs[0];
    if c.Normal? { GetAppend(root, cur, [c.name]); }
    if c.ParentDir? && cur != [] { ParentIsDir(root, cur); }
  }

  lemma AllPrefixes(root: Node, cur: Path, cs: seq<Component>)
    requires cs != [] && IsDir(root, cur)
    ensures (forall k :: 0 <= k < |cs| ==> IsDir(root, Lex(cur, cs[..k])))
       <==> forall k :: 0 <= k < |cs[1..]| ==> IsDir(root, Lex(LexStep(cur, cs[0]), cs[1..][..k]))
  {
    forall k | 0 <= k < |cs[1..]| ensures Lex(LexStep(cur, cs[0]), cs[1..][..k]) == Lex(cur, cs[..k + 1]) {
      assert cs[..k + 1][1..] == cs[1..][..k];
    }
    if forall k :: 0 <= k < |cs[1..]| ==> IsDir(root, Lex(LexStep(cur, cs[0]), cs[1..][..k])) {
      forall k | 0 <= k < |cs| ensures IsDir(root, Lex(cur, cs[..k])) {
        if k > 0 { assert IsDir(root, Lex(LexStep(cur, cs[0]), cs[1..][..k - 1])); }
      }
    }
    if forall k :: 0 <= k < |cs| ==> IsDir(root, Lex(cur, cs[..k])) {
      forall k | 0 <= k < |cs[1..]| ensures IsDir(root, Lex(LexStep(cur, cs[0]), cs[1..][..k])) {
        assert IsDir(root, Lex(cur, cs[..k + 1]));
      }
    }
  }

  /** If the first name is missing, either it is the end, or a strict prefix. */
  lemma LexMissing(root: Node, cur: Path, cs: seq<Component>)
    requires cs != [] && Get(root, LexStep(cur, cs[0])).None?
    ensures |cs| == 1 ==> Get(root, Lex(cur, cs)).None?
    ensures |cs| > 1 ==> !IsDir(root, Lex(cur, cs[..1]))
  {
    assert cs[..1][1..] == [];
    if |cs| == 1 { assert cs[1..] == []; }
  }

  /** Every walk inside the copy, links included, ends as it does in the original. */
  lemma {:induction false} WalksAgreeInTheCopy(t: Node, cur: Path, todo: seq<Component>, followLast: bool, links: nat)
    ensures Walk(Mutable(t), cur, todo, followLast, links) == Walk(t, cur, todo, followLast, links)
    decreases links, |todo|
  {
    if todo != [] {
      MutableNodeByNode(t, cur);
      if IsDir(t, cur) {
        var es := Get(t, cur).value.entries;
        match todo[0]
        case RootDir => WalksAgreeInTheCopy(t, [], todo[1..], followLast, links);
        case CurDir => WalksAgreeInTheCopy(t, cur, todo[1..], followLast, links);
        case ParentDir => WalksAgreeInTheCopy(t, LexStep(cur, ParentDir), todo[1..], followLast, links);
        case Normal(n) =>
          if n in es {
            MutableNodeByNode(t, cur + [n]);
            if es[n].Link? && (|todo| > 1 || followLast) {
              if links > 0 {
                WalksAgreeInTheCopy(t, cur, Components(es[n].target) + todo[1..], followLast, links - 1);
              }
            } else {
              WalksAgreeInTheCopy(t, cur + [n], todo[1..], followLast, links);
            }
          }
      }
    }
  }

  // ---------------------------------------------------- the package in its real place

  /** The walk stays in the package: it never climbs above its top and never meets an
      absolute link. */
  predicate WalkInside(t: Node, cur: Path, todo: seq<Component>, followLast: bool, links: nat)
    decreases links, |todo|
  {
    todo == [] || !IsDir(t, cur) ||
    var es := Get(t, cur).value.entries;
    match todo[0]
    case RootDir => false
    case CurDir => WalkInside(t, cur, todo[1..], followLast, links)
    case ParentDir => cur != [] && WalkInside(t, LexStep(cur, ParentDir), todo[1..], followLast, links)
    case Normal(n) =>
      n !in es ||
      if es[n].Link? && (|todo| > 1 || followLast)
      then links == 0 || WalkInside(t, cur, Components(es[n].target) + todo[1..], followLast, links - 1)
      else WalkInside(t, cur + [n], todo[1..], followLast, links)
  }

  function Rebased(base: Path, r: Walked): Walked
  {
    match r
    case Reached(p) => Reached(base + p)
    case _ => r
  }

  /** A walk that stays in a package goes the same way wherever the package lies. */
  lemma {:induction false} WalkInPlace(w: Node, base: Path, t: Node, cur: Path, todo: seq<Component>, followLast: bool, links: nat)
    requires Get(w, base) == Some(t) && WalkInside(t, cur, todo, followLast, links)
    ensures Walk(w, base + cur, todo, followLast, links) == Rebased(base, Walk(t, cur, todo, followLast, links))
    decreases links, |todo|, 1
  {
    GetAppend(w, base, cur);
    if todo != [] && IsDir(t, cur) {
      if todo[0].Normal? {
        NameInPlace(w, base, t, cur, todo, followLast, links);
      } else if todo[0].CurDir? {
        WalkInPlace(w, base, t, cur, todo[1..], followLast, links);
      } else if todo[0].ParentDir? {
        assert LexStep(base + cur, ParentDir) == base + LexStep(cur, ParentDir);
        WalkInPlace(w, base, t, LexStep(cur, ParentDir), todo[1..], followLast, links);
      }
    }
  }

  /** The case of a name, which may be a link. */
  lemma {:induction false} NameInPlace(w: Node, base: Path, t: Node, cur: Path, todo: seq<Component>, followLast: bool, links: nat)
    requires Get(w, base) == Some(t) && Get(w, base + cur) == Get(t, cur) && IsDir(t, cur)
    requires todo != [] && todo[0].Normal? && WalkInside(t, cur, todo, followLast, links)
    ensures Walk(w, base + cur, todo, followLast, links) == Rebased(base, Walk(t, cur, todo, followLast, links))
    decreases links, |todo|, 0
  {
    var es, n := Get(t, cur).value.entries, todo[0].name;
    if n in es {
      if es[n].Link? && (|todo| > 1 || followLast) {
        if links > 0 {
          WalkInPlace(w, base, t, cur, Components(es[n].target) + todo[1..], followLast, links - 1);
        }
      } else {
        assert base + cur + [n] == base + (cur + [n]);
        WalkInPlace(w, base, t, cur + [n], todo[1..], followLast, links);
      }
    }
  }

  lemma {:induction false} InsideInTheCopy(t: Node, cur: Path, todo: seq<Component>, followLast: bool, links: nat)
    ensures WalkInside(Mutable(t), cur, todo, followLast, links) == WalkInside(t, cur, todo, followLast, links)
    decreases links, |todo|
  {
    if todo != [] {
      MutableNodeByNode(t, cur);
      if IsDir(t, cur) {
        var es := Get(t, cur).value.entries;
        match todo[0]
        case RootDir =>
        case CurDir => InsideInTheCopy(t, cur, todo[1..], followLast, links);
        case ParentDir => InsideInTheCopy(t, LexStep(cur, ParentDir), todo[1..], followLast, links);
        case Normal(n) =>
          if n in es {
            if es[n].Link? && (|todo| > 1 || followLast) {
              if links > 0 {
                InsideInTheCopy(t, cur, Components(es[n].target) + todo[1..], followLast, links - 1);
              }
            } else {
              InsideInTheCopy(t, cur + [n], todo[1..], followLast, links);
            }
          }
      }
    }
  }

  /** The package in the store and its copy at the target, each in its own world: every
      walk that stays in the package, through any number of links, ends at the same
      relative place in both, or fails in the same way in both. */
  lemma WalksAgreeInPlace(before: Node, source: Path, now: Node, target: Path, t: Node,
                          cur: Path, todo: seq<Component>, followLast: bool, links: nat)
    requires Get(before, source) == Some(t) && Get(now, target) == Some(Mutable(t))
    requires WalkInside(t, cur, todo, followLast, links)
    ensures Walk(before, source + cur, todo, followLast, links) == Rebased(source, Walk(t, cur, todo, followLast, links))
    ensures Walk(now, target + cur, todo, followLast, links) == Rebased(target, Walk(t, cur, todo, followLast, links))
  {
    WalkInPlace(before, source, t, cur, todo, followLast, links);
    InsideInTheCopy(t, cur, todo, followLast, links);
    WalksAgreeInTheCopy(t, cur, todo, followLast, links);
    WalkInPlace(now, target, Mutable(t), cur, todo, followLast, links);
  }

  /** Every link of a package that could be copied: the copy has it at the same place with
      the same text, and for texts without backslashes it resolves to the same relative
      place from the target as from the store, never leaving either tree on the way. */
  lemma CopiedLink(before: Node, source: Path, now: Node, target: Path, t: Node, dir: Path, name: string, text: string)
    requires source != [] && target != []
    requires Get(before, source) == Some(t) && Get(now, target) == Some(Mutable(t)) && Copyable(t, [])
    requires forall i :: 0 <= i < |dir| ==> ValidName(dir[i])
    requires ValidName(name) && Get(t, dir + [name]) == Some(Link(text))
    requires Slashed(TrimNul(text)) == text
    ensures Get(now, target + (dir + [name])) == Some(Link(text))
    ensures var cs := Components(text);
      && Lex(source + dir, cs) == source + Lex(dir, cs)
      && Lex(target + dir, cs) == target + Lex(dir, cs)
      && forall k :: 0 <= k <= |cs| ==>
           UnderRoot(source, Lex(source + dir, cs[..k])) && UnderRoot(target, Lex(target + dir, cs[..k]))
  {
    CopyableAt(t, [], dir + [name]);
    assert [] + (dir + [name]) == dir + [name];
    MutableNodeByNode(t, dir + [name]);
    GetAppend(now, target, dir + [name]);
    LinkResolves(source, dir, name, text);
    LinkResolves(target, dir, name, text);
  }

  /** An accepted link, under any root. */
  lemma LinkResolves(root: Path, dir: Path, name: string, text: string)
    requires root != [] && SafeTarget(Join(dir + [name]), text) && Slashed(TrimNul(text)) == text
    requires forall i :: 0 <= i < |dir| ==> ValidName(dir[i])
    requires ValidName(name)
    ensures var cs := Components(text);
      && Lex(root + dir, cs) == root + Lex(dir, cs)
      && forall k :: 0 <= k <= |cs| ==> UnderRoot(root, Lex(root + dir, cs[..k]))
  {
    SafeIffContained(root, dir, name, text);
    LinkDepth(dir, name);
    NoRootDir(text);
    SamePlaceEverywhere(root, dir, Components(text));
  }

  // ------------------------------------------- what the lexical check does not say

  lemma TwoParts(a: string, up: string)
    requires ValidName(a) && up == ".."
    ensures Components(a + "/" + up) == [Normal(a), ParentDir]
  {
    SplitPlain(up);
    SplitJoined(a, up);
    BodyFirst(a, [up]);
    assert [a] + [up] == [a, up];
    OnePart(a);
    OnePart(up);
    assert a[0] in a;
  }

  /** A link one level down may go up one level on balance. */
  lemma OneLevelTarget(name: string, x: string, t: string)
    requires ValidName(name) && ValidName(x)
    requires t != "" && t[0] != '/' && ':' !in t && '\\' !in t && t[|t| - 1] != '\0'
    requires Stays(1, Components(t))
    ensures Copyable(Link(t), [] + [x] + [name])
  {
    assert SafeTarget(Join([x] + [name]), t) by {
      LinkDepth([x], name);
      PlainTarget(t);
      assert TrimNul(t) == t;
    }
    assert [] + [x] + [name] == [x] + [name];
  }

  lemma UpAndBack(a: string)
    ensures Stays(1, [ParentDir]) && Stays(1, [Normal(a), ParentDir])
  {
    assert [ParentDir][1..] == [] && [Normal(a), ParentDir][1..] == [ParentDir];
    assert Stays(2, [ParentDir]);
  }

  lemma PlainJoin(a: string, up: string)
    requires ValidName(a) && up == ".." && ':' !in a && '\\' !in a
    ensures var t := a + "/" + up; t[0] != '/' && ':' !in t && '\\' !in t && t[|t| - 1] != '\0'
  {
    var tail := "/" + up;
    assert ':' !in tail && '\\' !in tail;
    assert a + "/" + up == a + tail;
    assert a[0] in a;
  }

  lemma FollowStep(w: Node, cur: Path, n: string, rest: seq<Component>, links: nat)
    requires IsDir(w, cur) && links > 0
    requires var es := Get(w, cur).value.entries; n in es && es[n].Link?
    ensures Walk(w, cur, [Normal(n)] + rest, true, links)
         == Walk(w, cur, Components(Get(w, cur).value.entries[n].target) + rest, true, links - 1)
  {
    assert ([Normal(n)] + rest)[1..] == rest;
  }

  lemma UpStep(w: Node, cur: Path, rest: seq<Component>, links: nat)
    requires IsDir(w, cur) && cur != []
    ensures Walk(w, cur, [ParentDir] + rest, true, links) == Walk(w, cur[..|cur| - 1], rest, true, links)
  {
    assert ([ParentDir] + rest)[1..] == rest;
  }

  lemma LexBack(dir: Path, a: string)
    ensures Lex(dir, [Normal(a), ParentDir]) == dir
  {
    assert [Normal(a), ParentDir][1..] == [ParentDir] && [ParentDir][1..] == [];
    assert (dir + [a])[..|dir + [a]| - 1] == dir;
    assert Lex(dir + [a], [ParentDir]) == Lex(dir, []);
  }

  /** Lexical safety is a promise about each link by itself: two links that both pass
      can lead out of the package together, when one goes through the other. */
  lemma SafeLinksLeaveTogether(w: Node, pkg: string, x: string, a: string, b: string, up: string, through: string, m: Mode)
    requires ValidName(x) && ValidName(a) && ValidName(b) && a != b && ':' !in a && '\\' !in a
    requires up == ".." && through == a + "/" + up
    requires IsDir(w, []) && pkg in w.entries
    requires w.entries[pkg] == Dir(m, map[x := Dir(m, map[a := Link(up), b := Link(through)])])
    ensures Copyable(w.entries[pkg], [])
    ensures Lex([pkg, x], Components(through)) == [pkg, x]
    ensures Walk(w, [pkg, x], [Normal(b)], true, 2) == Reached([])
  {
    DotDot(up);
    TwoParts(a, up);
    assert Copyable(w.entries[pkg], []) by {
      PlainJoin(a, up);
      UpAndBack(a);
      OneLevelTarget(a, x, up);
      OneLevelTarget(b, x, through);
      var d := w.entries[pkg].entries[x];
      BothCopyable(d, [] + [x], a, b, m, Link(up), Link(through));
      OneCopyable(w.entries[pkg], [], x, m, d);
    }
    LexBack([pkg, x], a);
    GetTwo(w, pkg, x);
    LeavesByWalking(w, pkg, x, a, b, up, through);
  }

  lemma BothCopyable(d: Node, at: Path, a: string, b: string, m: Mode, na: Node, nb: Node)
    requires a != b && d == Dir(m, map[a := na, b := nb])
    requires Copyable(na, at + [a]) && Copyable(nb, at + [b])
    ensures Copyable(d, at)
  {
    forall k | k in d.entries ensures Copyable(d.entries[k], at + [k]) {
      assert k == a || k == b;
    }
  }

  lemma OneCopyable(n: Node, at: Path, x: string, m: Mode, d: Node)
    requires n == Dir(m, map[x := d]) && Copyable(d, at + [x])
    ensures Copyable(n, at)
  {
  }

  lemma GetTwo(w: Node, pkg: string, x: string)
    requires w.Dir? && pkg in w.entries && w.entries[pkg].Dir? && x in w.entries[pkg].entries
    ensures Get(w, [pkg]) == Some(w.entries[pkg]) && Get(w, [pkg, x]) == Some(w.entries[pkg].entries[x])
  {
    var n := w.entries[pkg];
    assert [pkg][1..] == [] && [x][1..] == [];
    assert Get(n, [x]) == Get(n.entries[x], []);
    assert [pkg] + [x] == [pkg, x];
    GetAppend(w, [pkg], [x]);
  }

  lemma LeavesByWalking(w: Node, pkg: string, x: string, a: string, b: string, up: string, through: string)
    requires Components(up) == [ParentDir] && Components(through) == [Normal(a), ParentDir]
    requires IsDir(w, []) && IsDir(w, [pkg]) && IsDir(w, [pkg, x])
    requires var es := Get(w, [pkg, x]).value.entries;
      a in es && es[a] == Link(up) && b in es && es[b] == Link(through)
    ensures Walk(w, [pkg, x], [Normal(b)], true, 2) == Reached([])
  {
    FollowTwo(w, [pkg, x], a, b, [ParentDir, ParentDir]);
    TwoUp(w, pkg, x, [ParentDir, ParentDir]);
  }

  /** From one link to the other, and on with what both leave to do. */
  lemma FollowTwo(w: Node, here: Path, a: string, b: string, rest: seq<Component>)
    requires IsDir(w, here) && rest == [ParentDir, ParentDir]
    requires var es := Get(w, here).value.entries;
      && a in es && es[a].Link? && Components(es[a].target) == [ParentDir]
      && b in es && es[b].Link? && Components(es[b].target) == [Normal(a), ParentDir]
    ensures Walk(w, here, [Normal(b)], true, 2) == Walk(w, here, rest, true, 0)
  {
    var none := [];
    assert [Normal(b)] + none == [Normal(b)] && [Normal(a), ParentDir] + none == [Normal(a)] + [ParentDir];
    FollowStep(w, here, b, none, 2);
    FollowStep(w, here, a, [ParentDir], 1);
    assert [ParentDir] + [ParentDir] == rest;
  }

  lemma TwoUp(w: Node, pkg: string, x: string, todo: seq<Component>)
    requires IsDir(w, [pkg]) && IsDir(w, [pkg, x]) && todo == [ParentDir, ParentDir]
    ensures Walk(w, [pkg, x], todo, true, 0) == Reached([])
  {
    var here, none := [pkg, x], [];
    assert here[..1] == [pkg] && [pkg][..0] == [] && [ParentDir] + none == [ParentDir];
    assert todo == [ParentDir] + [ParentDir];
    UpStep(w, here, [ParentDir], 0);
    UpStep(w, [pkg], none, 0);
  }
}
