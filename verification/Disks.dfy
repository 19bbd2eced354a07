/** The host a run works on, one file-system operation at a time, and the
    recursive copy of a package tree. */
module Disks {
  import opened Wrappers
  import opened Hosts
  import opened Paths
  import opened Trees
  import opened Packages

  /** `now` differs from `before` at most in what lies at `p`. */
  ghost predicate OnlyAt(before: Node, p: Path, now: Node)
  {
    now == before || exists n: Node :: now == Put(before, p, n)
  }

  /** The steps `h` made after `past` left the ledger alone and wrote only at `p`. */
  ghost predicate StepsOnlyAt(past: seq<World>, h: seq<World>, before: Node, book: LedgerFile, p: Path)
  {
    |past| <= |h| && h[..|past|] == past
    && forall i :: |past| <= i < |h| ==> h[i].ledger == book && OnlyAt(before, p, h[i].root)
  }

  /** A file system with the reconciler's state file. Any operation may fail
      unless the host is healthy. `history` lists the world after every step. */
  class Disk {
    var root: Node
    var ledger: LedgerFile
    const healthy: bool
    ghost var history: seq<World>

    constructor (root: Node, ledger: LedgerFile, healthy: bool)
      ensures this.root == root && this.ledger == ledger && this.healthy == healthy
      ensures history == []
    {
      this.root := root;
      this.ledger := ledger;
      this.healthy := healthy;
      history := [];
    }

    ghost function Now(): World
      reads this
    {
      World(root, ledger)
    }

    method AnyNode() returns (n: Node)
    {
      n := *;
    }

    method Mkdir(p: Path, mode: Mode) returns (ok: bool)
      requires HasParent(root, p) && Get(root, p).None?
      modifies this
      ensures ledger == old(ledger)
      ensures root == if ok then Put(old(root), p, Dir(mode, map[])) else old(root)
      ensures healthy ==> ok
      ensures history == old(history) + [Now()]
    {
      ok := Luck(healthy);
      if ok { root := Put(root, p, Dir(mode, map[])); }
      history := history + [Now()];
    }

    /** `set_permissions` on a directory. */
    method SetDirMode(p: Path, mode: Mode) returns (ok: bool)
      requires p != [] && IsDir(root, p)
      modifies this
      ensures ledger == old(ledger)
      ensures root == if ok then Put(old(root), p, Dir(mode, Get(old(root), p).value.entries)) else old(root)
      ensures healthy ==> ok
      ensures history == old(history) + [Now()]
    {
      ok := Luck(healthy);
      if ok { root := Put(root, p, Dir(mode, Get(root, p).value.entries)); }
      history := history + [Now()];
    }

    /** `fs::copy` and the mode change after it; a prefix of the bytes may be all
        that is there when the copy stops. */
    method WriteFile(p: Path, bytes: Bytes, copied: Mode, mode: Mode) returns (ok: bool)
      requires HasParent(root, p)
      modifies this
      ensures ledger == old(ledger)
      ensures OnlyAt(old(root), p, root)
      ensures ok ==> root == Put(old(root), p, File(mode, bytes))
      ensures healthy ==> ok
      ensures StepsOnlyAt(old(history), history, old(root), old(ledger), p)
    {
      ghost var was := root;
      var cut: int := *;
      ok := Luck(healthy);
      var part := if 0 <= cut <= |bytes| then bytes[..cut] else bytes;
      root := Put(root, p, File(copied, part));
      history := history + [Now()];
      if ok {
        root := Put(root, p, File(mode, bytes));
        PutBelowPut(was, p, File(copied, part), [], File(mode, bytes));
        assert p + [] == p;
      }
      history := history + [Now()];
    }

    method Symlink(p: Path, target: string) returns (ok: bool)
      requires HasParent(root, p) && Get(root, p).None?
      modifies this
      ensures ledger == old(ledger)
      ensures root == if ok then Put(old(root), p, Link(target)) else old(root)
      ensures healthy ==> ok
      ensures history == old(history) + [Now()]
    {
      ok := Luck(healthy);
      if ok { root := Put(root, p, Link(target)); }
      history := history + [Now()];
    }

    /** Removing a file, a link or a whole tree; a removal that stops part way
        leaves something else there. */
    method Remove(p: Path) returns (ok: bool)
      requires HasParent(root, p) && Get(root, p).Some?
      modifies this
      ensures ledger == old(ledger)
      ensures ok ==> root == Del(old(root), p)
      ensures !ok ==> OnlyAt(old(root), p, root)
      ensures healthy ==> ok
      ensures |history| == |old(history)| + 2 && history[..|old(history)|] == old(history)
      ensures history[|old(history)|].ledger == ledger && OnlyAt(old(root), p, history[|old(history)|].root)
      ensures history[|old(history)| + 1] == Now()
    {
      ghost var was := root;
      ok := Luck(healthy);
      var left := AnyNode();
      history := history + [World(Put(was, p, left), ledger)];
      if ok { root := Del(root, p); } else { root := Put(root, p, left); }
      history := history + [Now()];
    }

    /** `rename` onto a name that is free: nothing is ever replaced. */
    method Rename(from: Path, to: Path) returns (ok: bool)
      requires HasParent(root, from) && HasParent(root, to)
      requires Get(root, from).Some? && Get(root, to).None?
      modifies this
      ensures ledger == old(ledger)
      ensures root == if ok then Put(Del(old(root), from), to, Get(old(root), from).value) else old(root)
      ensures healthy ==> ok
      ensures history == old(history) + [Now()]
    {
      ok := Luck(healthy);
      if ok { root := Put(Del(root, from), to, Get(root, from).value); }
      history := history + [Now()];
    }

    /** `write_state`: the new ledger is complete before it takes the name. */
    method WriteLedger(packages: Ledger) returns (ok: bool)
      modifies this
      ensures root == old(root)
      ensures ledger == if ok then Recorded(SCHEMA_VERSION, packages) else old(ledger)
      ensures healthy ==> ok
      ensures history == old(history) + [Now()]
    {
      ok := Luck(healthy);
      if ok { ledger := Recorded(SCHEMA_VERSION, packages); }
      history := history + [Now()];
    }

    /** `copy_tree`: the tree at `source`, which is `src` and lies at `rel` in its
        package, is copied to `target`. */
    method CopyTree(rel: Path, target: Path, source: Path, ghost src: Node) returns (r: Result<(), Error>)
      requires Get(root, source) == Some(src)
      requires HasParent(root, target)
      requires !(target <= source) && !(source <= target)
      requires Get(root, target).None? || (IsDir(root, target) && Get(root, target).value.entries == map[])
      modifies this
      decreases src, 0
      ensures ledger == old(ledger)
      ensures OnlyAt(old(root), target, root)
      ensures r.Ok? ==> src.Dir? && Copyable(src, rel) && root == Put(old(root), target, Mutable(src))
      ensures r.Err? && healthy ==> !(src.Dir? && Copyable(src, rel))
      ensures StepsOnlyAt(old(history), history, old(root), old(ledger), target)
    {
      var node := Get(root, source).value;
      if !node.Dir? {
        return Err(InvalidStorePath);
      }
      var mode := node.mode | OWNER_WRITE;
      ghost var root0, book, past := root, ledger, history;
      var ready := EmptyDir(target, mode);
      if !ready { return Err(Io); }
      ghost var built := Dir(mode, map[]);
      var todo := node.entries.Keys;
      while todo != {}
        invariant todo <= node.entries.Keys && ledger == book
        invariant CopiedSoFar(node, todo, mode, rel, built)
        invariant root == Put(root0, target, built)
        invariant StepsOnlyAt(past, history, root0, book, target)
        decreases todo
      {
        var name :| name in todo;
        ghost var before, sofar := root, history;
        InsideCopy(root0, target, built, source, node, name);
        var entry := CopyEntry(rel + [name], target + [name], source + [name], node.entries[name]);
        MergeSteps(past, sofar, history, root0, book, target, built, name, before);
        if entry.Err? {
          NestedSteps(root0, target, built, name, before, root);
          return Err(entry.error);
        }
        GrowCopy(node, todo, mode, rel, built, name);
        PutBelowPut(root0, target, built, [name], Mutable(node.entries[name]));
        built := built.(entries := built.entries[name := Mutable(node.entries[name])]);
        todo := todo - {name};
      }
      assert built.entries == Mutable(node).entries;
      return Ok(());
    }

    /** `create_dir_all` and `make_mutable` on the directory a copy goes to. */
    method EmptyDir(target: Path, mode: Mode) returns (ok: bool)
      requires HasParent(root, target)
      requires Get(root, target).None? || (IsDir(root, target) && Get(root, target).value.entries == map[])
      modifies this
      ensures ledger == old(ledger)
      ensures OnlyAt(old(root), target, root)
      ensures ok ==> root == Put(old(root), target, Dir(mode, map[]))
      ensures healthy ==> ok
      ensures StepsOnlyAt(old(history), history, old(root), old(ledger), target)
    {
      ghost var root0 := root;
      if Get(root, target).None? {
        ok := Mkdir(target, 0x1ED);
        if !ok { return; }
        AfterPutThere(root0, target, Dir(0x1ED, map[]));
        PutBelowPut(root0, target, Dir(0x1ED, map[]), [], Dir(mode, map[]));
        assert target + [] == target;
      }
      ok := SetDirMode(target, mode);
    }

    /** One entry of a directory being copied. */
    method CopyEntry(rel: Path, target: Path, source: Path, ghost child: Node) returns (r: Result<(), Error>)
      requires Get(root, source) == Some(child)
      requires HasParent(root, target) && Get(root, target).None?
      requires !(target <= source) && !(source <= target)
      modifies this
      decreases child, 1
      ensures ledger == old(ledger)
      ensures OnlyAt(old(root), target, root)
      ensures r.Ok? ==> Copyable(child, rel) && root == Put(old(root), target, Mutable(child))
      ensures r.Err? && healthy ==> !Copyable(child, rel)
      ensures StepsOnlyAt(old(history), history, old(root), old(ledger), target)
    {
      match Get(root, source).value {
        case Dir(_, _) =>
          r := CopyTree(rel, target, source, child);
        case File(m, bytes) =>
          var wrote := WriteFile(target, bytes, m, m | OWNER_WRITE);
          r := if wrote then Ok(()) else Err(Io);
        case Link(text) =>
          var safe := SafeSymlinkTarget(Join(rel), text);
          if safe {
            var linked := Symlink(target, text);
            r := if linked then Ok(()) else Err(Io);
          } else {
            r := Err(InvalidStorePath);
          }
        case Special =>
          r := Err(InvalidStorePath);
      }
    }
  }

  /** The part of `node` outside `todo` has been copied into `built`. */
  ghost predicate CopiedSoFar(node: Node, todo: set<string>, mode: Mode, rel: Path, built: Node)
  {
    node.Dir? && built.Dir? && built.mode == mode
    && built.entries == (map k | k in node.entries.Keys - todo :: Mutable(node.entries[k]))
    && forall k :: k in node.entries && k !in todo ==> Copyable(node.entries[k], rel + [k])
  }

  lemma GrowCopy(node: Node, todo: set<string>, mode: Mode, rel: Path, built: Node, name: string)
    requires CopiedSoFar(node, todo, mode, rel, built) && todo <= node.entries.Keys && name in todo
    requires Copyable(node.entries[name], rel + [name])
    ensures var more := built.(entries := built.entries[name := Mutable(node.entries[name])]);
      CopiedSoFar(node, todo - {name}, mode, rel, more)
      && Put(built, [name], Mutable(node.entries[name])) == more
  {
    var more := built.(entries := built.entries[name := Mutable(node.entries[name])]);
    assert more.entries == map k | k in node.entries.Keys - (todo - {name}) :: Mutable(node.entries[k]);
  }

  /** Steps inside one entry, after steps inside the copy, are steps inside the copy. */
  lemma MergeSteps(past: seq<World>, sofar: seq<World>, h: seq<World>, root: Node, book: LedgerFile,
                   target: Path, built: Node, name: string, before: Node)
    requires HasParent(root, target) && before == Put(root, target, built)
    requires StepsOnlyAt(past, sofar, root, book, target)
    requires StepsOnlyAt(sofar, h, before, book, target + [name])
    ensures StepsOnlyAt(past, h, root, book, target)
  {
    assert h[..|past|] == h[..|sofar|][..|past|];
    forall i | |past| <= i < |h| ensures h[i].ledger == book && OnlyAt(root, target, h[i].root) {
      if i < |sofar| {
        assert h[i] == h[..|sofar|][i];
      } else {
        NestedSteps(root, target, built, name, before, h[i].root);
      }
    }
  }

  lemma AfterPutThere(root: Node, p: Path, n: Node)
    requires HasParent(root, p)
    ensures Get(Put(root, p, n), p) == Some(n)
    ensures HasParent(Put(root, p, n), p)
  {
    GetPut(root, p, n, p);
    assert p[|p|..] == [];
    GetPut(root, p, n, p[..|p| - 1]);
  }

  /** The tree just written at `p` is there, and another place is as it was. */
  lemma AfterPut(root: Node, p: Path, n: Node, q: Path)
    requires HasParent(root, p) && !(p <= q) && !(q <= p)
    ensures Get(Put(root, p, n), p) == Some(n)
    ensures Get(Put(root, p, n), q) == Get(root, q)
    ensures HasParent(Put(root, p, n), p)
  {
    AfterPutThere(root, p, n);
    GetPut(root, p, n, q);
  }

  /** Before one entry is copied: its original is still there, its place is free. */
  lemma InsideCopy(root: Node, target: Path, built: Node, source: Path, node: Node, name: string)
    requires HasParent(root, target) && !(target <= source) && !(source <= target)
    requires Get(root, source) == Some(node) && node.Dir? && name in node.entries
    requires built.Dir? && name !in built.entries
    ensures var now := Put(root, target, built);
      Get(now, source + [name]) == Some(node.entries[name])
      && HasParent(now, target + [name]) && Get(now, target + [name]).None?
      && !(target + [name] <= source + [name]) && !(source + [name] <= target + [name])
  {
    var now := Put(root, target, built);
    AfterPut(root, target, built, source);
    GetAppend(now, source, [name]);
    GetAppend(now, target, [name]);
    assert (target + [name])[..|target + [name]| - 1] == target;
    if target + [name] <= source + [name] { PrefixOfAppend(target, source, name); }
    if source + [name] <= target + [name] { PrefixOfAppend(source, target, name); }
  }

  lemma PrefixOfAppend(p: Path, q: Path, name: string)
    requires p + [name] <= q + [name]
    ensures p <= q
  {
    assert p == (p + [name])[..|p|] == (q + [name])[..|p|] == q[..|p|];
  }

  /** A step that writes only at one entry of the new tree writes only in it. */
  lemma NestedSteps(root: Node, target: Path, built: Node, name: string, before: Node, now: Node)
    requires HasParent(root, target) && before == Put(root, target, built)
    requires OnlyAt(before, target + [name], now)
    ensures OnlyAt(root, target, now)
  {
    if now != before {
      var n :| now == Put(before, target + [name], n);
      PutBelowPut(root, target, built, [name], n);
    }
  }
}
