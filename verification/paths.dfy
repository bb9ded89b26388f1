/** Directory entries, the path of a directory, and walking a path. */
module Paths {
  import opened Common
  import opened Sv39

  const SLASH: Byte := 0x2f
  const DOT: Byte := 0x2e

  type Name = seq<Byte>

  /** Directories by number, 0 the root; other entries are plain files. */
  datatype DEntry = DirEntry(id: nat) | BytesEntry
  datatype Dir = Dir(parent: Option<nat>, name: Name)
  datatype Tree = Tree(dirs: seq<Dir>, children: map<(nat, Name), DEntry>)

  predicate GoodName(n: Name) { n != [] && SLASH !in n && n != [DOT] && n != [DOT, DOT] }

  ghost predicate Linked(t: Tree, d: nat)
    requires d < |t.dirs|
  {
    if d == 0 then t.dirs[0].parent.None? else
      && t.dirs[d].parent.Some? && t.dirs[d].parent.value < d && GoodName(t.dirs[d].name)
      && (t.dirs[d].parent.value, t.dirs[d].name) in t.children
      && t.children[(t.dirs[d].parent.value, t.dirs[d].name)] == DirEntry(d)
  }

  /** Every directory but the root is its parent's child under its own name, and came after its
      parent; every directory among the children knows its parent and name. */
  ghost predicate Wf(t: Tree) {
    && |t.dirs| > 0 && (forall d: nat | d < |t.dirs| :: Linked(t, d))
    && (forall k | k in t.children && t.children[k].DirEntry? ::
          var id := t.children[k].id; id < |t.dirs| && t.dirs[id] == Dir(Some(k.0), k.1))
    && (forall k | k in t.children :: k.0 < |t.dirs|)
  }

  /** The names from the root down to a directory. */
  function Names(t: Tree, d: nat): seq<Name>
    requires d < |t.dirs|
    decreases d
  {
    if t.dirs[d].parent.Some? && t.dirs[d].parent.value < d then Names(t, t.dirs[d].parent.value) + [t.dirs[d].name] else []
  }

  /** Names with a slash between them. */
  function Join(names: seq<Name>): Name {
    if names == [] then [] else if |names| == 1 then names[0]
    else Join(names[..|names| - 1]) + [SLASH] + names[|names| - 1]
  }

  function PathOf(t: Tree, d: nat): Name
    requires d < |t.dirs|
  {
    [SLASH] + Join(Names(t, d))
  }

  /** The pieces of a path between slashes, without empty ones; `part` is the piece under way. */
  function Components(path: Name, part: Name): seq<Name> {
    if path == [] then (if part == [] then [] else [part])
    else if path[0] == SLASH then (if part == [] then [] else [part]) + Components(path[1..], [])
    else Components(path[1..], part + [path[0]])
  }

  lemma {:induction false} PlainPart(name: Name, rest: Name, part: Name)
    requires SLASH !in name
    ensures Components(name + rest, part) == Components(rest, part + name)
  {
    if name == [] {
      assert name + rest == rest && part + name == part;
    } else {
      assert (name + rest)[1..] == name[1..] + rest;
      assert part + [name[0]] + name[1..] == part + name;
      PlainPart(name[1..], rest, part + [name[0]]);
    }
  }

  lemma OnePart(name: Name, rest: Name)
    requires GoodName(name) && (rest == [] || rest[0] == SLASH)
    ensures Components(name + rest, []) == [name] + Components(rest, [])
    ensures Components([SLASH] + name + rest, []) == Components(name + rest, [])
  {
    PlainPart(name, rest, []);
    assert [] + name == name;
    assert ([SLASH] + name + rest)[1..] == name + rest;
  }

  lemma {:induction false} JoinedComponents(names: seq<Name>, rest: Name)
    requires forall i | 0 <= i < |names| :: GoodName(names[i])
    requires names != [] && (rest == [] || rest[0] == SLASH)
    ensures Components(Join(names) + rest, []) == names + Components(rest, [])
    decreases |names|
  {
    hide Components, Join;
    var n := |names| - 1;
    OnePart(names[n], rest);
    JoinTail(names, rest);
    LastApart(names, Components(rest, []));
    if n > 0 { JoinedComponents(names[..n], [SLASH] + names[n] + rest); }
  }

  lemma LastApart(names: seq<Name>, more: seq<Name>)
    requires names != []
    ensures var n := |names| - 1; names + more == names[..n] + ([names[n]] + more) && (n == 0 ==> names + more == [names[n]] + more)
  {
  }

  lemma JoinTail(names: seq<Name>, rest: Name)
    requires names != []
    ensures var n := |names| - 1;
            Join(names) + rest == if n > 0 then Join(names[..n]) + ([SLASH] + names[n] + rest) else names[0] + rest
  {
  }

  /** A printed path splits into the names it was made of. */
  lemma PathComponents(t: Tree, d: nat)
    requires Wf(t) && d < |t.dirs|
    ensures Components(PathOf(t, d), []) == Names(t, d)
  {
    NamesGood(t, d);
    var names := Names(t, d);
    assert PathOf(t, d)[1..] == Join(names);
    if names != [] {
      JoinedComponents(names, []);
      assert Join(names) + [] == Join(names);
    }
  }

  lemma {:induction false} NamesGood(t: Tree, d: nat)
    requires Wf(t) && d < |t.dirs|
    ensures forall i | 0 <= i < |Names(t, d)| :: GoodName(Names(t, d)[i])
    ensures d == 0 <==> Names(t, d) == []
    decreases d
  {
    assert Linked(t, d);
    if d > 0 { NamesGood(t, t.dirs[d].parent.value); }
  }

  // ------------------------------------------------------------------- walking

  /** Where a component leads from a directory, as far as the entries are known. */
  function Step(t: Tree, d: nat, c: Name): Option<DEntry>
    requires d < |t.dirs|
  {
    if c == [DOT] then Some(DirEntry(d))
    else if c == [DOT, DOT] then Some(DirEntry(if t.dirs[d].parent.Some? then t.dirs[d].parent.value else d))
    else if (d, c) in t.children then Some(t.children[(d, c)]) else None
  }

  /** The directory a list of components leads to. */
  ghost function Resolve(t: Tree, d: nat, cs: seq<Name>): Option<nat>
    decreases |cs|
  {
    if d >= |t.dirs| then None
    else if cs == [] then Some(d)
    else
      var e := Step(t, d, cs[0]);
      if e.Some? && e.value.DirEntry? then Resolve(t, e.value.id, cs[1..]) else None
  }

  lemma {:induction false} ResolveSnoc(t: Tree, d: nat, cs: seq<Name>, c: Name)
    requires Wf(t) && Resolve(t, d, cs).Some?
    ensures var e := Resolve(t, d, cs).value;
            e < |t.dirs| && Resolve(t, d, cs + [c]) ==
              (var s := Step(t, e, c); if s.Some? && s.value.DirEntry? && s.value.id < |t.dirs| then Some(s.value.id) else None)
    decreases |cs|
  {
    if cs != [] {
      assert (cs + [c])[1..] == cs[1..] + [c];
      ResolveSnoc(t, Step(t, d, cs[0]).value.id, cs[1..], c);
    }
  }

  /** The names of a directory lead from the root to it. */
  lemma {:induction false} NamesResolve(t: Tree, d: nat)
    requires Wf(t) && d < |t.dirs|
    ensures Resolve(t, 0, Names(t, d)) == Some(d)
    decreases d
  {
    assert Linked(t, d);
    if d > 0 {
      var p := t.dirs[d].parent.value;
      NamesResolve(t, p);
      ResolveSnoc(t, 0, Names(t, p), t.dirs[d].name);
    }
  }

  datatype LastType = Normal | Dot | DotDot | Root
  datatype Walk = Reached(dir: nat, lastType: LastType, last: Name) | NotDir | NoEntry

  /** What is known only grows: old directories and children stay. */
  ghost predicate Grows(t: Tree, t': Tree) {
    && |t.dirs| <= |t'.dirs| && t'.dirs[..|t.dirs|] == t.dirs
    && forall k | k in t.children :: k in t'.children && t'.children[k] == t.children[k]
  }

  lemma StepGrows(t: Tree, t': Tree, d: nat, c: Name)
    requires Grows(t, t') && d < |t.dirs| && Step(t, d, c).Some?
    ensures Step(t', d, c) == Step(t, d, c)
  {
    assert t'.dirs[..|t.dirs|][d] == t.dirs[d];
  }

  lemma {:induction false} ResolveGrows(t: Tree, t': Tree, d: nat, cs: seq<Name>)
    requires Grows(t, t') && Resolve(t, d, cs).Some?
    ensures Resolve(t', d, cs) == Resolve(t, d, cs)
    decreases |cs|
  {
    if cs != [] {
      StepGrows(t, t', d, cs[0]);
      ResolveGrows(t, t', Step(t, d, cs[0]).value.id, cs[1..]);
    }
  }

  lemma AddDir(t: Tree, d: nat, c: Name)
    requires Wf(t) && d < |t.dirs| && GoodName(c) && (d, c) !in t.children
    ensures Wf(Tree(t.dirs + [Dir(Some(d), c)], t.children[(d, c) := DirEntry(|t.dirs|)]))
    ensures Grows(t, Tree(t.dirs + [Dir(Some(d), c)], t.children[(d, c) := DirEntry(|t.dirs|)]))
  {
    var t' := Tree(t.dirs + [Dir(Some(d), c)], t.children[(d, c) := DirEntry(|t.dirs|)]);
    forall e: nat | e < |t'.dirs| ensures Linked(t', e) { if e < |t.dirs| { assert Linked(t, e); } }
  }

  lemma AddBytes(t: Tree, d: nat, c: Name)
    requires Wf(t) && d < |t.dirs| && (d, c) !in t.children
    ensures Wf(t.(children := t.children[(d, c) := BytesEntry])) && Grows(t, t.(children := t.children[(d, c) := BytesEntry]))
  {
    var t' := t.(children := t.children[(d, c) := BytesEntry]);
    forall e: nat | e < |t'.dirs| ensures Linked(t', e) { assert Linked(t, e); }
  }

  /** The walk of `cs` meets a file as its `i`-th component. */
  ghost predicate FileAt(t: Tree, start: nat, cs: seq<Name>, i: nat) {
    && i < |cs| && Resolve(t, start, cs[..i]).Some? && Resolve(t, start, cs[..i]).value < |t.dirs|
    && Step(t, Resolve(t, start, cs[..i]).value, cs[i]) == Some(BytesEntry)
  }

  /** The walk of `cs` finds no `i`-th component, and the inode has none. */
  ghost predicate MissingAt(t: Tree, back: Backend, start: nat, cs: seq<Name>, i: nat) {
    && i < |cs| && Resolve(t, start, cs[..i]).Some? && Resolve(t, start, cs[..i]).value < |t.dirs|
    && Step(t, Resolve(t, start, cs[..i]).value, cs[i]).None? && back(Resolve(t, start, cs[..i]).value, cs[i]).None?
  }

  ghost predicate MeetsFile(t: Tree, start: nat, cs: seq<Name>) {
    exists i :: FileAt(t, start, cs, i)
  }

  ghost predicate MeetsNothing(t: Tree, back: Backend, start: nat, cs: seq<Name>) {
    exists i :: MissingAt(t, back, start, cs, i)
  }

  /** No component behind one that is not a directory is ever looked up. */
  lemma BlockedThere(t: Tree, start: nat, cs: seq<Name>, i: nat, j: nat)
    requires Wf(t) && i < j <= |cs| && Resolve(t, start, cs[..i]).Some? && Resolve(t, start, cs[..i]).value < |t.dirs|
    requires var e := Step(t, Resolve(t, start, cs[..i]).value, cs[i]); e.None? || e.value.BytesEntry?
    ensures Resolve(t, start, cs[..j]).None?
  {
    ResolveSnoc(t, start, cs[..i], cs[i]);
    assert cs[..i + 1] == cs[..i] + [cs[i]] && cs[..j][..i + 1] == cs[..i + 1];
    Prefixes(t, start, cs[..j], i + 1);
  }

  /** A walk is stopped by a file or by a missing name, not by both. */
  lemma BlockedOnce(t: Tree, back: Backend, start: nat, cs: seq<Name>)
    requires Wf(t) && MeetsFile(t, start, cs)
    ensures !MeetsNothing(t, back, start, cs)
  {
    var i: nat :| FileAt(t, start, cs, i);
    forall j: nat ensures !MissingAt(t, back, start, cs, j) {
      if i < j <= |cs| { BlockedThere(t, start, cs, i, j); }
      if j < i && MissingAt(t, back, start, cs, j) { BlockedThere(t, start, cs, j, i); }
    }
  }

  /** What the inodes hold: `Some(true)` a directory, `Some(false)` a file. */
  type Backend = (nat, Name) -> Option<bool>

  class DEntries {
    var tree: Tree

    constructor (tree: Tree)
      ensures this.tree == tree
    {
      this.tree := tree;
    }

    /** Look a component up: the directory itself, its parent, a known child, or a child the inode
        knows, which is then remembered. */
    method Lookup(back: Backend, d: nat, c: Name) returns (r: Option<DEntry>)
      requires Wf(tree) && d < |tree.dirs| && c != [] && SLASH !in c
      modifies this
      ensures Wf(tree) && Grows(old(tree), tree) && r == Step(tree, d, c)
      ensures Step(old(tree), d, c).Some? ==> tree == old(tree)
      ensures r.None? <==> Step(old(tree), d, c).None? && back(d, c).None?
      ensures r.Some? && r.value.DirEntry? ==> r.value.id < |tree.dirs|
    {
      assert Linked(tree, d);
      if c == [DOT] {
        return Some(DirEntry(d));
      }
      if c == [DOT, DOT] {
        return Some(DirEntry(if tree.dirs[d].parent.Some? then tree.dirs[d].parent.value else d));
      }
      if (d, c) in tree.children {
        return Some(tree.children[(d, c)]);
      }
      match back(d, c)
      case None =>
        r := None;
      case Some(isDir) =>
        if isDir {
          AddDir(tree, d, c);
          tree := Tree(tree.dirs + [Dir(Some(d), c)], tree.children[(d, c) := DirEntry(|tree.dirs|)]);
        } else {
          AddBytes(tree, d, c);
          tree := tree.(children := tree.children[(d, c) := BytesEntry]);
        }
        r := Some(tree.children[(d, c)]);
    }

    /** Walk all but the last component. The walk fails with ENOTDIR where it meets a file and with ENOENT where it
        meets nothing; `BlockedOnce` says that it cannot meet both. */
    method PathWalk(back: Backend, start: nat, path: Name) returns (r: Walk)
      requires Wf(tree) && start < |tree.dirs|
      modifies this
      ensures Wf(tree) && Grows(old(tree), tree)
      ensures var cs := Components(path, []);
              match r
              case Reached(dir, ty, last) =>
                if cs == [] then dir == start && ty == Root && last == [DOT]
                else
                  && Resolve(tree, start, cs[..|cs| - 1]) == Some(dir) && last == cs[|cs| - 1]
                  && ty == (if last == [DOT] then Dot else if last == [DOT, DOT] then DotDot else Normal)
              case NotDir => cs != [] && MeetsFile(tree, start, cs[..|cs| - 1])
              case NoEntry => cs != [] && MeetsNothing(tree, back, start, cs[..|cs| - 1])
      ensures var cs := Components(path, []);
              cs != [] && Resolve(old(tree), start, cs[..|cs| - 1]).Some? ==> r.Reached? && tree == old(tree)
    {
      var cs := Components(path, []);
      ComponentsGood(path, []);
      if cs == [] {
        return Reached(start, Root, [DOT]);
      }
      r := WalkAll(back, start, cs[..|cs| - 1]);
      if r.Reached? {
        var last := cs[|cs| - 1];
        r := Reached(r.dir, if last == [DOT] then Dot else if last == [DOT, DOT] then DotDot else Normal, last);
      }
    }

    method WalkAll(back: Backend, start: nat, cs: seq<Name>) returns (r: Walk)
      requires Wf(tree) && start < |tree.dirs| && forall i | 0 <= i < |cs| :: cs[i] != [] && SLASH !in cs[i]
      modifies this
      ensures Wf(tree) && Grows(old(tree), tree)
      ensures r.Reached? <==> Resolve(tree, start, cs).Some?
      ensures r.Reached? ==> Resolve(tree, start, cs) == Some(r.dir)
      ensures r.NotDir? ==> MeetsFile(tree, start, cs)
      ensures r.NoEntry? ==> MeetsNothing(tree, back, start, cs)
      ensures Resolve(old(tree), start, cs).Some? ==> r.Reached? && tree == old(tree)
    {
      var dir, i := start, 0;
      while i < |cs|
        invariant 0 <= i <= |cs| && Wf(tree) && Grows(old(tree), tree)
        invariant Resolve(tree, start, cs[..i]) == Some(dir)
        invariant Resolve(old(tree), start, cs).Some? ==> tree == old(tree)
      {
        ghost var t := tree;
        ResolveSnoc(t, start, cs[..i], cs[i]);
        var e := Lookup(back, dir, cs[i]);
        ResolveGrows(t, tree, start, cs[..i]);
        ResolveSnoc(tree, start, cs[..i], cs[i]);
        assert cs[..i + 1] == cs[..i] + [cs[i]];
        Prefixes(t, start, cs, i + 1);
        Prefixes(tree, start, cs, i + 1);
        if e.None? {
          assert MissingAt(tree, back, start, cs, i);
          return NoEntry;
        }
        if e.value.BytesEntry? {
          assert FileAt(tree, start, cs, i);
          return NotDir;
        }
        dir := e.value.id;
        i := i + 1;
      }
      assert cs[..i] == cs;
      r := Reached(dir, Normal, []);
    }
  }

  lemma {:induction false} Prefixes(t: Tree, d: nat, cs: seq<Name>, i: nat)
    requires i <= |cs|
    ensures Resolve(t, d, cs).Some? ==> Resolve(t, d, cs[..i]).Some?
    decreases |cs|
  {
    if i > 0 && d < |t.dirs| {
      var e := Step(t, d, cs[0]);
      if e.Some? && e.value.DirEntry? {
        assert cs[..i][1..] == cs[1..][..i - 1];
        Prefixes(t, e.value.id, cs[1..], i - 1);
      }
    }
  }

  lemma {:induction false} ComponentsGood(path: Name, part: Name)
    requires SLASH !in part
    ensures forall i | 0 <= i < |Components(path, part)| :: Components(path, part)[i] != [] && SLASH !in Components(path, part)[i]
    decreases |path|
  {
    if path != [] {
      if path[0] == SLASH { ComponentsGood(path[1..], []); } else { ComponentsGood(path[1..], part + [path[0]]); }
    }
  }

  /** Printing and walking undo each other: walking the path of a directory from the root and looking
      up the last component gives that directory back; the root's path has no component, and leads to the root. */
  lemma PathWalksBack(t: Tree, d: nat)
    requires Wf(t) && d < |t.dirs|
    ensures var cs := Components(PathOf(t, d), []);
            if d == 0 then cs == [] && Step(t, 0, [DOT]) == Some(DirEntry(0)) else
            && cs != [] && t.dirs[d].parent.Some?
            && Resolve(t, 0, cs[..|cs| - 1]) == t.dirs[d].parent
            && t.dirs[d].parent.value < |t.dirs| && Step(t, t.dirs[d].parent.value, cs[|cs| - 1]) == Some(DirEntry(d))
  {
    PathComponents(t, d);
    NamesGood(t, d);
    assert Linked(t, d);
    if d > 0 {
      var p := t.dirs[d].parent.value;
      NamesResolve(t, p);
      assert Names(t, d)[..|Names(t, d)| - 1] == Names(t, p);
    }
  }

  // ------------------------------------------------------------------ printing

  /** The directories from `d` up to, but without, the root. */
  ghost function Climb(t: Tree, d: nat): seq<nat>
    requires d < |t.dirs|
    decreases d
  {
    if t.dirs[d].parent.Some? && t.dirs[d].parent.value < d then [d] + Climb(t, t.dirs[d].parent.value) else []
  }

  ghost predicate Climbed(t: Tree, d: nat, seen: seq<nat>, at: nat) {
    && d < |t.dirs| && at < |t.dirs| && Climb(t, d) == seen + Climb(t, at)
    && forall i | 0 <= i < |seen| :: seen[i] < |t.dirs|
  }

  lemma ClimbStarts(t: Tree, d: nat)
    requires d < |t.dirs|
    ensures Climbed(t, d, [], d)
  {
  }

  lemma ClimbOn(t: Tree, d: nat, seen: seq<nat>, at: nat)
    requires Wf(t) && Climbed(t, d, seen, at) && t.dirs[at].parent.Some?
    ensures t.dirs[at].parent.value < at && Climbed(t, d, seen + [at], t.dirs[at].parent.value)
  {
    assert Linked(t, at);
    assert seen + Climb(t, at) == seen + [at] + Climb(t, t.dirs[at].parent.value);
  }

  lemma ClimbEnds(t: Tree, d: nat, seen: seq<nat>, at: nat)
    requires Climbed(t, d, seen, at) && t.dirs[at].parent.None?
    ensures seen == Climb(t, d) && forall i | 0 <= i < |seen| :: seen[i] < |t.dirs|
  {
    assert seen + [] == seen;
  }

  method ClimbUp(t: Tree, d: nat) returns (seen: seq<nat>)
    requires Wf(t) && d < |t.dirs|
    ensures seen == Climb(t, d) && forall i | 0 <= i < |seen| :: seen[i] < |t.dirs|
  {
    seen := [];
    var at := d;
    ClimbStarts(t, d);
    while t.dirs[at].parent.Some?
      invariant Climbed(t, d, seen, at)
      decreases at
    {
      ClimbOn(t, d, seen, at);
      seen := seen + [at];
      at := t.dirs[at].parent.value;
    }
    ClimbEnds(t, d, seen, at);
  }

  /** The names along the way, in order from the root. */
  function NamesAlong(t: Tree, seen: seq<nat>): (r: seq<Name>)
    requires forall i | 0 <= i < |seen| :: seen[i] < |t.dirs|
    ensures |r| == |seen|
  {
    if seen == [] then [] else NamesAlong(t, seen[1..]) + [t.dirs[seen[0]].name]
  }

  lemma {:induction false} ClimbNames(t: Tree, d: nat)
    requires d < |t.dirs|
    ensures (forall i | 0 <= i < |Climb(t, d)| :: Climb(t, d)[i] < |t.dirs|) && NamesAlong(t, Climb(t, d)) == Names(t, d)
    decreases d
  {
    if t.dirs[d].parent.Some? && t.dirs[d].parent.value < d {
      ClimbNames(t, t.dirs[d].parent.value);
      assert Climb(t, d)[1..] == Climb(t, t.dirs[d].parent.value);
    }
  }

  lemma {:induction false} NamesAlongAt(t: Tree, seen: seq<nat>, i: nat)
    requires (forall i | 0 <= i < |seen| :: seen[i] < |t.dirs|) && i < |seen|
    ensures |NamesAlong(t, seen)| == |seen| && NamesAlong(t, seen)[i] == t.dirs[seen[|seen| - 1 - i]].name
  {
    if |seen| > 1 {
      NamesAlongAt(t, seen[1..], if i < |seen| - 1 then i else 0);
    }
  }

  lemma JoinStep(names: seq<Name>, i: nat)
    requires i < |names|
    ensures Join(names[..i + 1]) == if i == 0 then names[0] else Join(names[..i]) + [SLASH] + names[i]
  {
    assert names[..i + 1][..i] == names[..i];
  }

  /** The path of a directory: climb to the root, then print the names on the way back. */
  method Path(t: Tree, d: nat) returns (path: Name)
    requires Wf(t) && d < |t.dirs|
    ensures path == PathOf(t, d)
  {
    var seen := ClimbUp(t, d);
    ClimbNames(t, d);
    ghost var names := Names(t, d);
    path := [SLASH];
    var i := |seen|;
    SoFarEnds(names);
    hide SoFar, Names, Climb;
    while i > 0
      invariant 0 <= i <= |seen| && |names| == |seen| && path == SoFar(names, |seen| - i)
    {
      i := i - 1;
      NamesAlongAt(t, seen, |seen| - 1 - i);
      SoFarAdds(names, |seen| - 1 - i);
      if i < |seen| - 1 {
        path := path + [SLASH];
      }
      path := path + t.dirs[seen[i]].name;
    }
  }

  /** The path as far as its first `n` names. */
  ghost function SoFar(names: seq<Name>, n: nat): Name
    requires n <= |names|
  {
    [SLASH] + Join(names[..n])
  }

  lemma SoFarEnds(names: seq<Name>)
    ensures SoFar(names, 0) == [SLASH] && SoFar(names, |names|) == [SLASH] + Join(names)
  {
    assert names[..|names|] == names;
  }

  lemma SoFarAdds(names: seq<Name>, n: nat)
    requires n < |names|
    ensures SoFar(names, n + 1) == (if n > 0 then SoFar(names, n) + [SLASH] else SoFar(names, n)) + names[n]
  {
    JoinAdds(names, n);
  }

  function NamesLen(t: Tree, seen: seq<nat>): nat
    requires forall i | 0 <= i < |seen| :: seen[i] < |t.dirs|
  {
    if seen == [] then 0 else |t.dirs[seen[0]].name| + NamesLen(t, seen[1..])
  }

  /** A joined path is as long as its names and the slashes between them. */
  lemma {:induction false} JoinedLen(t: Tree, seen: seq<nat>)
    requires forall i | 0 <= i < |seen| :: seen[i] < |t.dirs|
    ensures |Join(NamesAlong(t, seen))| == NamesLen(t, seen) + if |seen| > 1 then |seen| - 1 else 0
  {
    if seen != [] {
      var names := NamesAlong(t, seen);
      assert names[..|names| - 1] == NamesAlong(t, seen[1..]);
      JoinedLen(t, seen[1..]);
    }
  }

  lemma {:induction false} NamesLenSnoc(t: Tree, seen: seq<nat>, d: nat)
    requires (forall i | 0 <= i < |seen| :: seen[i] < |t.dirs|) && d < |t.dirs|
    ensures NamesLen(t, seen + [d]) == NamesLen(t, seen) + |t.dirs[d].name|
  {
    if seen != [] {
      assert (seen + [d])[1..] == seen[1..] + [d];
      NamesLenSnoc(t, seen[1..], d);
    }
  }

  /** Climb to the root and add up what the path will take, with its slash and its closing zero. */
  method PathLen(t: Tree, d: nat) returns (len: nat, seen: seq<nat>)
    requires Wf(t) && d < |t.dirs|
    ensures len == |PathOf(t, d)| + 1 && seen == Climb(t, d) && forall i | 0 <= i < |seen| :: seen[i] < |t.dirs|
  {
    len := 2;
    seen := [];
    var at := d;
    ClimbStarts(t, d);
    while t.dirs[at].parent.Some?
      invariant Climbed(t, d, seen, at) && len == 2 + NamesLen(t, seen)
      decreases at
    {
      ClimbOn(t, d, seen, at);
      NamesLenSnoc(t, seen, at);
      len := len + |t.dirs[at].name|;
      seen := seen + [at];
      at := t.dirs[at].parent.value;
    }
    ClimbEnds(t, d, seen, at);
    len := len + if |seen| > 0 then |seen| - 1 else 0;
    PathLenIs(t, d);
  }

  lemma PathLenIs(t: Tree, d: nat)
    requires d < |t.dirs|
    ensures (forall i | 0 <= i < |Climb(t, d)| :: Climb(t, d)[i] < |t.dirs|)
    ensures |PathOf(t, d)| == 1 + NamesLen(t, Climb(t, d)) + if |Climb(t, d)| > 1 then |Climb(t, d)| - 1 else 0
  {
    ClimbNames(t, d);
    JoinedLen(t, Climb(t, d));
  }

  /** The working directory into a buffer: refused exactly when the path and its zero do not fit. */
  method Getcwd(t: Tree, d: nat, buf: array<Byte>) returns (ok: bool)
    requires Wf(t) && d < |t.dirs|
    modifies buf
    ensures ok <==> |PathOf(t, d)| + 1 <= buf.Length
    ensures ok ==> buf[..|PathOf(t, d)| + 1] == PathOf(t, d) + [0] && buf[|PathOf(t, d)| + 1..] == old(buf[|PathOf(t, d)| + 1..])
    ensures !ok ==> buf[..] == old(buf[..])
  {
    var len, seen := PathLen(t, d);
    if len > buf.Length {
      return false;
    }
    ClimbNames(t, d);
    ghost var names := Names(t, d);
    buf[0] := SLASH;
    PrintedNone(buf, names, old(buf[..]));
    var curr := PrintNames(buf, t, seen, names, old(buf[..]));
    assert names[..|names|] == names;
    buf[curr] := 0;
    ok := true;
  }

  /** Print the names from the root down, a slash between them. */
  method PrintNames(buf: array<Byte>, t: Tree, seen: seq<nat>, ghost names: seq<Name>, ghost before: seq<Byte>) returns (curr: nat)
    requires (forall i | 0 <= i < |seen| :: seen[i] < |t.dirs|) && names == NamesAlong(t, seen)
    requires Printed(buf, names, 0, before) && 1 + |Join(names)| <= buf.Length && Join(names[..0]) == []
    modifies buf
    ensures Printed(buf, names, |names|, before) && curr == 1 + |Join(names[..|names|])|
  {
    hide Join, Printed;
    curr := 1;
    var i := |seen|;
    while i > 0
      invariant 0 <= i <= |seen| && curr == 1 + |Join(names[..|seen| - i])| && Printed(buf, names, |seen| - i, before)
    {
      i := i - 1;
      NamesAlongAt(t, seen, |seen| - 1 - i);
      JoinShorter(names, |seen| - i);
      curr := PrintName(buf, curr, t.dirs[seen[i]].name, i < |seen| - 1, names, |seen| - 1 - i, before);
    }
  }

  /** The path so far is in the buffer, the rest of the buffer is as it was. */
  ghost predicate Printed(buf: array<Byte>, names: seq<Name>, k: nat, before: seq<Byte>)
    reads buf
  {
    k <= |names| && |before| == buf.Length && PrintedTo(buf[..], [SLASH] + Join(names[..k]), before)
  }

  ghost predicate PrintedTo(buf: seq<Byte>, xs: seq<Byte>, before: seq<Byte>) {
    |xs| <= |buf| == |before| && buf == xs + before[|xs|..]
  }

  lemma PrintedNone(buf: array<Byte>, names: seq<Name>, before: seq<Byte>)
    requires buf.Length > 0 && |before| == buf.Length && buf[..] == before[0 := SLASH]
    ensures Printed(buf, names, 0, before) && Join(names[..0]) == []
  {
    assert [SLASH] + Join(names[..0]) == [SLASH];
  }

  lemma PrintMore(buf: seq<Byte>, xs: seq<Byte>, before: seq<Byte>, ys: seq<Byte>)
    requires PrintedTo(buf, xs, before) && |xs| + |ys| <= |buf|
    ensures PrintedTo(buf[..|xs|] + ys + buf[|xs| + |ys|..], xs + ys, before)
  {
    assert buf[|xs| + |ys|..] == before[|xs| + |ys|..];
  }

  /** What the next name adds to the path. */
  lemma JoinAdds(names: seq<Name>, k: nat)
    requires k < |names|
    ensures [SLASH] + Join(names[..k]) + (if k > 0 then [SLASH] + names[k] else names[k]) == [SLASH] + Join(names[..k + 1])
  {
    JoinStep(names, k);
    assert names[..0] == [];
  }

  method PrintName(buf: array<Byte>, at: nat, name: Name, slash: bool, ghost names: seq<Name>, ghost k: nat, ghost before: seq<Byte>)
    returns (next: nat)
    requires k < |names| && names[k] == name && slash == (k > 0) && at == 1 + |Join(names[..k])|
    requires Printed(buf, names, k, before) && 1 + |Join(names[..k + 1])| <= buf.Length
    modifies buf
    ensures next == 1 + |Join(names[..k + 1])| && Printed(buf, names, k + 1, before)
  {
    JoinAdds(names, k);
    hide Join;
    var ys := if slash then [SLASH] + name else name;
    PrintMore(buf[..], [SLASH] + Join(names[..k]), before, ys);
    next := PrintBoth(buf, at, name, slash);
  }

  method PrintBoth(buf: array<Byte>, at: nat, name: Name, slash: bool) returns (next: nat)
    requires at + |name| + (if slash then 1 else 0) <= buf.Length
    modifies buf
    ensures var ys := if slash then [SLASH] + name else name;
            next == at + |ys| && buf[..] == old(buf[..at]) + ys + old(buf[at + |ys|..])
  {
    next := at;
    if slash {
      next := PrintAt(buf, next, [SLASH]);
    }
    next := PrintAt(buf, next, name);
  }

  lemma {:induction false} JoinShorter(names: seq<Name>, k: nat)
    requires k <= |names|
    ensures |Join(names[..k])| <= |Join(names)|
    decreases |names|
  {
    var n := |names| - 1;
    if k <= n {
      assert names[..n][..k] == names[..k];
      JoinShorter(names[..n], k);
    } else {
      assert names[..k] == names;
    }
  }

  method PrintAt(buf: array<Byte>, at: nat, xs: Name) returns (next: nat)
    requires at + |xs| <= buf.Length
    modifies buf
    ensures next == at + |xs| && buf[..] == old(buf[..at]) + xs + old(buf[at + |xs|..])
  {
    forall j | at <= j < at + |xs| {
      buf[j] := xs[j - at];
    }
    next := at + |xs|;
  }
}
