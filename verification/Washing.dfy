/** wash_path against the directory tree: the path it makes leads where the path it was given led. */
module Washing {
  import opened Sectors
  import opened DirEntries
  import opened DirSpec
  import opened Paths
  import opened TreeSpec
  import opened Namespace
  import FileSystem

  /** ".." of the directory that proper components lead to is what all but the last of them lead to. */
  lemma FrontLeads(v: Dirs, t: Tree, at: seq<Name>)
    requires Agrees(v, t) && Clean(at) && Find(v, 0, 0, at).FoundDir?
    ensures var d := Find(v, 0, 0, at).ino;
      var x := Find(v, 0, 0, if at == [] then [] else at[..|at| - 1]);
      d in v && x.FoundDir? && x.ino == ParentOf(t, d)
  {
    hide Lookup, Distinguished, AllListed;
    FoundIn(v, 0, 0, at);
    if at != [] {
      var front, last: Name := at[..|at| - 1], at[|at| - 1];
      assert at == front + [last];
      LastFound(v, 0, 0, front, last);
      FindOn(v, 0, 0, front, [last]);
      assert [last][1..] == [];
      HomeOf(v, t, Find(v, 0, 0, front).ino, last);
    }
  }

  /** A proper name in a directory leads home and back. */
  lemma HomeOf(v: Dirs, t: Tree, h: nat, name: Name)
    requires Agrees(v, t) && h in v && Lookup(v[h], name).Something? && !IsDot(name)
    ensures var no := Lookup(v[h], name).entry.ino; no in t.home && ParentOf(t, no) == h
  {
    hide Lookup, Distinguished, AllListed;
    assert DirAgrees(v, t, h);
    var e := Lookup(v[h], name).entry;
    var k :| 0 <= k < |v[h]| && v[h][k] == e;
    assert Placed(t, h, v[h][k]);
  }

  /** What the entries "." and ".." lead to, and that they are no files. */
  lemma DotLeads(v: Dirs, t: Tree, d: nat, c: Name)
    requires Agrees(v, t) && d in v && Lookup(v[d], c).Something?
    ensures var e := Lookup(v[d], c).entry;
      && (c == DOT ==> e.ino == d && e.ftype == FT_DIRECTORY)
      && (c == DOTDOT ==> e.ino == ParentOf(t, d) && e.ftype == FT_DIRECTORY)
  {
    hide Lookup, Distinguished, AllListed;
    assert DirAgrees(v, t, d);
  }

  /** One component: where it leads from the directory that at leads to, the stack leads as well. */
  lemma WalkLeads(v: Dirs, t: Tree, at: seq<Name>, c: Name)
    requires Agrees(v, t) && Clean(at) && Component(c) && Find(v, 0, 0, at).FoundDir?
    ensures var d := Find(v, 0, 0, at).ino; d in v
    ensures var d := Find(v, 0, 0, at).ino; Lookup(v[d], c).Something? ==>
      var e := Lookup(v[d], c).entry; var x := Find(v, 0, 0, Walk(at, c));
      if e.ftype == FT_REGULAR then x == FoundFile(e.ino, d) && !IsDot(c)
      else e.ino in v && x.FoundDir? && x.ino == e.ino
  {
    hide Lookup, Agrees, Clean;
    RootIn(v, t);
    FoundIn(v, 0, 0, at);
    var r := Find(v, 0, 0, at);
    if Lookup(v[r.ino], c).Something? {
      EntryLeads(v, t, r.ino, c);
      DotLeads(v, t, r.ino, c);
      FrontLeads(v, t, at);
      FindOn(v, 0, 0, at, [c]);
      assert [c][1..] == [];
    }
  }

  /** Where the components lead from there on, the resolved components lead from the root: to the same
      directory, or to the same file, if that is what the last of them names. */
  lemma {:induction false} ResolveLeads(v: Dirs, t: Tree, at: seq<Name>, parent: nat, cs: seq<Name>)
    requires Agrees(v, t) && Clean(at) && Find(v, 0, 0, at).FoundDir? && forall i :: 0 <= i < |cs| ==> Component(cs[i])
    ensures var d := Find(v, 0, 0, at).ino; d in v
    ensures var r, x := Find(v, parent, Find(v, 0, 0, at).ino, cs), Find(v, 0, 0, Resolve(at, cs));
      && (r.FoundDir? ==> x.FoundDir? && x.ino == r.ino)
      && (r.FoundFile? && Reach(v, Find(v, 0, 0, at).ino, cs) == |cs| ==> x == r)
    decreases |cs|
  {
    hide Lookup, Agrees, Clean, Component;
    RootIn(v, t);
    FoundIn(v, 0, 0, at);
    if cs != [] {
      var d := Find(v, 0, 0, at).ino;
      WalkLeads(v, t, at, cs[0]);
      if Lookup(v[d], cs[0]).Something? {
        var e := Lookup(v[d], cs[0]).entry;
        if e.ftype != FT_REGULAR {
          WalkClean(at, cs[0]);
          ResolveLeads(v, t, Walk(at, cs[0]), d, cs[1..]);
        } else if |cs| == 1 {
          assert cs[1..] == [];
        }
      }
    }
  }

  lemma WalkClean(at: seq<Name>, c: Name)
    requires Clean(at) && Component(c)
    ensures Clean(Walk(at, c))
  {
  }

  /** Washing a path does not change what it names. A path that search_file finds a directory at, or a
      file with nothing behind it, leads to the same place when washed. */
  lemma WashedLeads(v: Dirs, t: Tree, p: Bytes)
    requires Agrees(v, t)
    ensures var q := Render(Resolve([], Components(p)));
      0 in v && |q| <= |p| + 1 && (p != [] && p[0] == SLASH ==> |q| <= |p|)
    ensures var q := Render(Resolve([], Components(p))); match SearchOf(v, p)
      case GotDir(no, _) => SearchOf(v, q).GotDir? && SearchOf(v, q).ino == no
      case GotFile(no, h) => Reach(v, 0, Components(p)) == |Components(p)| ==> SearchOf(v, q) == GotFile(no, h)
      case _ => true
  {
    hide Agrees, Components, Find, Reach, Resolve, Paths.Joined;
    var cs := Components(p);
    var at := Resolve([], cs);
    RootIn(v, t);
    NoComponents();
    RootFound(v);
    ComponentsProper(p);
    WashedPath(p);
    ComponentsShorter(p);
    ResolveShorter([], cs);
    JoinedStarts(at);
    JoinedEmpty(at);
    JoinedEmpty([]);
    ResolveLeads(v, t, [], 0, cs);
  }

  lemma RootIn(v: Dirs, t: Tree)
    requires Agrees(v, t)
    ensures 0 in v
  {
  }

  lemma RootFound(v: Dirs)
    requires 0 in v
    ensures Find(v, 0, 0, []) == FoundDir(0, 0)
  {
  }

  /** Behind a file it does: search_file of "/f/.." stops at the file, and the washed path is the
      root. */
  lemma BehindFile(v: Dirs, e: DirEntry)
    requires 0 in v && Lookup(v[0], [102]) == Something(e) && e.ftype == FT_REGULAR
    ensures Components([SLASH, 102, SLASH, 46, 46]) == [[102], DOTDOT]
    ensures SearchOf(v, [SLASH, 102, SLASH, 46, 46]) == GotFile(e.ino, 0)
    ensures Render(Resolve([], [[102], DOTDOT])) == [SLASH] && SearchOf(v, [SLASH]) == GotDir(0, 0)
  {
    hide Lookup, Components;
    var f: Name := [102];
    ComponentFirst(DOTDOT, []);
    ComponentFirst(f, [SLASH] + DOTDOT);
    NoComponents();
    assert [SLASH] + DOTDOT + [] == [SLASH] + DOTDOT && [SLASH] + f + ([SLASH] + DOTDOT) == [SLASH, 102, SLASH, 46, 46];
    ResolveLaws([], [], f);
    assert [] + [f, DOTDOT] == [f, DOTDOT];
    SlashOnly();
  }

  lemma SlashOnly()
    ensures Components([SLASH]) == []
  {
  }

  /** wash_path of a path, and search_file of both: they agree. */
  method SearchWashed(ns: Namespace, p: Bytes, ghost v: Dirs) returns (r: Search, s: Search)
    requires ns.Valid() && v == ns.View() && NoZero(p) && Short(Components(p)) && p != [] && p[0] == SLASH
    ensures 0 in v && r == SearchOf(v, p) && s == SearchOf(v, Render(Resolve([], Components(p))))
    ensures r.GotDir? ==> s.GotDir? && s.ino == r.ino
    ensures r.GotFile? && Reach(v, 0, Components(p)) == |Components(p)| ==> s == r
  {
    hide Namespace.Mounted, FileSystem.FileSystem.Stored, Namespace.View, Components, Agrees, Find, Reach, Resolve, SearchOf, Tried, NoZero;
    ns.TreeFacts(v);
    WashedLeads(v, ns.tree, p);
    WashedTaken(p);
    var washed := WashPath(p);
    ghost var searched;
    r, searched := ns.SearchFile(p, v);
    s, searched := ns.SearchFile(washed, v);
  }

  lemma WashedTaken(p: Bytes)
    requires NoZero(p) && Short(Components(p))
    ensures var q := Render(Resolve([], Components(p))); NoZero(q) && Short(Components(q))
  {
    hide Components, Resolve, NoZero;
    ComponentsNoZero(p);
    WashedPath(p);
    ResolveAmong([], Components(p));
    var at := Resolve([], Components(p));
    forall i | 0 <= i < |at| ensures NoZero(at[i]) && |at[i]| <= 15 {
      assert at[i] in at;
    }
    JoinedNoZero(at);
  }
}
