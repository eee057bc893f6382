/** Path names: taking them apart (path_parse in fs.c) and cleaning them of "." and ".."
    (wash_path in buildin_cmd.c). A path is the bytes of a C string before its final zero. */
module Paths {
  import opened Sectors
  import opened DirEntries
  import opened DirSpec

  const SLASH: Byte := 47

  datatype Rest = Null | At(path: Bytes)

  // ------------------------------------------------------------------
  // The components of a path
  // ------------------------------------------------------------------

  function SkipSlashes(p: Bytes): (q: Bytes)
    ensures |q| <= |p| && (q != [] ==> q[0] != SLASH)
  {
    if p != [] && p[0] == SLASH then SkipSlashes(p[1..]) else p
  }

  /** The length of the part before the first slash. */
  function Span(p: Bytes): (k: nat)
    ensures k <= |p| && (k < |p| ==> p[k] == SLASH)
    ensures forall i :: 0 <= i < k ==> p[i] != SLASH
  {
    if p == [] || p[0] == SLASH then 0 else 1 + Span(p[1..])
  }

  /** The maximal stretches without a slash, in order. */
  function Components(p: Bytes): seq<Name>
    decreases |p|
  {
    var q := SkipSlashes(p);
    if q == [] then [] else [q[..Span(q)]] + Components(q[Span(q)..])
  }

  ghost predicate Component(c: Name) {
    c != [] && SLASH !in c
  }

  lemma {:induction false} ComponentsProper(p: Bytes)
    ensures forall i :: 0 <= i < |Components(p)| ==> Component(Components(p)[i])
    decreases |p|
  {
    var q := SkipSlashes(p);
    if q != [] {
      ComponentsProper(q[Span(q)..]);
    }
  }

  /** A slash separates, and nothing else does: the components are those before it and those after it,
      and without a slash the whole is one. */
  lemma {:induction false} ComponentsSplit(a: Bytes, b: Bytes)
    ensures Components(a + [SLASH] + b) == Components(a) + Components(b)
    ensures SLASH !in a ==> Components(a) == if a == [] then [] else [a]
    decreases |a|
  {
    hide Components, Span;
    TakeApart(a);
    TakeApart(a + [SLASH] + b);
    if a == [] {
      assert ([SLASH] + b)[1..] == b && a + [SLASH] + b == [SLASH] + b;
    } else if a[0] == SLASH {
      ComponentsSplit(a[1..], b);
      assert (a + [SLASH] + b)[1..] == a[1..] + [SLASH] + b;
    } else {
      FirstPart(a, b);
      ComponentsSplit(a[Span(a)..], b);
    }
  }

  /** The first part ends where it ends without what follows. */
  lemma {:induction false} FirstPart(a: Bytes, b: Bytes)
    requires a != [] && a[0] != SLASH
    ensures Span(a) > 0 && (SLASH !in a ==> Span(a) == |a| && a[..Span(a)] == a)
    ensures var k, p := Span(a), a + [SLASH] + b;
      Span(p) == k && p[..k] == a[..k] && p[k..] == a[k..] + [SLASH] + b
  {
    SpanBefore(a, [SLASH] + b);
    assert a + [SLASH] + b == a + ([SLASH] + b);
    Cut(a, [SLASH] + b, Span(a));
    assert a[Span(a)..] + [SLASH] + b == a[Span(a)..] + ([SLASH] + b);
  }

  lemma {:induction false} SpanBefore(a: Bytes, rest: Bytes)
    requires rest != [] && rest[0] == SLASH
    ensures Span(a + rest) == Span(a)
  {
    if a == [] {
      assert a + rest == rest;
    } else {
      SpanBefore(a[1..], rest);
      assert (a + rest)[1..] == a[1..] + rest;
    }
  }

  lemma Cut(a: Bytes, rest: Bytes, k: nat)
    requires k <= |a|
    ensures (a + rest)[..k] == a[..k] && (a + rest)[k..] == a[k..] + rest
  {
  }

  lemma TakeApart(p: Bytes)
    ensures Components(p) ==
      if p == [] then [] else if p[0] == SLASH then Components(p[1..]) else [p[..Span(p)]] + Components(p[Span(p)..])
  {
  }

  /** "/c1/.../ck", which for no components is empty. */
  function Joined(cs: seq<Name>): Bytes {
    if cs == [] then [] else [SLASH] + cs[0] + Joined(cs[1..])
  }

  /** The path of a directory reached by these components: "/" or "/c1/.../ck". */
  function Render(cs: seq<Name>): Bytes {
    if cs == [] then [SLASH] else Joined(cs)
  }

  lemma {:induction false} JoinedSnoc(cs: seq<Name>, c: Name)
    ensures Joined(cs + [c]) == Joined(cs) + [SLASH] + c
  {
    if cs == [] {
      assert [c][1..] == [];
      assert cs + [c] == [c];
      assert Joined([c]) == [SLASH] + c + [];
    } else {
      JoinedSnoc(cs[1..], c);
      assert (cs + [c])[1..] == cs[1..] + [c];
    }
  }

  lemma {:induction false} JoinedStarts(cs: seq<Name>)
    ensures cs != [] ==> |Joined(cs)| > 0 && Joined(cs)[0] == SLASH
  {
  }

  lemma SpanOf(c: Name, rest: Bytes)
    requires SLASH !in c && (rest == [] || rest[0] == SLASH)
    ensures Span(c + rest) == |c|
  {
    var p := c + rest;
    assert forall i :: 0 <= i < |c| ==> p[i] == c[i];
    assert rest != [] ==> p[|c|] == rest[0];
  }

  /** The first component of a path, and the others. */
  lemma ComponentFirst(c: Name, rest: Bytes)
    requires Component(c) && (rest == [] || rest[0] == SLASH)
    ensures Components([SLASH] + c + rest) == [c] + Components(rest)
  {
    var p := [SLASH] + c + rest;
    assert p[1..] == c + rest;
    assert SkipSlashes(c + rest) == c + rest;
    SpanOf(c, rest);
    assert (c + rest)[..|c|] == c && (c + rest)[|c|..] == rest;
  }

  /** Taking a rendered path apart gives its components back. */
  lemma {:induction false} ComponentsJoined(cs: seq<Name>)
    requires forall i :: 0 <= i < |cs| ==> Component(cs[i])
    ensures Components(Joined(cs)) == cs && Components(Render(cs)) == cs
  {
    if cs == [] {
      assert Components([]) == [];
      assert SkipSlashes([SLASH]) == [];
    } else {
      JoinedStarts(cs[1..]);
      ComponentFirst(cs[0], Joined(cs[1..]));
      ComponentsJoined(cs[1..]);
    }
  }

  // ------------------------------------------------------------------
  // path_parse, path_depth_cnt
  // ------------------------------------------------------------------

  function After(rest: Rest): Bytes {
    if rest.Null? then [] else rest.path
  }

  /** path_parse: one component, and where to go on. */
  method PathParse(p: Bytes) returns (name: Name, rest: Rest)
    ensures Components(p) == (if name == [] then [] else [name] + Components(After(rest)))
    ensures |After(rest)| + |name| <= |p| && (name == [] ==> rest == Null)
    ensures |p| > 0 && p[0] == SLASH ==> |After(rest)| + |name| < |p|
    ensures rest.At? ==> rest.path != [] && rest.path[0] == SLASH
    ensures NoZero(p) ==> NoZero(name) && NoZero(After(rest))
  {
    hide Components, Span;
    var i := SkipMethod(p);
    var j := i;
    while j < |p| && p[j] != SLASH
      invariant i <= j <= |p| && forall k :: i <= k < j ==> p[k] != SLASH
    {
      j := j + 1;
    }
    name := p[i..j];
    rest := if j == |p| then Null else At(p[j..]);
    ParsedAt(p, i, j);
  }

  /** The skipping of slashes in path_parse. */
  method SkipMethod(p: Bytes) returns (i: nat)
    ensures i <= |p| && p[i..] == SkipSlashes(p) && (|p| > 0 && p[0] == SLASH ==> i > 0)
  {
    i := 0;
    if |p| > 0 && p[0] == SLASH {
      i := 1;
      assert SkipSlashes(p) == SkipSlashes(p[1..]);
      while i < |p| && p[i] == SLASH
        invariant 1 <= i <= |p| && SkipSlashes(p) == SkipSlashes(p[i..])
      {
        assert p[i..][1..] == p[i + 1..];
        i := i + 1;
      }
    }
  }

  lemma ParsedAt(p: Bytes, i: nat, j: nat)
    requires i <= j <= |p| && p[i..] == SkipSlashes(p)
    requires (forall k :: i <= k < j ==> p[k] != SLASH) && (j < |p| ==> p[j] == SLASH)
    ensures Components(p) == if i == j then [] else [p[i..j]] + Components(p[j..])
    ensures i == j ==> j == |p|
    ensures j == |p| ==> p[j..] == [] && Components(p[j..]) == []
  {
    hide Components, Span, SkipSlashes;
    SpanIs(p[i..], j - i);
    CutTwice(p, i, j);
    FirstComponent(p);
    NoComponents();
  }

  lemma CutTwice(p: Bytes, i: nat, j: nat)
    requires i <= j <= |p|
    ensures p[i..][..j - i] == p[i..j] && p[i..][j - i..] == p[j..]
  {
  }

  lemma SpanIs(q: Bytes, k: nat)
    requires k <= |q| && (forall x :: 0 <= x < k ==> q[x] != SLASH) && (k < |q| ==> q[k] == SLASH)
    ensures Span(q) == k
  {
    hide Span;
  }

  lemma FirstComponent(p: Bytes)
    ensures var q := SkipSlashes(p);
      Components(p) == if q == [] then [] else [q[..Span(q)]] + Components(q[Span(q)..])
  {
  }

  /** The depth of a path; for one without components the source looks at a buffer that nobody has
      written yet. */
  datatype Depth = Depth(n: nat) | FromMemory

  /** path_depth_cnt */
  method PathDepthCnt(p: Bytes) returns (d: Depth)
    ensures d == if Components(p) == [] then FromMemory else Depth(|Components(p)|)
  {
    var depth := 0;
    assert Components([]) == [];
    var name, rest := PathParse(p);
    if name == [] { return FromMemory; }
    while name != []
      invariant |Components(p)| == depth + if name == [] then 0 else 1 + |Components(After(rest))|
      decreases if name == [] then 0 else 1 + |After(rest)|
    {
      depth := depth + 1;
      name := [];
      if rest.At? {
        name, rest := PathParse(rest.path);
      }
    }
    d := Depth(depth);
  }

  /** strrchr: the last place of ch, or -1. */
  method StrRChr(s: Bytes, ch: Byte) returns (last: int)
    ensures -1 <= last < |s| && (last >= 0 ==> s[last] == ch)
    ensures forall i :: last < i < |s| ==> s[i] != ch
  {
    last := -1;
    var i := 0;
    while i < |s|
      invariant i <= |s| && -1 <= last < i && (last >= 0 ==> s[last] == ch)
      invariant forall k :: last < k < i ==> s[k] != ch
    {
      if s[i] == ch { last := i; }
      i := i + 1;
    }
  }

  // ------------------------------------------------------------------
  // wash_path
  // ------------------------------------------------------------------

  /** One component walked from a directory given by its components; ".." of the root is the
      root. */
  function Walk(at: seq<Name>, c: Name): seq<Name> {
    if c == DOTDOT then (if at == [] then [] else at[..|at| - 1])
    else if c == DOT then at
    else at + [c]
  }

  /** The directory components lead to from at. */
  function Resolve(at: seq<Name>, cs: seq<Name>): seq<Name>
    decreases |cs|
  {
    if cs == [] then at else Resolve(Walk(at, cs[0]), cs[1..])
  }

  ghost predicate Clean(cs: seq<Name>) {
    forall i :: 0 <= i < |cs| ==> Component(cs[i]) && !IsDot(cs[i])
  }

  lemma {:induction false} ResolveClean(at: seq<Name>, cs: seq<Name>)
    requires Clean(at) && forall i :: 0 <= i < |cs| ==> Component(cs[i])
    ensures Clean(Resolve(at, cs))
    decreases |cs|
  {
    if cs != [] {
      ResolveClean(Walk(at, cs[0]), cs[1..]);
    }
  }

  lemma {:induction false} ResolveNothing(at: seq<Name>, cs: seq<Name>)
    requires Clean(cs)
    ensures Resolve(at, cs) == at + cs
    decreases |cs|
  {
    if cs != [] {
      assert !IsDot(cs[0]);
      ResolveNothing(at + [cs[0]], cs[1..]);
    }
  }

  lemma {:induction false} ResolveOn(at: seq<Name>, a: seq<Name>, b: seq<Name>)
    ensures Resolve(at, a + b) == Resolve(Resolve(at, a), b)
    decreases |a|
  {
    if a == [] {
      assert a + b == b;
    } else {
      assert (a + b)[1..] == a[1..] + b;
      ResolveOn(Walk(at, a[0]), a[1..], b);
    }
  }

  /** What one more component does: a name is one step down, which ".." takes back; "." stays; ".." of
      the root is the root. These laws determine where every path resolves to. */
  lemma ResolveLaws(at: seq<Name>, cs: seq<Name>, c: Name)
    requires !IsDot(c)
    ensures Resolve(at, []) == at && Resolve(at, cs + [c]) == Resolve(at, cs) + [c]
    ensures Resolve(at, cs + [c, DOTDOT]) == Resolve(at, cs) && Resolve(at, cs + [DOT]) == Resolve(at, cs)
    ensures Resolve([], [DOTDOT]) == []
  {
    var to := Resolve(at, cs);
    ResolveOn(at, cs, [c]);
    ResolveOn(at, cs, [DOT]);
    ResolveOn(at, cs, [c, DOTDOT]);
    assert [c, DOTDOT][1..] == [DOTDOT] && [c][1..] == [] && [DOT][1..] == [] && [DOTDOT][1..] == [];
    assert Resolve(to, [c]) == to + [c] && Resolve(to + [c], [DOTDOT]) == to;
  }

  /** Every component of the result is one of those given. */
  lemma {:induction false} ResolveAmong(at: seq<Name>, cs: seq<Name>)
    ensures forall c :: c in Resolve(at, cs) ==> c in at || c in cs
    decreases |cs|
  {
    if cs != [] {
      ResolveAmong(Walk(at, cs[0]), cs[1..]);
    }
  }

  /** The result is no longer than what was given. */
  lemma {:induction false} ResolveShorter(at: seq<Name>, cs: seq<Name>)
    ensures |Joined(Resolve(at, cs))| <= |Joined(at)| + |Joined(cs)|
    decreases |cs|
  {
    if cs != [] {
      ResolveShorter(Walk(at, cs[0]), cs[1..]);
      JoinedSnoc(at, cs[0]);
      if at != [] {
        assert at == at[..|at| - 1] + [at[|at| - 1]];
        JoinedSnoc(at[..|at| - 1], at[|at| - 1]);
      }
    }
  }

  lemma {:induction false} ComponentsShorter(p: Bytes)
    ensures |Joined(Components(p))| <= |p| + if p != [] && p[0] != SLASH then 1 else 0
    decreases |p|
  {
    var q := SkipSlashes(p);
    if q != [] {
      ComponentsShorter(q[Span(q)..]);
      SkippedSome(p);
    }
  }

  lemma SkippedSome(p: Bytes)
    ensures p != [] && p[0] == SLASH ==> |SkipSlashes(p)| < |p|
  {
  }

  lemma LastSlash(cs: seq<Name>, last: int)
    requires cs != [] && forall i :: 0 <= i < |cs| ==> Component(cs[i])
    requires var s := Joined(cs);
      0 <= last < |s| && s[last] == SLASH && forall i :: last < i < |s| ==> s[i] != SLASH
    ensures last == |Joined(cs[..|cs| - 1])|
    ensures Joined(cs)[..last] == Joined(cs[..|cs| - 1]) && Joined(cs)[last + 1..] == cs[|cs| - 1]
  {
    hide Joined;
    var front, c := cs[..|cs| - 1], cs[|cs| - 1];
    assert cs == front + [c];
    JoinedSnoc(front, c);
    assert Component(c);
    LastOf(Joined(front), c, last);
  }

  lemma LastOf(a: Bytes, c: Bytes, last: int)
    requires SLASH !in c
    requires var s := a + [SLASH] + c;
      0 <= last < |s| && s[last] == SLASH && forall i :: last < i < |s| ==> s[i] != SLASH
    ensures last == |a| && (a + [SLASH] + c)[..last] == a && (a + [SLASH] + c)[last + 1..] == c
  {
    var s := a + [SLASH] + c;
    assert forall i :: |a| < i < |s| ==> s[i] == c[i - |a| - 1];
    assert s[|a|] == SLASH;
  }

  /** wash_path. Its result is the rendered component list, which has no ".", no ".." and no
      empty component. */
  method WashPath(old_: Bytes) returns (clean: Bytes)
    requires |old_| > 0 && old_[0] == SLASH
    ensures clean == Render(Resolve([], Components(old_)))
  {
    hide Components, Clean, Render;
    NoComponents();
    ComponentsProper(old_);
    var name, sub := PathParse(old_);
    if name == [] {
      return [SLASH];
    }
    clean := [SLASH];
    ghost var at, todo: seq<Name> := [], Components(old_);
    while name != []
      invariant Clean(at) && clean == Render(at)
      invariant todo == if name == [] then [] else [name] + Components(After(sub))
      invariant forall i :: 0 <= i < |todo| ==> Component(todo[i])
      invariant Resolve(at, todo) == Resolve([], Components(old_))
      decreases if name == [] then 0 else 1 + |After(sub)|
    {
      assert todo[0] == name && todo[1..] == Components(After(sub));
      clean := WashStep(clean, name, at);
      at := Walk(at, name);
      todo := todo[1..];
      name := [];
      if sub.At? {
        name, sub := PathParse(sub.path);
      }
    }
  }

  lemma NoComponents()
    ensures Components([]) == [] && Render([]) == [SLASH] && Clean([])
  {
  }

  /** One turn of wash_path. */
  method WashStep(clean0: Bytes, name: Name, ghost at: seq<Name>) returns (clean: Bytes)
    requires Clean(at) && clean0 == Render(at) && Component(name)
    ensures clean == Render(Walk(at, name)) && Clean(Walk(at, name))
  {
    hide Joined;
    clean := clean0;
    JoinedStarts(at);
    assert clean[0] == SLASH;
    if name == DOTDOT {
      var slash := StrRChr(clean, SLASH);
      if at != [] { LastSlash(at, slash); }
      JoinedStarts(at[..if at == [] then 0 else |at| - 1]);
      JoinedEmpty(at);
      if slash != 0 {
        clean := clean[..slash];
      } else {
        clean := clean[..1];
      }
    } else if name != DOT {
      OneComponent(at);
      JoinedSnoc(at, name);
      JoinedEmpty(at);
      if clean != [SLASH] {
        clean := clean + [SLASH];
      }
      clean := clean + name;
    }
  }

  lemma JoinedEmpty(at: seq<Name>)
    ensures Joined(at) == [] <==> at == []
    ensures |at| == 1 ==> Joined(at[..0]) == []
  {
  }

  lemma OneComponent(at: seq<Name>)
    requires Clean(at)
    ensures Render(at) == [SLASH] <==> at == []
  {
    if at != [] { assert Component(at[0]); }
  }

  /** Washing leaves a path of proper components, from which they can be read off again, and a
      second washing changes nothing. */
  lemma WashedPath(p: Bytes)
    ensures var at := Resolve([], Components(p));
      Clean(at) && Components(Render(at)) == at && Resolve([], Components(Render(at))) == at
  {
    ComponentsProper(p);
    var at := Resolve([], Components(p));
    ResolveClean([], Components(p));
    ComponentsJoined(at);
    ResolveNothing([], at);
  }

  lemma {:induction false} SkippedTail(p: Bytes)
    ensures SkipSlashes(p) == p[|p| - |SkipSlashes(p)|..]
  {
    if p != [] && p[0] == SLASH {
      SkippedTail(p[1..]);
    }
  }

  lemma {:induction false} ComponentsNoZero(p: Bytes)
    requires NoZero(p)
    ensures forall i :: 0 <= i < |Components(p)| ==> NoZero(Components(p)[i])
    decreases |p|
  {
    var q := SkipSlashes(p);
    SkippedTail(p);
    if q != [] {
      ComponentsNoZero(q[Span(q)..]);
    }
  }

  /** What follows the last slash of a path that does not end in one is its last component. */
  lemma LastComponent(p: Bytes, last: int)
    requires 0 <= last < |p| - 1 && p[last] == SLASH && forall i :: last < i < |p| ==> p[i] != SLASH
    ensures Components(p) == Components(p[..last]) + [p[last + 1..]]
    ensures Components(p) != [] && Components(p)[|Components(p)| - 1] == p[last + 1..]
  {
    hide Components;
    var name := p[last + 1..];
    assert p == p[..last] + [SLASH] + name;
    assert SLASH !in name;
    ComponentsSplit(p[..last], name);
    ComponentsSplit(name, []);
  }
}
