/** Relative paths through the tree: how they are made, and where they lead. */
module YangRelative {
  import opened Options
  import opened Texts
  import opened Yang
  import opened YangPath

  /** The first place from `i` on where two lists differ; None where the search runs past the end of one. */
  function Mismatch(s: seq<string>, d: seq<string>, i: nat): (r: Option<nat>)
    ensures r.Some? ==> i <= r.value < |s| && r.value < |d| && s[r.value] != d[r.value]
    ensures r.Some? ==> forall j :: i <= j < r.value ==> s[j] == d[j]
    decreases |s| - i
  {
    if i >= |s| || i >= |d| then None else if s[i] != d[i] then Some(i) else Mismatch(s, d, i + 1)
  }

  function Ups(n: nat): seq<string> {
    seq(n, i => "..")
  }

  function RelPath(src: string, dst: string): Option<string> {
    var s, d := Split(src, '/'), Split(dst, '/');
    if s[0] != d[0] then Some(dst)
    else
      var i := Mismatch(s, d, 1);
      if i.None? then None else Some(Join(Ups(|s| - i.value) + d[i.value..], '/'))
  }

  /** Counts the common components, then writes a ".." for each one left of the source. */
  method GetRelPath(src: string, dst: string) returns (path: Option<string>)
    ensures path == RelPath(src, dst)
  {
    var s, d := Split(src, '/'), Split(dst, '/');
    if s[0] != d[0] {
      return Some(dst);
    }
    var i := 1;
    while i < |s| && i < |d| && s[i] == d[i]
      invariant 1 <= i && Mismatch(s, d, 1) == Mismatch(s, d, i)
    {
      i := i + 1;
    }
    if i >= |s| || i >= |d| {
      return None;
    }
    var ret: seq<string> := [];
    for j := i to |s|
      invariant ret == Ups(j - i)
    {
      ret := [".."] + ret;
    }
    for j := i to |d|
      invariant ret == Ups(|s| - i) + d[i..j]
    {
      ret := ret + [d[j]];
    }
    assert d[i..|d|] == d[i..];
    return Some(Join(ret, '/'));
  }

  lemma {:induction false} MismatchExactly(s: seq<string>, d: seq<string>, i: nat)
    requires i <= |s| && i <= |d| && s[..i] == d[..i]
    ensures Mismatch(s, d, i).Some? <==> !(s <= d) && !(d <= s)
    decreases |s| - i
  {
    if i < |s| && i < |d| && s[i] == d[i] {
      assert s[..i + 1] == s[..i] + [s[i]] && d[..i + 1] == d[..i] + [d[i]];
      MismatchExactly(s, d, i + 1);
    } else if i == |s| {
      assert s == s[..i];
    } else if i == |d| {
      assert d == d[..i];
    }
  }

  /** A relative path exists exactly when the components of neither node begin those of the other. */
  lemma RelPathExactly(t: Tree, root: string, x: Location, y: Location)
    requires Free(root, '/')
    ensures RelPath(Path(t, root, x), Path(t, root, y)).Some?
            <==> !(Components(t, x) <= Components(t, y)) && !(Components(t, y) <= Components(t, x))
  {
    PathParts(t, root, x);
    PathParts(t, root, y);
    RelPathSome(Path(t, root, x), Path(t, root, y), root, Components(t, x), Components(t, y));
  }

  lemma RelPathSome(src: string, dst: string, root: string, a: seq<string>, b: seq<string>)
    requires Split(src, '/') == ["", root] + a && Split(dst, '/') == ["", root] + b
    ensures RelPath(src, dst).Some? <==> !(a <= b) && !(b <= a)
  {
    var s, d := ["", root] + a, ["", root] + b;
    MismatchExactly(s, d, 1);
    assert s[2..] == a && d[2..] == b;
  }

  lemma UpsMoves(n: nat, rest: seq<string>)
    requires Parts(rest)
    ensures Parts(Ups(n) + rest) && Moves(Ups(n) + rest) == Rise(n) + Moves(rest)
  {
  }

  // ----- what two nodes share -----

  /** The length of the way two nodes have in common. */
  function Shared(x: Location, y: Location): (n: nat)
    ensures n <= |x| && n <= |y| && x[..n] == y[..n] && (n < |x| && n < |y| ==> x[n] != y[n])
  {
    if x == [] || y == [] || x[0] != y[0] then 0
    else
      var n := Shared(x[1..], y[1..]);
      assert x[..n + 1] == [x[0]] + x[1..][..n] && y[..n + 1] == [y[0]] + y[1..][..n];
      n + 1
  }

  lemma SharedLongest(x: Location, y: Location, j: nat)
    requires j <= |x| && j <= |y| && x[..j] == y[..j]
    ensures j <= Shared(x, y)
  {
    assert forall k :: 0 <= k < j ==> x[k] == x[..j][k] && y[k] == y[..j][k];
  }

  /** The components of the common part begin those of the node. */
  lemma {:induction false} ComponentsPrefix(t: Tree, loc: Location, n: nat)
    requires n <= |loc|
    ensures Components(t, loc[..n]) <= Components(t, loc)
    decreases |loc|
  {
    if n == |loc| {
      assert loc[..n] == loc;
    } else {
      assert loc[..|loc| - 1][..n] == loc[..n];
      ComponentsPrefix(t, loc[..|loc| - 1], n);
    }
  }

  /** Below a node there are at least as many components as steps, and as many exactly if no key is torn. */
  lemma {:induction false} ComponentsSize(t: Tree, loc: Location, n: nat)
    requires Named(t, loc) && n <= |loc|
    ensures |Components(t, loc)| >= |Components(t, loc[..n])| + |loc| - n
    ensures |Components(t, loc)| == |Components(t, loc[..n])| + |loc| - n <==> KeysWhole(loc[n..])
    decreases |loc|
  {
    if n == |loc| {
      assert loc[..n] == loc;
    } else {
      var most := loc[..|loc| - 1];
      Last(loc, n);
      NamedPrefix(t, loc, |loc| - 1);
      ComponentsSize(t, most, n);
      LastPart(t, loc);
      WholeAppend(most[n..], loc[|loc| - 1]);
    }
  }

  lemma {:induction false} WrittenSize(t: Tree, from: Location, steps: seq<Step>)
    ensures |Written(t, from, steps)| == |steps|
    decreases |steps|
  {
    if steps != [] {
      WrittenSize(t, from + [steps[0]], steps[1..]);
    }
  }

  // ----- relative paths, walked -----

  /** The common components, and what is left after them. */
  lemma RelSplit(src: string, dst: string, root: string, a: seq<string>, b: seq<string>)
      returns (n: nat, up: nat, rest: seq<string>)
    requires Split(src, '/') == ["", root] + a && Split(dst, '/') == ["", root] + b && RelPath(src, dst).Some?
    ensures n < |a| && n < |b| && a[n] != b[n] && (forall m :: 0 <= m < n ==> a[m] == b[m])
    ensures RelPath(src, dst).value == Join(Ups(up) + rest, '/') && up == |a| - n && rest == b[n..]
  {
    var s, d := Split(src, '/'), Split(dst, '/');
    assert s[0] == "" == d[0] && s[1] == root == d[1];
    var i := Mismatch(s, d, 1).value;
    n := i - 2;
    forall m | 0 <= m < n
      ensures a[m] == b[m]
    {
      assert s[m + 2] == d[m + 2];
    }
    up, rest := |s| - i, d[i..];
    assert d[i..] == b[n..];
  }

  /** The first component in which two nodes differ. */
  predicate Differ(a: seq<string>, b: seq<string>, i: nat) {
    i < |a| && i < |b| && a[i] != b[i] && forall m :: 0 <= m < i ==> a[m] == b[m]
  }

  /** A relative path climbs over the components that differ and comes down along those of the other. */
  lemma RelParts(t: Tree, root: string, x: Location, y: Location) returns (i: nat, up: nat, rest: seq<string>)
    requires Free(root, '/') && RelPath(Path(t, root, x), Path(t, root, y)).Some?
    ensures Differ(Components(t, x), Components(t, y), i) && up == |Components(t, x)| - i
    ensures rest == Components(t, y)[i..]
    ensures RelPath(Path(t, root, x), Path(t, root, y)).value == Join(Ups(up) + rest, '/')
  {
    PathParts(t, root, x);
    PathParts(t, root, y);
    i, up, rest := RelSplit(Path(t, root, x), Path(t, root, y), root, Components(t, x), Components(t, y));
  }

  lemma PrefixBefore(first: seq<string>, a: seq<string>, b: seq<string>, i: nat)
    requires first <= a && first <= b && i < |a| && i < |b| && a[i] != b[i]
    ensures |first| <= i
  {
  }

  lemma CommonBefore(t: Tree, x: Location, y: Location, i: nat)
    requires Differ(Components(t, x), Components(t, y), i)
    ensures |Components(t, x[..Shared(x, y)])| <= i
  {
    ComponentsPrefix(t, x, Shared(x, y));
    ComponentsPrefix(t, y, Shared(x, y));
    PrefixBefore(Components(t, x[..Shared(x, y)]), Components(t, x), Components(t, y), i);
  }

  lemma ClimbRest(t: Tree, x: Location, y: Location, i: nat)
    requires Named(t, y) && Differ(Components(t, x), Components(t, y), i) && KeysWhole(y[Shared(x, y)..])
    ensures |Components(t, x[..Shared(x, y)])| <= i && Parts(Components(t, y)[i..]) && ".." !in Components(t, y)[i..]
    ensures |Components(t, y)| == |Components(t, x[..Shared(x, y)])| + |y| - Shared(x, y)
  {
    CommonBefore(t, x, y, i);
    RestFree(t, y, Shared(x, y), i);
  }

  lemma TailClean(x: Location, y: Location)
    requires Derived(x, y)
    ensures KeysClean(y[Shared(x, y)..])
  {
    var n := Shared(x, y);
    var j: nat :| DerivedAt(x, y, j);
    SharedLongest(x, y, j);
    forall k | 0 <= k < |y| - n
      ensures Clean(y[n..][k])
    {
      assert y[n..][k] == y[j..][k + n - j];
    }
  }

  lemma Halves(loc: Location, n: nat)
    requires n <= |loc|
    ensures loc[..n] + loc[n..] == loc
  {
  }

  lemma TailOf(whole: seq<string>, first: seq<string>, second: seq<string>, i: nat)
    requires whole == first + second && |first| <= i <= |whole|
    ensures forall p :: p in whole[i..] ==> p in second
  {
    assert forall k :: 0 <= k < |whole| - i ==> whole[i..][k] == second[k + i - |first|];
  }

  lemma RestFree(t: Tree, y: Location, n: nat, i: nat)
    requires Named(t, y) && n <= |y| && KeysWhole(y[n..]) && |Components(t, y[..n])| <= i <= |Components(t, y)|
    ensures |Components(t, y)| == |Components(t, y[..n])| + |y| - n
    ensures Parts(Components(t, y)[i..]) && ".." !in Components(t, y)[i..]
  {
    ComponentsWritten(t, y, n);
    WrittenSize(t, y[..n], y[n..]);
    Halves(y, n);
    AllFree(t, y[..n], y[n..]);
    TailOf(Components(t, y), Components(t, y[..n]), Written(t, y[..n], y[n..]), i);
  }

  /** The component of the first step that differs. */
  lemma NextComponent(t: Tree, loc: Location, n: nat)
    requires Named(t, loc) && n < |loc| && KeysWhole(loc[n..])
    ensures var c := |Components(t, loc[..n])|;
      c < |Components(t, loc)| && Components(t, loc)[c] == Text(At(t, loc[..n]), loc[n])
  {
    ComponentsWritten(t, loc, n);
  }

  lemma DifferAt(t: Tree, x: Location, y: Location)
    requires Named(t, x) && Named(t, y) && KeysWhole(x[Shared(x, y)..]) && KeysWhole(y[Shared(x, y)..])
    requires Shared(x, y) < |x| && Shared(x, y) < |y|
    ensures var c := |Components(t, x[..Shared(x, y)])|;
      c < |Components(t, x)| && c < |Components(t, y)| && Components(t, x)[c] != Components(t, y)[c]
  {
    var n := Shared(x, y);
    NextComponent(t, x, n);
    NextComponent(t, y, n);
    assert NamedAt(t, x, n) && NamedAt(t, y, n);
    if Text(At(t, x[..n]), x[n]) == Text(At(t, x[..n]), y[n]) {
      TextInjective(At(t, x[..n]), x[n], y[n]);
    }
  }

  lemma ClimbParts(t: Tree, x: Location, y: Location, i: nat)
    requires Named(t, x) && Named(t, y) && Differ(Components(t, x), Components(t, y), i)
    requires KeysWhole(y[Shared(x, y)..]) && KeysWhole(x[Shared(x, y)..])
    ensures |Components(t, x)| - i == |x| - Shared(x, y)
    ensures Components(t, y)[i..] == Written(t, y[..Shared(x, y)], y[Shared(x, y)..])
  {
    ClimbRest(t, x, y, i);
    RelativeMeets(t, x, y, i);
    RelativeRest(t, x, y, Shared(x, y));
  }

  lemma RelativeRest(t: Tree, x: Location, y: Location, n: nat)
    requires Named(t, x) && Named(t, y) && n <= |x| && n <= |y| && x[..n] == y[..n] && KeysWhole(x[n..])
    requires KeysWhole(y[n..])
    ensures var c := |Components(t, x[..n])|;
      && |Components(t, x)| - c == |x| - n && c <= |Components(t, y)|
      && Components(t, y)[c..] == Written(t, y[..n], y[n..])
  {
    ComponentsSize(t, x, n);
    ComponentsWritten(t, y, n);
  }

  lemma WholeComponents(t: Tree, x: Location)
    ensures Components(t, x[..|x|]) == Components(t, x)
  {
    assert x[..|x|] == x;
  }

  lemma SharedProper(t: Tree, x: Location, y: Location, i: nat)
    requires |Components(t, x[..Shared(x, y)])| <= i < |Components(t, x)| && i < |Components(t, y)|
    ensures Shared(x, y) < |x| && Shared(x, y) < |y|
  {
    WholeComponents(t, x);
    WholeComponents(t, y);
  }

  lemma RelativeMeets(t: Tree, x: Location, y: Location, i: nat)
    requires Named(t, x) && Named(t, y) && KeysWhole(x[Shared(x, y)..]) && KeysWhole(y[Shared(x, y)..])
    requires |Components(t, x[..Shared(x, y)])| <= i < |Components(t, x)| && i < |Components(t, y)|
    requires forall m :: 0 <= m < i ==> Components(t, x)[m] == Components(t, y)[m]
    ensures i == |Components(t, x[..Shared(x, y)])|
  {
    SharedProper(t, x, y, i);
    DifferAt(t, x, y);
  }

  /** The relative path from x to y, walked from x, leads to y if and only if, below what the two have in
      common, no key of x holds a '/' and every key of y is free of '/', '=' and ','. */
  lemma WalkRelative(t: Tree, root: string, x: Location, y: Location)
    requires Named(t, x) && Named(t, y) && Free(root, '/') && RelPath(Path(t, root, x), Path(t, root, y)).Some?
    ensures Walk(t, root, x, RelPath(Path(t, root, x), Path(t, root, y)).value) == Some(y)
            <==> KeysClean(y[Shared(x, y)..]) && KeysWhole(x[Shared(x, y)..])
  {
    var path := RelPath(Path(t, root, x), Path(t, root, y)).value;
    if Walk(t, root, x, path) == Some(y) {
      WalkKeys(t, root, x, path, y);
      TailClean(x, y);
    }
    if KeysClean(y[Shared(x, y)..]) {
      RelativeGoes(t, root, x, y);
    }
  }

  /** The components of the relative path: how far up, and what comes then. */
  lemma RelativeText(t: Tree, root: string, x: Location, y: Location) returns (up: nat, rest: seq<string>)
    requires Named(t, x) && Named(t, y) && Free(root, '/') && RelPath(Path(t, root, x), Path(t, root, y)).Some?
    requires KeysWhole(y[Shared(x, y)..])
    ensures RelPath(Path(t, root, x), Path(t, root, y)).value == Join(Ups(up) + rest, '/') && Parts(rest)
    ensures ".." !in rest
    ensures up - |rest| == |Components(t, x)| - |Components(t, x[..Shared(x, y)])| - (|y| - Shared(x, y))
    ensures KeysWhole(x[Shared(x, y)..]) ==>
      up == |x| - Shared(x, y) && rest == Written(t, y[..Shared(x, y)], y[Shared(x, y)..])
  {
    var i;
    i, up, rest := RelParts(t, root, x, y);
    ClimbRest(t, x, y, i);
    if KeysWhole(x[Shared(x, y)..]) {
      ClimbParts(t, x, y, i);
    }
  }

  /** The same as moves. */
  lemma RelativeMoves(t: Tree, root: string, x: Location, y: Location) returns (up: nat, moves: seq<Move>)
    requires Named(t, x) && Named(t, y) && Free(root, '/') && RelPath(Path(t, root, x), Path(t, root, y)).Some?
    requires KeysClean(y[Shared(x, y)..])
    ensures Walk(t, root, x, RelPath(Path(t, root, x), Path(t, root, y)).value) == Go(t, x, Rise(up) + moves)
    ensures Up !in moves
    ensures up - |moves| == |Components(t, x)| - |Components(t, x[..Shared(x, y)])| - (|y| - Shared(x, y))
    ensures KeysWhole(x[Shared(x, y)..]) ==> up == |x| - Shared(x, y) && moves == Descend(y[Shared(x, y)..])
  {
    CleanWhole(y[Shared(x, y)..]);
    var rest;
    up, rest := RelativeText(t, root, x, y);
    moves := Moves(rest);
    NoUps(rest);
    UpsMoves(up, rest);
    WalkIsGo(t, root, x, Ups(up) + rest);
    Halves(y, Shared(x, y));
    MovesWritten(t, y[..Shared(x, y)], y[Shared(x, y)..]);
  }

  lemma NoUps(parts: seq<string>)
    requires ".." !in parts
    ensures Up !in Moves(parts)
  {
  }

  lemma RelativeGoes(t: Tree, root: string, x: Location, y: Location)
    requires Named(t, x) && Named(t, y) && Free(root, '/') && RelPath(Path(t, root, x), Path(t, root, y)).Some?
    requires KeysClean(y[Shared(x, y)..])
    ensures Walk(t, root, x, RelPath(Path(t, root, x), Path(t, root, y)).value) == Some(y)
            <==> KeysWhole(x[Shared(x, y)..])
  {
    var up, moves := RelativeMoves(t, root, x, y);
    ComponentsSize(t, x, Shared(x, y));
    GoUp(t, x, up, moves);
    if Go(t, x, Rise(up) + moves) == Some(y) {
      GoLength(t, x[..|x| - up], moves, y);
    }
    if KeysWhole(x[Shared(x, y)..]) {
      Halves(y, Shared(x, y));
      GoDown(t, y[..Shared(x, y)], y[Shared(x, y)..]);
    }
  }

  /** A leafref bound to a target, relatively or absolutely, resolves back to that target exactly then. */
  lemma BoundLeafrefResolves(t: Tree, root: string, leaf: Location, target: Location, relative: bool)
    requires Named(t, leaf) && Named(t, target) && Free(root, '/')
    requires relative ==> RelPath(Path(t, root, leaf), Path(t, root, target)).Some?
    ensures var data :=
        if relative then RelPath(Path(t, root, leaf), Path(t, root, target)).value else Path(t, root, target);
      Walk(t, root, leaf, data) == Some(target)
      <==>
      if relative then KeysClean(target[Shared(leaf, target)..]) && KeysWhole(leaf[Shared(leaf, target)..])
      else KeysClean(target)
  {
    if relative {
      WalkRelative(t, root, leaf, target);
    } else {
      WalkAbsolute(t, root, leaf, target);
    }
  }
}
