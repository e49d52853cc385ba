/** Which snapshot paths restore accepts (`tp_restore_path_safe`), and where the accepted ones lead. */
module PathSafe {
  import opened Types

  const SLASH: byte := 47
  const DOT: byte := 46
  const DOTDOT: Bytes := [DOT, DOT]

  /** The parts of a path between slashes; empty ones are parts too. */
  function Components(path: Bytes): (cs: seq<Bytes>)
    ensures cs != []
  {
    if path == [] then [[]]
    else
      var init, last := Components(path[..|path| - 1]), path[|path| - 1];
      if last == SLASH then init + [[]]
      else init[..|init| - 1] + [init[|init| - 1] + [last]]
  }

  /** Not empty, not absolute, and no component goes up. */
  predicate Acceptable(path: Bytes) {
    path != [] && path[0] != SLASH && DOTDOT !in Components(path)
  }

  method RestorePathSafe(path: Bytes) returns (safe: bool)
    ensures safe <==> Acceptable(path)
  {
    hide Components, LastIs, NoneGoesUp;
    if |path| == 0 { return false; }
    NothingRead(path);
    if path[0] == SLASH { return false; }
    var segStart := 0;
    for i := 0 to |path| + 1
      invariant 0 <= segStart <= |path| + 1
      invariant i <= |path| ==> segStart <= i && LastIs(path[..i], path[segStart..i]) && NoneGoesUp(path[..i])
      invariant i > |path| ==> DOTDOT !in Components(path)
    {
      if i == |path| || path[i] == SLASH {
        EndOfSegment(path, segStart, i);
        var segLen := i - segStart;
        if segLen == 2 && path[segStart] == DOT && path[segStart + 1] == DOT { return false; }
        segStart := i + 1;
      } else {
        InSegment(path, segStart, i);
      }
    }
    return true;
  }

  /** The component being read when `path` ends. */
  predicate LastIs(path: Bytes, seg: Bytes) {
    var cs := Components(path);
    cs[|cs| - 1] == seg
  }

  /** No component before the last goes up. */
  predicate NoneGoesUp(path: Bytes) {
    var cs := Components(path);
    DOTDOT !in cs[..|cs| - 1]
  }

  lemma NothingRead(path: Bytes)
    ensures LastIs(path[..0], path[0..0]) && NoneGoesUp(path[..0])
  {}

  /** One more byte either ends the component or belongs to it. */
  lemma ComponentsMore(path: Bytes, b: byte)
    ensures var cs := Components(path);
            Components(path + [b]) == if b == SLASH then cs + [[]] else cs[..|cs| - 1] + [cs[|cs| - 1] + [b]]
  {
    assert (path + [b])[..|path|] == path;
  }

  lemma InSegment(path: Bytes, start: nat, i: nat)
    requires start <= i < |path| && path[i] != SLASH
    requires LastIs(path[..i], path[start..i]) && NoneGoesUp(path[..i])
    ensures LastIs(path[..i + 1], path[start..i + 1]) && NoneGoesUp(path[..i + 1])
  {
    assert path[..i + 1] == path[..i] + [path[i]];
    assert path[start..i + 1] == path[start..i] + [path[i]];
    ComponentsMore(path[..i], path[i]);
    hide Components;
  }

  lemma GoesUpOrNot(path: Bytes, seg: Bytes)
    requires LastIs(path, seg) && NoneGoesUp(path)
    ensures DOTDOT in Components(path) <==> seg == DOTDOT
  {
    hide Components;
    var cs := Components(path);
    assert cs == cs[..|cs| - 1] + [cs[|cs| - 1]];
  }

  lemma SlashEnds(path: Bytes, i: nat)
    requires i < |path| && path[i] == SLASH && DOTDOT !in Components(path[..i])
    ensures LastIs(path[..i + 1], path[i + 1..i + 1]) && NoneGoesUp(path[..i + 1])
  {
    assert path[..i + 1] == path[..i] + [path[i]];
    ComponentsMore(path[..i], path[i]);
    hide Components;
  }

  lemma EndOfSegment(path: Bytes, start: nat, i: nat)
    requires start <= i <= |path| && (i == |path| || path[i] == SLASH)
    requires LastIs(path[..i], path[start..i]) && NoneGoesUp(path[..i])
    ensures path[start..i] == DOTDOT ==> DOTDOT in Components(path)
    ensures path[start..i] != DOTDOT ==>
              if i == |path| then DOTDOT !in Components(path)
              else LastIs(path[..i + 1], path[i + 1..i + 1]) && NoneGoesUp(path[..i + 1])
  {
    hide Components, LastIs, NoneGoesUp;
    GoesUpOrNot(path[..i], path[start..i]);
    if i == |path| {
      assert path[..i] == path;
    } else {
      ComponentsGrow(path, i);
      if path[start..i] != DOTDOT { SlashEnds(path, i); }
    }
  }

  /** Once a slash ends it, a component stays one. */
  lemma {:induction false} ComponentsGrow(path: Bytes, i: nat)
    requires i < |path| && path[i] == SLASH
    ensures Components(path[..i]) <= Components(path) && |Components(path[..i])| < |Components(path)|
    decreases |path|
  {
    hide Components;
    var n := |path| - 1;
    assert path == path[..n] + [path[n]];
    ComponentsMore(path[..n], path[n]);
    if i < n {
      ComponentsGrow(path[..n], i);
      assert path[..n][..i] == path[..i];
    }
  }

  // ---------------------------------------------------------------- where a path leads

  /** One step of lexical resolution, from the directory named by the path of names `at`. */
  function Step(at: seq<Bytes>, c: Bytes): seq<Bytes> {
    if c == [] || c == [DOT] then at
    else if c == DOTDOT then if at == [] then [] else at[..|at| - 1]
    else at + [c]
  }

  function Walk(at: seq<Bytes>, cs: seq<Bytes>): seq<Bytes> {
    if cs == [] then at else Step(Walk(at, cs[..|cs| - 1]), cs[|cs| - 1])
  }

  function Joined(dest: Bytes, rel: Bytes): Bytes { dest + [SLASH] + rel }

  lemma LastReplaced<T>(a: seq<T>, b: seq<T>, x: T)
    requires b != []
    ensures (a + b)[..|a + b| - 1] + [x] == a + (b[..|b| - 1] + [x])
    ensures (a + b)[|a + b| - 1] == b[|b| - 1]
    ensures (a + b) + [x] == a + (b + [x])
  {}

  lemma NothingJoined(dest: Bytes)
    ensures Components(Joined(dest, [])) == Components(dest) + Components([])
  {
    assert Joined(dest, [])[..|dest|] == dest;
  }

  lemma JoinedLast(dest: Bytes, rel: Bytes)
    requires rel != []
    ensures var n := |rel| - 1;
            rel == rel[..n] + [rel[n]] && Joined(dest, rel) == Joined(dest, rel[..n]) + [rel[n]]
  {}

  lemma {:induction false} ComponentsJoined(dest: Bytes, rel: Bytes)
    ensures Components(Joined(dest, rel)) == Components(dest) + Components(rel)
  {
    hide Components, Joined;
    if rel == [] {
      NothingJoined(dest);
    } else {
      var n := |rel| - 1;
      ComponentsJoined(dest, rel[..n]);
      JoinedLast(dest, rel);
      ComponentsMore(rel[..n], rel[n]);
      ComponentsMore(Joined(dest, rel[..n]), rel[n]);
      var a, b := Components(dest), Components(rel[..n]);
      LastReplaced(a, b, if rel[n] == SLASH then [] else b[|b| - 1] + [rel[n]]);
    }
  }

  lemma {:induction false} WalkInside(at: seq<Bytes>, cs: seq<Bytes>)
    requires DOTDOT !in cs
    ensures at <= Walk(at, cs)
  {
    if cs != [] {
      var init := cs[..|cs| - 1];
      forall c | c in init ensures c in cs {}
      WalkInside(at, init);
    }
  }

  lemma {:induction false} WalkOn(at: seq<Bytes>, a: seq<Bytes>, b: seq<Bytes>)
    ensures Walk(at, a + b) == Walk(Walk(at, a), b)
  {
    if b == [] {
      assert a + b == a;
    } else {
      assert (a + b)[..|a + b| - 1] == a + b[..|b| - 1];
      WalkOn(at, a, b[..|b| - 1]);
    }
  }

  /** Resolved component by component from the root, an accepted path joined to the destination is inside it
      from the moment the destination is reached, and stays there. */
  lemma AcceptedStaysInside(dest: Bytes, rel: Bytes, k: nat)
    requires Acceptable(rel) && |Components(dest)| <= k <= |Components(Joined(dest, rel))|
    ensures Walk([], Components(dest)) <= Walk([], Components(Joined(dest, rel))[..k])
  {
    var a, b := Components(dest), Components(rel);
    ComponentsJoined(dest, rel);
    var part := b[..k - |a|];
    assert (a + b)[..k] == a + part;
    WalkOn([], a, part);
    WalkInside(Walk([], a), part);
  }

  /** The check on `..` is needed: a path that begins with it leaves every destination but the root at once. */
  lemma LeadingDotDotLeaves(dest: Bytes, rel: Bytes)
    requires Components(rel)[0] == DOTDOT && Walk([], Components(dest)) != []
    ensures Components(Joined(dest, rel)) == Components(dest) + Components(rel)
    ensures !(Walk([], Components(dest)) <= Walk([], Components(Joined(dest, rel))[..|Components(dest)| + 1]))
  {
    var a, b := Components(dest), Components(rel);
    ComponentsJoined(dest, rel);
    assert (a + b)[..|a| + 1] == a + [DOTDOT];
    WalkOn([], a, [DOTDOT]);
    assert [DOTDOT][..0] == [];
  }

  // ---------------------------------------------------------------- different paths, different places

  /** Every component is a name: none is empty, `.` or `..`. */
  ghost predicate Proper(path: Bytes) { forall c :: c in Components(path) ==> c != [] && c != [DOT] && c != DOTDOT }

  /** Where a path below the destination leads, as the names on the way from the root. */
  function Place(dest: Bytes, path: Bytes): seq<Bytes> { Walk([], Components(Joined(dest, path))) }

  /** Different paths of names, none of them leading through another. */
  ghost predicate Apart(paths: seq<Bytes>) {
    && (forall i :: 0 <= i < |paths| ==> Proper(paths[i]))
    && (forall i, j :: 0 <= i < |paths| && 0 <= j < |paths| && i != j ==>
          !(Components(paths[i]) <= Components(paths[j])))
  }

  lemma {:induction false} WalkNames(at: seq<Bytes>, cs: seq<Bytes>)
    requires forall c :: c in cs ==> c != [] && c != [DOT] && c != DOTDOT
    ensures Walk(at, cs) == at + cs
  {
    if cs == [] {
      assert at + cs == at;
    } else {
      var n := |cs| - 1;
      forall c | c in cs[..n] ensures c in cs {}
      assert cs[n] in cs;
      WalkNames(at, cs[..n]);
      assert at + cs == (at + cs[..n]) + [cs[n]];
    }
  }

  /** A path of names leads to the place its names spell below the destination. */
  lemma PlaceOfProper(dest: Bytes, path: Bytes)
    requires Proper(path)
    ensures Place(dest, path) == Walk([], Components(dest)) + Components(path)
  {
    hide Components, Walk, Joined;
    ComponentsJoined(dest, path);
    WalkOn([], Components(dest), Components(path));
    WalkNames(Walk([], Components(dest)), Components(path));
  }

  /** No two of them name one file, and none is a directory on the way to another. */
  lemma PlacesApart(dest: Bytes, paths: seq<Bytes>, i: nat, j: nat)
    requires Apart(paths) && i < |paths| && j < |paths| && i != j
    ensures !(Place(dest, paths[i]) <= Place(dest, paths[j]))
  {
    hide Components, Walk, Place, Proper;
    PlaceOfProper(dest, paths[i]);
    PlaceOfProper(dest, paths[j]);
    var at := Walk([], Components(dest));
    if Place(dest, paths[i]) <= Place(dest, paths[j]) {
      SameFront(at, Components(paths[i]), Components(paths[j]));
    }
  }

  lemma SameFront<T>(a: seq<T>, b: seq<T>, c: seq<T>)
    requires a + b <= a + c
    ensures b <= c
  {
    assert (a + b)[|a|..] == b && (a + c)[|a|..] == c;
  }

  /** Without that, different accepted paths can name one file. */
  lemma SamePlace(dest: Bytes, path: Bytes)
    requires Proper(path)
    ensures var other := [DOT, SLASH] + path;
            other != path && Place(dest, other) == Place(dest, path) && Acceptable(other) && Acceptable(path)
  {
    var other := [DOT, SLASH] + path;
    DotComponents(path);
    var cs := Components(path);
    forall c | c in [[DOT]] + cs ensures c != DOTDOT {}
    ComponentsJoined(dest, path);
    ComponentsJoined(dest, other);
    var at := Walk([], Components(dest));
    WalkOn([], Components(dest), cs);
    WalkOn([], Components(dest), [[DOT]] + cs);
    WalkOn(at, [[DOT]], cs);
    assert [[DOT]][..0] == [];
    ProperStart(path);
  }

  lemma DotComponents(path: Bytes)
    ensures Components([DOT, SLASH] + path) == [[DOT]] + Components(path)
  {
    var d: Bytes := [DOT];
    ComponentsMore([], DOT);
    assert [] + d == d && Components([]) == [[]];
    ComponentsJoined(d, path);
    assert Joined(d, path) == [DOT, SLASH] + path;
  }

  lemma {:induction false} ProperStart(path: Bytes)
    requires Proper(path)
    ensures path != [] && path[0] != SLASH
  {
    FirstComponent(path);
    assert Components(path)[0] in Components(path);
  }

  lemma {:induction false} FirstComponent(path: Bytes)
    ensures path == [] || path[0] == SLASH ==> Components(path)[0] == []
  {
    if |path| > 1 { FirstComponent(path[..|path| - 1]); } else if |path| == 1 { assert path[..0] == []; }
  }
}
