/** The files of a snapshot grouped by object id: names of one inode to be (`collect_links_cb`). */
module Links {
  import opened Types
  import opened Scan
  import opened Collect

  datatype Group = Group(id: string, paths: seq<Bytes>)

  function IndexOfGroup(groups: seq<Group>, id: string): (g: nat)
    ensures g <= |groups| && (g < |groups| ==> groups[g].id == id)
    ensures forall h :: 0 <= h < g ==> groups[h].id != id
  {
    FirstIndex(groups, (g: Group) => g.id == id)
  }

  /** One more file line joins its id's group or opens one. */
  function Joined(groups: seq<Group>, s: SnapFile): seq<Group> {
    var g := IndexOfGroup(groups, s.id);
    if g < |groups| then groups[g := Group(s.id, groups[g].paths + [s.path])]
    else groups + [Group(s.id, [s.path])]
  }

  function Linked(snap: seq<SnapFile>): seq<Group> {
    if snap == [] then [] else Joined(Linked(snap[..|snap| - 1]), snap[|snap| - 1])
  }

  lemma GrownIsJoined(groups: seq<Group>, s: SnapFile)
    ensures var g := IndexOfGroup(groups, s.id);
            var room := if g == |groups| then groups + [Group(s.id, [])] else groups;
            room[g := Group(room[g].id, room[g].paths + [s.path])] == Joined(groups, s)
  {
    assert [] + [s.path] == [s.path];
  }

  method FindGroup(groups: seq<Group>, id: string) returns (g: nat)
    ensures g == IndexOfGroup(groups, id)
  {
    g := 0;
    while g < |groups| && groups[g].id != id
      invariant 0 <= g <= |groups| && forall h :: 0 <= h < g ==> groups[h].id != id
    {
      g := g + 1;
    }
  }

  method CollectLinks(snap: seq<SnapFile>) returns (groups: seq<Group>)
    ensures groups == Linked(snap)
  {
    hide IndexOfGroup, Joined;
    groups := [];
    for i := 0 to |snap|
      invariant groups == Linked(snap[..i])
    {
      assert snap[..i + 1][..i] == snap[..i];
      GrownIsJoined(groups, snap[i]);
      var g := FindGroup(groups, snap[i].id);
      if g == |groups| { groups := groups + [Group(snap[i].id, [])]; }
      groups := groups[g := Group(groups[g].id, groups[g].paths + [snap[i].path])];
    }
    assert snap[..|snap|] == snap;
  }

  /** The paths of the lines with an id, in order. */
  function PathsOf(snap: seq<SnapFile>, id: string): (paths: seq<Bytes>)
    ensures forall p :: p in paths <==> exists i :: 0 <= i < |snap| && snap[i].id == id && snap[i].path == p
  {
    if snap == [] then []
    else
      var rest, s := PathsOf(snap[..|snap| - 1], id), snap[|snap| - 1];
      if s.id == id then rest + [s.path] else rest
  }

  ghost predicate RightPaths(snap: seq<SnapFile>, g: Group) { g.paths == PathsOf(snap, g.id) && g.paths != [] }

  ghost predicate GroupsHold(snap: seq<SnapFile>, groups: seq<Group>) {
    && (forall g :: 0 <= g < |groups| ==> RightPaths(snap, groups[g]))
    && (forall g, h :: 0 <= g < h < |groups| ==> groups[g].id != groups[h].id)
    && (forall i :: 0 <= i < |snap| ==> exists g :: 0 <= g < |groups| && groups[g].id == snap[i].id)
  }

  lemma GroupOf(snap: seq<SnapFile>, groups: seq<Group>, i: nat) returns (g: nat)
    requires GroupsHold(snap, groups) && i < |snap|
    ensures g < |groups| && groups[g].id == snap[i].id
  {
    var id := snap[i].id;
    var h :| 0 <= h < |groups| && groups[h].id == id;
    g := h;
  }

  lemma PathsOfMore(init: seq<SnapFile>, s: SnapFile, id: string)
    ensures PathsOf(init + [s], id) == if s.id == id then PathsOf(init, id) + [s.path] else PathsOf(init, id)
  {
    assert (init + [s])[..|init|] == init;
  }

  lemma NoPaths(snap: seq<SnapFile>, id: string)
    requires forall i :: 0 <= i < |snap| ==> snap[i].id != id
    ensures PathsOf(snap, id) == []
  {
    if PathsOf(snap, id) != [] { assert PathsOf(snap, id)[0] in PathsOf(snap, id); }
  }

  lemma JoinedPaths(init: seq<SnapFile>, groups: seq<Group>, s: SnapFile, g: nat)
    requires GroupsHold(init, groups) && g < |Joined(groups, s)|
    ensures RightPaths(init + [s], Joined(groups, s)[g])
  {
    var k := IndexOfGroup(groups, s.id);
    PathsOfMore(init, s, Joined(groups, s)[g].id);
    if k == |groups| { NoPaths(init, s.id); }
  }

  lemma JoinedIds(groups: seq<Group>, s: SnapFile)
    requires forall g, h :: 0 <= g < h < |groups| ==> groups[g].id != groups[h].id
    ensures var now := Joined(groups, s);
            && |groups| <= |now| && (forall g :: 0 <= g < |groups| ==> now[g].id == groups[g].id)
            && (forall g, h :: 0 <= g < h < |now| ==> now[g].id != now[h].id)
            && (exists g :: 0 <= g < |now| && now[g].id == s.id)
  {
    assert Joined(groups, s)[IndexOfGroup(groups, s.id)].id == s.id;
  }

  lemma JoinedHolds(init: seq<SnapFile>, groups: seq<Group>, s: SnapFile)
    requires GroupsHold(init, groups)
    ensures GroupsHold(init + [s], Joined(groups, s))
  {
    hide Joined, PathsOf, RightPaths;
    var snap, now := init + [s], Joined(groups, s);
    JoinedIds(groups, s);
    forall g | 0 <= g < |now| ensures RightPaths(snap, now[g]) {
      JoinedPaths(init, groups, s, g);
    }
    forall i | 0 <= i < |snap| ensures exists g :: 0 <= g < |now| && now[g].id == snap[i].id {
      if i < |init| {
        var g := GroupOf(init, groups, i);
        assert now[g].id == snap[i].id;
      }
    }
  }

  /** There is one group an id, and it has exactly the paths of that id's lines, in their order. */
  lemma {:induction false} LinkedHolds(snap: seq<SnapFile>)
    ensures GroupsHold(snap, Linked(snap))
  {
    if snap != [] {
      var n := |snap| - 1;
      LinkedHolds(snap[..n]);
      assert snap == snap[..n] + [snap[n]];
      JoinedHolds(snap[..n], Linked(snap[..n]), snap[n]);
    }
  }

  lemma {:induction false} PathsOfDistinct(snap: seq<SnapFile>, id: string)
    requires DistinctSnapPaths(snap)
    ensures forall j, k :: 0 <= j < k < |PathsOf(snap, id)| ==> PathsOf(snap, id)[j] != PathsOf(snap, id)[k]
  {
    if snap != [] {
      var n := |snap| - 1;
      PathsOfDistinct(snap[..n], id);
      var rest := PathsOf(snap[..n], id);
      forall j | 0 <= j < |rest| ensures rest[j] != snap[n].path { assert rest[j] in rest; }
    }
  }

  /** No path stands in two places. */
  lemma PathsApart(snap: seq<SnapFile>, groups: seq<Group>, g: nat, j: nat, h: nat, k: nat)
    requires DistinctSnapPaths(snap) && GroupsHold(snap, groups)
    requires g < |groups| && h < |groups| && j < |groups[g].paths| && k < |groups[h].paths|
    requires groups[g].paths[j] == groups[h].paths[k]
    ensures g == h && j == k
  {
    PathsOfDistinct(snap, groups[g].id);
    var p := groups[g].paths[j];
    assert p in PathsOf(snap, groups[g].id) && p in PathsOf(snap, groups[h].id);
    var a :| 0 <= a < |snap| && snap[a].id == groups[g].id && snap[a].path == p;
    var b :| 0 <= b < |snap| && snap[b].id == groups[h].id && snap[b].path == p;
    assert a == b;
  }
}
