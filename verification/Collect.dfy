/** The objects of a snapshot: one for each id, represented by the first file line that carries it (`collect_cb`). */
module Collect {
  import opened Types
  import opened Scan

  function IndexOfId(objs: seq<Obj>, id: string): (i: nat)
    ensures i <= |objs| && (i < |objs| ==> objs[i].id == id)
    ensures forall j :: 0 <= j < i ==> objs[j].id != id
  {
    FirstIndex(objs, (o: Obj) => o.id == id)
  }

  /** The contents are what the file system gives for the representative's path when the object is packed. */
  function Collected(snap: seq<SnapFile>, read: Bytes -> Bytes): seq<Obj> {
    if snap == [] then []
    else
      var rest, s := Collected(snap[..|snap| - 1], read), snap[|snap| - 1];
      if IndexOfId(rest, s.id) < |rest| then rest else rest + [Obj(s.id, s.path, read(s.path), s.mtime)]
  }

  method FindByObjectId(objs: seq<Obj>, id: string) returns (found: bool)
    ensures found <==> exists o :: o in objs && o.id == id
  {
    for i := 0 to |objs|
      invariant forall j :: 0 <= j < i ==> objs[j].id != id
    {
      if objs[i].id == id {
        assert objs[i] in objs;
        return true;
      }
    }
    return false;
  }

  method CollectObjects(snap: seq<SnapFile>, read: Bytes -> Bytes) returns (objs: seq<Obj>)
    ensures objs == Collected(snap, read)
  {
    objs := [];
    for i := 0 to |snap|
      invariant objs == Collected(snap[..i], read)
    {
      assert snap[..i + 1][..i] == snap[..i];
      var found := FindByObjectId(objs, snap[i].id);
      assert found <==> IndexOfId(objs, snap[i].id) < |objs| by {
        if found { var o :| o in objs && o.id == snap[i].id; }
      }
      if !found { objs := objs + [Obj(snap[i].id, snap[i].path, read(snap[i].path), snap[i].mtime)]; }
    }
    assert snap[..|snap|] == snap;
  }

  ghost predicate DistinctSnapPaths(snap: seq<SnapFile>) {
    forall i, j :: 0 <= i < j < |snap| ==> snap[i].path != snap[j].path
  }

  /** Line `i` is the first with its id, and `o` is made from it. */
  ghost predicate Represents(snap: seq<SnapFile>, read: Bytes -> Bytes, i: nat, o: Obj) {
    && i < |snap| && o == Obj(snap[i].id, snap[i].path, read(snap[i].path), snap[i].mtime)
    && forall j :: 0 <= j < i ==> snap[j].id != o.id
  }

  ghost predicate Represented(snap: seq<SnapFile>, read: Bytes -> Bytes, o: Obj) {
    exists i: nat :: Represents(snap, read, i, o)
  }

  lemma RepresentsBehind(init: seq<SnapFile>, s: SnapFile, read: Bytes -> Bytes, i: nat, o: Obj)
    ensures i < |init| ==> (Represents(init + [s], read, i, o) <==> Represents(init, read, i, o))
    ensures i == |init| ==>
              (Represents(init + [s], read, i, o)
               <==> && o == Obj(s.id, s.path, read(s.path), s.mtime)
                    && forall j :: 0 <= j < |init| ==> init[j].id != s.id)
    ensures i > |init| ==> !Represents(init + [s], read, i, o) && !Represents(init, read, i, o)
    ensures i == |init| ==> !Represents(init, read, i, o)
  {
    var snap := init + [s];
    assert forall j :: 0 <= j < |init| ==> snap[j] == init[j];
    assert snap[|init|] == s;
  }

  lemma RepresentedMore(init: seq<SnapFile>, s: SnapFile, read: Bytes -> Bytes, o: Obj)
    ensures Represented(init + [s], read, o)
            <==> Represented(init, read, o)
                 || (o == Obj(s.id, s.path, read(s.path), s.mtime)
                     && forall j :: 0 <= j < |init| ==> init[j].id != s.id)
  {
    hide Represents;
    if i: nat :| Represents(init + [s], read, i, o) { RepresentsBehind(init, s, read, i, o); }
    if i: nat :| Represents(init, read, i, o) { RepresentsBehind(init, s, read, i, o); }
    RepresentsBehind(init, s, read, |init|, o);
  }

  lemma IndexOfIdMeans(objs: seq<Obj>, id: string)
    ensures IndexOfId(objs, id) < |objs| <==> exists o :: o in objs && o.id == id
  {
    if IndexOfId(objs, id) < |objs| { assert objs[IndexOfId(objs, id)] in objs; }
    if o :| o in objs && o.id == id {
      var i :| 0 <= i < |objs| && objs[i] == o;
    }
  }

  lemma CollectedMore(init: seq<SnapFile>, s: SnapFile, read: Bytes -> Bytes)
    ensures var rest := Collected(init, read);
            Collected(init + [s], read)
            == if exists o :: o in rest && o.id == s.id then rest else rest + [Obj(s.id, s.path, read(s.path), s.mtime)]
  {
    assert (init + [s])[..|init|] == init;
    IndexOfIdMeans(Collected(init, read), s.id);
  }

  /** The objects collected are the first lines of the ids, every id's and nothing else, each id once. */
  lemma {:induction false} CollectedExactly(snap: seq<SnapFile>, read: Bytes -> Bytes)
    ensures forall o :: o in Collected(snap, read) <==> Represented(snap, read, o)
    ensures forall i :: 0 <= i < |snap| ==> exists o :: o in Collected(snap, read) && o.id == snap[i].id
    ensures DistinctIds(Collected(snap, read))
  {
    if snap == [] {
      assert forall o, i: nat :: !Represents(snap, read, i, o);
    } else {
      var init, s := snap[..|snap| - 1], snap[|snap| - 1];
      assert snap == init + [s];
      CollectedExactly(init, read);
      hide Collected, Represented;
      CollectedMore(init, s, read);
      NoneRepresents(init, read, s.id, Collected(init, read));
      forall o ensures o in Collected(snap, read) <==> Represented(snap, read, o) { RepresentedMore(init, s, read, o); }
      CoveredMore(init, s, Collected(init, read), Collected(snap, read), Obj(s.id, s.path, read(s.path), s.mtime));
    }
  }

  lemma CoveredMore(init: seq<SnapFile>, s: SnapFile, rest: seq<Obj>, objs: seq<Obj>, x: Obj)
    requires x.id == s.id && objs == if exists o :: o in rest && o.id == s.id then rest else rest + [x]
    requires forall i :: 0 <= i < |init| ==> exists o :: o in rest && o.id == init[i].id
    requires DistinctIds(rest)
    ensures forall i :: 0 <= i <= |init| ==> exists o :: o in objs && o.id == (init + [s])[i].id
    ensures DistinctIds(objs)
  {
    var snap := init + [s];
    forall i | 0 <= i <= |init| ensures exists o :: o in objs && o.id == snap[i].id {
      if i < |init| {
        assert snap[i] == init[i];
        var o :| o in rest && o.id == init[i].id;
        assert o in objs;
      } else if o :| o in rest && o.id == s.id {
        assert o in objs;
      } else {
        assert x in objs;
      }
    }
  }

  lemma NoneRepresents(init: seq<SnapFile>, read: Bytes -> Bytes, id: string, rest: seq<Obj>)
    requires forall o :: o in rest <==> Represented(init, read, o)
    requires forall i :: 0 <= i < |init| ==> exists o :: o in rest && o.id == init[i].id
    ensures (exists o :: o in rest && o.id == id) <==> exists j :: 0 <= j < |init| && init[j].id == id
  {
    if o :| o in rest && o.id == id {
      var i: nat :| Represents(init, read, i, o);
    }
  }

  /** Different ids have different representatives. */
  lemma CollectedPaths(snap: seq<SnapFile>, read: Bytes -> Bytes)
    requires DistinctSnapPaths(snap)
    ensures DistinctPaths(Collected(snap, read))
  {
    var objs := Collected(snap, read);
    CollectedExactly(snap, read);
    forall i, j | 0 <= i < j < |objs| ensures objs[i].path != objs[j].path {
      assert objs[i] in objs && objs[j] in objs;
      var p: nat :| Represents(snap, read, p, objs[i]);
      var q: nat :| Represents(snap, read, q, objs[j]);
      assert p != q;
    }
  }

  /** Object `k` is made from line `at[k]`, the first of its id, and these lines are in order. */
  ghost predicate InOrder(snap: seq<SnapFile>, read: Bytes -> Bytes, at: seq<nat>, objs: seq<Obj>) {
    && |at| == |objs|
    && (forall k :: 0 <= k < |at| ==> Represents(snap, read, at[k], objs[k]))
    && (forall j, k :: 0 <= j < k < |at| ==> at[j] < at[k])
  }

  lemma InOrderMore(init: seq<SnapFile>, s: SnapFile, read: Bytes -> Bytes, at: seq<nat>, objs: seq<Obj>)
    requires InOrder(init, read, at, objs)
    ensures InOrder(init + [s], read, at, objs)
    ensures var x := Obj(s.id, s.path, read(s.path), s.mtime);
            (forall j :: 0 <= j < |init| ==> init[j].id != s.id) ==>
              InOrder(init + [s], read, at + [|init|], objs + [x])
  {
    forall k | 0 <= k < |at| ensures at[k] < |init| && Represents(init + [s], read, at[k], objs[k]) {
      RepresentsBehind(init, s, read, at[k], objs[k]);
    }
    RepresentsBehind(init, s, read, |init|, Obj(s.id, s.path, read(s.path), s.mtime));
    hide Represents;
  }

  /** And they come in the order of those lines. */
  lemma {:induction false} CollectedInOrder(snap: seq<SnapFile>, read: Bytes -> Bytes) returns (at: seq<nat>)
    ensures InOrder(snap, read, at, Collected(snap, read))
  {
    hide Represents, Represented, InOrder, DistinctIds;
    if snap == [] {
      at := [];
      NothingInOrder(read);
    } else {
      var init, s := snap[..|snap| - 1], snap[|snap| - 1];
      var objs := Collected(init, read);
      assert snap == init + [s];
      at := CollectedInOrder(init, read);
      CollectedExactly(init, read);
      CollectedMore(init, s, read);
      NoneRepresents(init, read, s.id, objs);
      InOrderMore(init, s, read, at, objs);
      if !(exists o :: o in objs && o.id == s.id) { at := at + [|init|]; }
    }
  }

  lemma NothingInOrder(read: Bytes -> Bytes)
    ensures InOrder([], read, [], Collected([], read))
  {}
}
