/** The passes over the packs a restore needs, in ascending order, and the empty files for what was not found. */
module Passes {
  import opened Types
  import opened OnDisk
  import opened Extract

  ghost predicate SortedByPack(s: seq<Needed>) {
    forall i, j :: 0 <= i < j < |s| ==> s[i].entry.pack <= s[j].entry.pack
  }

  function Insert(s: seq<Needed>, nd: Needed): (r: seq<Needed>)
    ensures multiset(r) == multiset(s) + multiset{nd}
  {
    if s == [] || s[|s| - 1].entry.pack <= nd.entry.pack then s + [nd]
    else
      assert s == s[..|s| - 1] + [s[|s| - 1]];
      Insert(s[..|s| - 1], nd) + [s[|s| - 1]]
  }

  lemma {:induction false} InsertSorted(s: seq<Needed>, nd: Needed)
    requires SortedByPack(s)
    ensures SortedByPack(Insert(s, nd))
  {
    if s != [] && s[|s| - 1].entry.pack > nd.entry.pack {
      var init := s[..|s| - 1];
      InsertSorted(init, nd);
      hide Insert;
      forall x | x in Insert(init, nd) ensures x.entry.pack <= s[|s| - 1].entry.pack {
        assert x in multiset(Insert(init, nd));
        assert x in init || x == nd;
      }
    }
  }

  /** Stands for the library's sort. */
  method SortByPack(needed: seq<Needed>) returns (s: seq<Needed>)
    ensures multiset(s) == multiset(needed) && SortedByPack(s)
  {
    s := [];
    for i := 0 to |needed|
      invariant multiset(s) == multiset(needed[..i]) && SortedByPack(s)
    {
      assert needed[..i + 1] == needed[..i] + [needed[i]];
      InsertSorted(s, needed[i]);
      s := Insert(s, needed[i]);
    }
    assert needed[..|needed|] == needed;
  }

  predicate ArchiveThere(d: Disk, n: nat) { Archive(n) in d.packs && d.packs[Archive(n)].ArchiveFile? }

  /** The members of pack `n`, none if it cannot be opened. */
  function MembersOf(d: Disk, n: nat): seq<Member> { if ArchiveThere(d, n) then d.packs[Archive(n)].members else [] }

  /** Some member of the entry's pack has the entry's pathname and these bytes. */
  ghost predicate InArchive(d: Disk, e: Entry, data: Bytes) {
    exists m :: m in MembersOf(d, e.pack) && m.path == e.path && m.data == data
  }

  /** Some member of the entry's pack has the entry's pathname. */
  ghost predicate HasMember(d: Disk, e: Entry) { exists m :: m in MembersOf(d, e.pack) && m.path == e.path }

  /** Object `k` was written, but with bytes of another size or hash than its entry says. */
  ghost predicate Wrong(c: Codec, s: seq<Needed>, p: Pass, k: nat) {
    && k < |s| && k < |p.written| && p.written[k] && Target(s[k]) in p.dest
    && var e, data := s[k].entry, p.dest[Target(s[k])];
       |data| != e.size || (e.sha != "" && c.sha(data) != e.sha)
  }

  /** The first `n` objects have been gone through: each written has bytes from its pack, and a warning was given
      exactly if some are wrong. */
  ghost predicate Extracted(c: Codec, d: Disk, s: seq<Needed>, n: nat, p: Pass) {
    && n == |p.written| <= |s|
    && (forall k :: 0 <= k < n && p.written[k] ==>
          Target(s[k]) in p.dest && InArchive(d, s[k].entry, p.dest[Target(s[k])]))
    && (p.warned <==> exists k: nat :: Wrong(c, s, p, k))
  }

  /** Nothing was written but to targets of the first `n` objects. */
  ghost predicate OnlyTargets(s: seq<Needed>, n: nat, p: Pass) {
    && n == |p.written| <= |s|
    && forall x :: x in p.dest ==> exists k :: 0 <= k < n && p.written[k] && Target(s[k]) == x
  }

  /** None of the first `n` objects was missed. */
  ghost predicate NoneMissed(d: Disk, s: seq<Needed>, n: nat, p: Pass) {
    && n == |p.written| <= |s|
    && forall k :: 0 <= k < n && HasMember(d, s[k].entry) ==> p.written[k]
  }

  /** No archive repeats a pathname, and no two objects have the same place in a pack. */
  ghost predicate PlacesClear(d: Disk, s: seq<Needed>) {
    && (forall k :: 0 <= k < |s| ==> DistinctMembers(MembersOf(d, s[k].entry.pack)))
    && (forall i, j :: 0 <= i < j < |s| && s[i].entry.pack == s[j].entry.pack ==> s[i].entry.path != s[j].entry.path)
  }

  /** One pass a pack, in ascending order; -1 if an archive cannot be opened. */
  method ExtractPacks(c: Codec, d: Disk, s: seq<Needed>) returns (rc: int, p: Pass)
    requires SortedByPack(s)
    ensures rc == 0 || rc == -1
    ensures rc == 0 <==> forall k :: 0 <= k < |s| ==> ArchiveThere(d, s[k].entry.pack)
    ensures rc == 0 ==> |p.written| == |s|
    ensures OnlyTargets(s, |p.written|, p)
    ensures rc == 0 && TargetsApart(s) ==> Extracted(c, d, s, |s|, p)
    ensures rc == 0 && TargetsApart(s) && PlacesClear(d, s) ==> NoneMissed(d, s, |s|, p)
  {
    hide *;
    p := Pass(map[], [], false);
    NothingExtracted(c, d, s);
    var start := 0;
    while start < |s|
      invariant 0 <= start <= |s| && |p.written| == start
      invariant forall k :: 0 <= k < start ==> ArchiveThere(d, s[k].entry.pack)
      invariant OnlyTargets(s, start, p)
      invariant TargetsApart(s) ==> Extracted(c, d, s, start, p)
      invariant TargetsApart(s) && PlacesClear(d, s) ==> NoneMissed(d, s, start, p)
    {
      var pack := s[start].entry.pack;
      var end := start + 1;
      while end < |s| && s[end].entry.pack == pack
        invariant start < end <= |s| && forall k :: start <= k < end ==> s[k].entry.pack == pack
      {
        end := end + 1;
      }
      var there := Open(d, pack);
      if !there { return -1, p; }
      var ms := d.packs[Archive(pack)].members;
      var q := RestoreOnePack(c, ms, s[start..end], p.dest);
      MembersAre(d, pack);
      RunOnlyTargets(c, s, start, end, p, ms);
      if TargetsApart(s) { RunExtracted(c, d, s, start, end, p, q); }
      if TargetsApart(s) && PlacesClear(d, s) { RunMissesNone(c, d, s, start, end, p, q); }
      p := Pass(q.dest, p.written + q.written, p.warned || q.warned);
      start := end;
    }
    rc := 0;
  }

  method Open(d: Disk, n: nat) returns (there: bool)
    ensures there <==> ArchiveThere(d, n)
    ensures there ==> Archive(n) in d.packs && d.packs[Archive(n)].ArchiveFile?
  {
    there := ArchiveThere(d, n);
  }

  lemma NothingExtracted(c: Codec, d: Disk, s: seq<Needed>)
    ensures var p := Pass(map[], [], false);
            Extracted(c, d, s, 0, p) && OnlyTargets(s, 0, p) && NoneMissed(d, s, 0, p)
  {}

  lemma MembersAre(d: Disk, n: nat)
    requires ArchiveThere(d, n)
    ensures Archive(n) in d.packs && d.packs[Archive(n)].ArchiveFile? && MembersOf(d, n) == d.packs[Archive(n)].members
  {}

  /** A pass writes only to targets of its items. */
  lemma {:induction false} PassOnlyTargets(c: Codec, items: seq<Needed>, before: map<Bytes, Bytes>, ms: seq<Member>)
    ensures Untouched(items, before, TakeAll(c, items, before, ms))
  {
    hide Take, Target, TakeAll, Untouched, Wants;
    if ms == [] {
      NothingTaken(c, items, before);
    } else {
      var init, m := ms[..|ms| - 1], ms[|ms| - 1];
      PassOnlyTargets(c, items, before, init);
      TakenLast(c, items, before, ms);
      var p := TakeAll(c, items, before, init);
      TakeUntouchedBy(c, items, before, p, m, FirstFrom(items, p.written, m, 0));
    }
  }

  lemma RunOnlyTargets(c: Codec, s: seq<Needed>, start: nat, end: nat, p: Pass, ms: seq<Member>)
    requires start < end <= |s| && OnlyTargets(s, start, p)
    ensures var q := TakeAll(c, s[start..end], p.dest, ms);
            OnlyTargets(s, end, Pass(q.dest, p.written + q.written, p.warned || q.warned))
  {
    hide *;
    var q := TakeAll(c, s[start..end], p.dest, ms);
    PassOnlyTargets(c, s[start..end], p.dest, ms);
    TargetsMore(s, start, end, p, q);
  }

  lemma TargetsMore(s: seq<Needed>, start: nat, end: nat, p: Pass, q: Pass)
    requires start < end <= |s| && OnlyTargets(s, start, p) && |q.written| == end - start
    requires Untouched(s[start..end], p.dest, q)
    ensures OnlyTargets(s, end, Pass(q.dest, p.written + q.written, p.warned || q.warned))
  {
    hide Target;
    var items, written := s[start..end], p.written + q.written;
    forall x | x in q.dest ensures exists k :: 0 <= k < end && written[k] && Target(s[k]) == x {
      if i :| 0 <= i < |items| && q.written[i] && Target(items[i]) == x {
        assert items[i] == s[start + i] && written[start + i];
      } else {
        var k :| 0 <= k < start && p.written[k] && Target(s[k]) == x;
        assert written[k];
      }
    }
  }

  lemma SliceApart(s: seq<Needed>, start: nat, end: nat)
    requires TargetsApart(s) && start <= end <= |s|
    ensures TargetsApart(s[start..end])
    ensures forall k, i :: 0 <= k < start && 0 <= i < end - start ==> Target(s[start..end][i]) != Target(s[k])
  {
    hide Target;
    forall i | 0 <= i < end - start ensures s[start..end][i] == s[start + i] {}
  }

  /** What was extracted before stays as it was. */
  lemma EarlierStay(s: seq<Needed>, start: nat, end: nat, p: Pass, q: Pass, k: nat)
    requires TargetsApart(s) && k < start <= end <= |s| && |q.written| == end - start
    requires Untouched(s[start..end], p.dest, q) && Target(s[k]) in p.dest
    ensures Target(s[k]) in q.dest && q.dest[Target(s[k])] == p.dest[Target(s[k])]
  {
    hide Target;
    SliceApart(s, start, end);
  }

  lemma FromPack(d: Disk, nd: Needed, pack: nat, data: Bytes)
    requires nd.entry.pack == pack && FromMember(MembersOf(d, pack), nd, data)
    ensures InArchive(d, nd.entry, data)
  {}

  lemma RunExtracted(c: Codec, d: Disk, s: seq<Needed>, start: nat, end: nat, p: Pass, q: Pass)
    requires TargetsApart(s) && Extracted(c, d, s, start, p) && OnlyTargets(s, start, p) && start < end <= |s|
    requires forall k :: start <= k < end ==> s[k].entry.pack == s[start].entry.pack
    requires q == TakeAll(c, s[start..end], p.dest, MembersOf(d, s[start].entry.pack))
    ensures Extracted(c, d, s, end, Pass(q.dest, p.written + q.written, p.warned || q.warned))
  {
    hide TakeAll, Target, InArchive, FromMember, MembersOf, Wrong, WrittenWrong, Untouched, TargetsApart, OnlyTargets;
    var items, pack := s[start..end], s[start].entry.pack;
    var r := Pass(q.dest, p.written + q.written, p.warned || q.warned);
    SliceApart(s, start, end);
    TakeAllTaken(c, items, p.dest, MembersOf(d, pack));
    forall k | 0 <= k < end && r.written[k]
      ensures Target(s[k]) in r.dest && InArchive(d, s[k].entry, r.dest[Target(s[k])])
    {
      if k < start {
        EarlierStay(s, start, end, p, q, k);
      } else {
        assert items[k - start] == s[k];
        FromPack(d, s[k], pack, q.dest[Target(s[k])]);
      }
    }
    WrongOfRun(c, s, start, end, p, q);
  }

  /** What is wrong after a run was wrong before, or is in the run. */
  lemma WrongOfRun(c: Codec, s: seq<Needed>, start: nat, end: nat, p: Pass, q: Pass)
    requires TargetsApart(s) && start < end <= |s| && |p.written| == start && |q.written| == end - start
    requires Untouched(s[start..end], p.dest, q)
    requires forall k :: 0 <= k < start && p.written[k] ==> Target(s[k]) in p.dest
    requires p.warned <==> exists k: nat :: Wrong(c, s, p, k)
    requires q.warned <==> exists k: nat :: WrittenWrong(c, s[start..end], q, k)
    ensures var r := Pass(q.dest, p.written + q.written, p.warned || q.warned);
            r.warned <==> exists k: nat :: Wrong(c, s, r, k)
  {
    var r := Pass(q.dest, p.written + q.written, p.warned || q.warned);
    forall k: nat
      ensures k < start ==> (Wrong(c, s, r, k) <==> Wrong(c, s, p, k))
      ensures k >= start ==> (Wrong(c, s, r, k) <==> WrittenWrong(c, s[start..end], q, k - start))
      ensures k >= start ==> !Wrong(c, s, p, k)
    {
      WrongAt(c, s, start, end, p, q, k);
    }
    hide Wrong, WrittenWrong, Untouched, TargetsApart, Target;
    if k: nat :| WrittenWrong(c, s[start..end], q, k) { assert Wrong(c, s, r, start + k); }
  }

  lemma WrongAt(c: Codec, s: seq<Needed>, start: nat, end: nat, p: Pass, q: Pass, k: nat)
    requires TargetsApart(s) && start < end <= |s| && |p.written| == start && |q.written| == end - start
    requires Untouched(s[start..end], p.dest, q)
    requires k < start && p.written[k] ==> Target(s[k]) in p.dest
    ensures var r := Pass(q.dest, p.written + q.written, p.warned || q.warned);
            && (k < start ==> (Wrong(c, s, r, k) <==> Wrong(c, s, p, k)))
            && (k >= start ==> (Wrong(c, s, r, k) <==> WrittenWrong(c, s[start..end], q, k - start)))
            && (k >= start ==> !Wrong(c, s, p, k))
  {
    hide Target, Untouched, TargetsApart;
    if k < start && p.written[k] {
      EarlierStay(s, start, end, p, q, k);
    } else if start <= k < end {
      assert s[start..end][k - start] == s[k];
    }
  }

  lemma RunMatchable(d: Disk, s: seq<Needed>, start: nat, end: nat)
    requires TargetsApart(s) && PlacesClear(d, s) && start < end <= |s|
    requires forall k :: start <= k < end ==> s[k].entry.pack == s[start].entry.pack
    ensures Matchable(MembersOf(d, s[start].entry.pack), s[start..end])
  {
    hide Target;
    var items := s[start..end];
    forall i, j | 0 <= i < j < |items|
      ensures items[i].entry.path != items[j].entry.path && Target(items[i]) != Target(items[j])
    {
      assert items[i] == s[start + i] && items[j] == s[start + j];
    }
  }

  lemma MemberFound(d: Disk, nd: Needed, pack: nat)
    requires nd.entry.pack == pack && HasMember(d, nd.entry)
    ensures Found(MembersOf(d, pack), nd)
  {
    var m :| m in MembersOf(d, nd.entry.pack) && m.path == nd.entry.path;
    assert Wants(nd, m);
  }

  lemma PassMarks(c: Codec, items: seq<Needed>, before: map<Bytes, Bytes>, ms: seq<Member>, k: nat)
    requires Matchable(ms, items) && k < |items| && Found(ms, items[k])
    ensures TakeAll(c, items, before, ms).written[k]
  {
    hide TakeAll, Found, Placed, Untouched, WarnedRight, Matchable;
    TakeAllPassed(c, items, before, ms);
  }

  lemma RunMissesNone(c: Codec, d: Disk, s: seq<Needed>, start: nat, end: nat, p: Pass, q: Pass)
    requires TargetsApart(s) && PlacesClear(d, s) && NoneMissed(d, s, start, p) && start < end <= |s|
    requires forall k :: start <= k < end ==> s[k].entry.pack == s[start].entry.pack
    requires q == TakeAll(c, s[start..end], p.dest, MembersOf(d, s[start].entry.pack))
    ensures NoneMissed(d, s, end, Pass(q.dest, p.written + q.written, p.warned || q.warned))
  {
    hide TakeAll, Target, HasMember, MembersOf, Found, TargetsApart, PlacesClear, Matchable;
    var items, pack := s[start..end], s[start].entry.pack;
    RunMatchable(d, s, start, end);
    forall k | start <= k < end && HasMember(d, s[k].entry) ensures q.written[k - start] {
      assert items[k - start] == s[k];
      MemberFound(d, s[k], pack);
      PassMarks(c, items, p.dest, MembersOf(d, pack), k - start);
    }
  }

  // ---------------------------------------------------------------- what was not in its pack

  /** One of the first `n` objects was not found, has size 0 and belongs at `x`. */
  ghost predicate Emptied(s: seq<Needed>, p: Pass, n: nat, x: Bytes)
    requires n <= |s| == |p.written|
  {
    exists k :: 0 <= k < n && !p.written[k] && s[k].entry.size == 0 && Target(s[k]) == x
  }

  /** What was not in its pack: an empty object is created, another is warned of. */
  method CreateEmpty(s: seq<Needed>, p: Pass) returns (dest: map<Bytes, Bytes>, warned: bool)
    requires |p.written| == |s|
    ensures warned <==> exists k :: 0 <= k < |s| && !p.written[k] && s[k].entry.size != 0
    ensures forall x :: x in dest <==> x in p.dest || Emptied(s, p, |s|, x)
    ensures forall x :: x in dest ==> if Emptied(s, p, |s|, x) then dest[x] == [] else dest[x] == p.dest[x]
    ensures (forall k :: 0 <= k < |s| ==> p.written[k]) ==> dest == p.dest
  {
    hide Target;
    dest, warned := p.dest, false;
    for i := 0 to |s|
      invariant warned <==> exists k :: 0 <= k < i && !p.written[k] && s[k].entry.size != 0
      invariant forall x :: x in dest <==> x in p.dest || Emptied(s, p, i, x)
      invariant forall x :: x in dest ==> if Emptied(s, p, i, x) then dest[x] == [] else dest[x] == p.dest[x]
      invariant (forall k :: 0 <= k < i ==> p.written[k]) ==> dest == p.dest
    {
      EmptiedMore(s, p, i);
      if !p.written[i] {
        if s[i].entry.size == 0 { dest := dest[Target(s[i]) := []]; } else { warned := true; }
      }
    }
  }

  lemma EmptiedMore(s: seq<Needed>, p: Pass, n: nat)
    requires n < |s| == |p.written|
    ensures forall x :: Emptied(s, p, n + 1, x)
              <==> Emptied(s, p, n, x) || (!p.written[n] && s[n].entry.size == 0 && Target(s[n]) == x)
  {
    hide Target;
    forall x ensures Emptied(s, p, n + 1, x)
      <==> Emptied(s, p, n, x) || (!p.written[n] && s[n].entry.size == 0 && Target(s[n]) == x)
    {
      if k :| 0 <= k < n && !p.written[k] && s[k].entry.size == 0 && Target(s[k]) == x { assert k < n + 1; }
    }
  }
}
