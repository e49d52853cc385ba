/** Restoring the files of a snapshot (`tp_restore`): resolve, extract pack by pack, link the other names. */
module Restore {
  import opened Types
  import opened LineLog
  import opened OnDisk
  import opened ObjectIndex
  import opened Scan
  import opened Collect
  import opened Links
  import opened Extract
  import opened Passes
  import opened Identity
  import opened PathSafe
  import opened Resume

  // ---------------------------------------------------------------- resolving

  ghost predicate AllAcceptable(groups: seq<Group>) {
    forall g, j :: 0 <= g < |groups| && 0 <= j < |groups[g].paths| ==> Acceptable(groups[g].paths[j])
  }

  /** The paths of a snapshot's other lines: its directories and its symbolic links. */
  datatype Others = Others(dirs: seq<Bytes>, links: seq<Bytes>)

  ghost predicate EachAcceptable(paths: seq<Bytes>) { forall i :: 0 <= i < |paths| ==> Acceptable(paths[i]) }

  ghost predicate OthersSafe(others: Others) { EachAcceptable(others.dirs) && EachAcceptable(others.links) }

  method CountUnsafeIn(paths: seq<Bytes>) returns (unsafe: nat)
    ensures unsafe == 0 <==> EachAcceptable(paths)
  {
    hide Acceptable;
    unsafe := 0;
    for j := 0 to |paths|
      invariant unsafe == 0 <==> forall i :: 0 <= i < j ==> Acceptable(paths[i])
    {
      var safe := RestorePathSafe(paths[j]);
      if !safe { unsafe := unsafe + 1; }
    }
  }

  /** How many paths of files, directories and symbolic links are not safe to create. */
  method CountUnsafe(groups: seq<Group>, others: Others) returns (unsafe: nat)
    ensures unsafe == 0 <==> AllAcceptable(groups) && OthersSafe(others)
  {
    hide Acceptable;
    unsafe := 0;
    for g := 0 to |groups|
      invariant unsafe == 0 <==> forall h :: 0 <= h < g ==> EachAcceptable(groups[h].paths)
    {
      var n := CountUnsafeIn(groups[g].paths);
      unsafe := unsafe + n;
    }
    assert unsafe == 0 <==> AllAcceptable(groups);
    var dirs := CountUnsafeIn(others.dirs);
    var links := CountUnsafeIn(others.links);
    unsafe := unsafe + dirs + links;
  }

  /** Each group with the entry of its id. */
  ghost predicate Resolved(es: seq<Entry>, groups: seq<Group>, needed: seq<Needed>) {
    && |needed| == |groups|
    && forall g :: 0 <= g < |groups| ==>
         needed[g].group == groups[g] && needed[g].entry in es && needed[g].entry.id == groups[g].id
  }

  method Resolve(index: Index, groups: seq<Group>, ghost es: seq<Entry>) returns (missing: nat, needed: seq<Needed>)
    requires index.Holds(es)
    ensures missing == 0 <==> forall g :: 0 <= g < |groups| ==> HasId(es, groups[g].id)
    ensures missing == 0 ==> Resolved(es, groups, needed)
  {
    hide Index.Holds;
    missing, needed := 0, [];
    for g := 0 to |groups|
      invariant missing == 0 <==> forall h :: 0 <= h < g ==> HasId(es, groups[h].id)
      invariant missing == 0 ==> Resolved(es, groups[..g], needed)
    {
      var entry := index.FindById(groups[g].id, es);
      HasIdMeans(es, groups[g].id);
      match entry {
        case None => missing := missing + 1;
        case Some(e) => needed := needed + [Needed(groups[g], e)];
      }
    }
    assert groups[..|groups|] == groups;
  }

  // ---------------------------------------------------------------- the other names

  predicate IsName(groups: seq<Group>, g: nat, j: nat) { g < |groups| && j < |groups[g].paths| }

  ghost predicate NamesApart(groups: seq<Group>) {
    && (forall g :: 0 <= g < |groups| ==> groups[g].paths != [])
    && (forall g: nat, j: nat, h: nat, k: nat :: IsName(groups, g, j) && IsName(groups, h, k) ==>
          (groups[g].paths[j] == groups[h].paths[k] ==> g == h && j == k))
  }

  /** A name already there when the links have come to name `nj` of group `n`; first names always are. */
  predicate Reached(groups: seq<Group>, n: nat, nj: nat, g: nat, j: nat) {
    IsName(groups, g, j) && (j == 0 || g < n || (g == n && j < nj))
  }

  /** Each name reached has the bytes of its group's first, and nothing else is there. */
  ghost predicate LinkedTo(groups: seq<Group>, before: map<Bytes, Bytes>, n: nat, nj: nat, dest: map<Bytes, Bytes>) {
    && (forall g: nat, j: nat :: Reached(groups, n, nj, g, j) ==>
          && groups[g].paths[j] in dest && groups[g].paths[0] in before
          && dest[groups[g].paths[j]] == before[groups[g].paths[0]])
    && (forall x :: x in dest ==> exists g: nat, j: nat :: Reached(groups, n, nj, g, j) && groups[g].paths[j] == x)
  }

  ghost predicate OnlyFirstNames(groups: seq<Group>, before: map<Bytes, Bytes>) {
    && (forall g :: 0 <= g < |groups| && groups[g].paths != [] ==> groups[g].paths[0] in before)
    && (forall x :: x in before ==> exists g :: 0 <= g < |groups| && groups[g].paths != [] && groups[g].paths[0] == x)
  }

  /** Nothing but names of the groups, besides what was there. */
  ghost predicate OnlyNames(groups: seq<Group>, before: map<Bytes, Bytes>, dest: map<Bytes, Bytes>) {
    forall x :: x in dest ==> x in before || exists g: nat, j: nat :: IsName(groups, g, j) && groups[g].paths[j] == x
  }

  lemma OneMoreName(groups: seq<Group>, before: map<Bytes, Bytes>, dest: map<Bytes, Bytes>, g: nat, j: nat, data: Bytes)
    requires OnlyNames(groups, before, dest) && IsName(groups, g, j)
    ensures OnlyNames(groups, before, dest[groups[g].paths[j] := data])
  {}

  lemma NoMoreNames(groups: seq<Group>, before: map<Bytes, Bytes>)
    ensures OnlyNames(groups, before, before)
  {}

  lemma NameAt(groups: seq<Group>, g: nat, j: nat)
    ensures IsName(groups, g, j) <==> g < |groups| && j < |groups[g].paths|
  {}

  /** No name of a group comes twice in it, up to name `nj` of group `n`. */
  ghost predicate NoneTwice(groups: seq<Group>, n: nat, nj: nat) {
    forall g, j, k :: 0 <= g < |groups| && 0 <= j < k < |groups[g].paths| && (g < n || (g == n && k < nj)) ==>
      groups[g].paths[j] != groups[g].paths[k]
  }

  lemma NoneTwiceMore(groups: seq<Group>, n: nat, nj: nat)
    requires n < |groups| && 1 <= nj < |groups[n].paths| && NoneTwice(groups, n, nj)
    requires forall j :: 0 <= j < nj ==> groups[n].paths[j] != groups[n].paths[nj]
    ensures NoneTwice(groups, n, nj + 1)
  {}

  lemma NoneTwiceNext(groups: seq<Group>, n: nat)
    requires n < |groups| && NoneTwice(groups, n, if |groups[n].paths| >= 2 then |groups[n].paths| else 1)
    ensures NoneTwice(groups, n + 1, 1)
  {}

  lemma NoneTwiceYet(groups: seq<Group>)
    ensures NoneTwice(groups, 0, 1)
  {}

  /** A name that is there already cannot be linked, and so is warned of. */
  method LinkRest(groups: seq<Group>, before: map<Bytes, Bytes>) returns (dest: map<Bytes, Bytes>, warned: bool)
    ensures !warned ==> NoneTwice(groups, |groups|, 1)
    ensures forall x :: x in before ==> x in dest && dest[x] == before[x]
    ensures OnlyNames(groups, before, dest)
    ensures NamesApart(groups) && OnlyFirstNames(groups, before) ==>
              !warned && LinkedTo(groups, before, |groups|, 1, dest)
  {
    hide *;
    dest, warned := before, false;
    LinkStart(groups, before);
    NoMoreNames(groups, before);
    NoneTwiceYet(groups);
    for g := 0 to |groups|
      invariant !warned ==> NoneTwice(groups, g, 1)
      invariant forall x :: x in before ==> x in dest && dest[x] == before[x]
      invariant OnlyNames(groups, before, dest)
      invariant NamesApart(groups) && OnlyFirstNames(groups, before) ==> !warned && LinkedTo(groups, before, g, 1, dest)
    {
      if |groups[g].paths| >= 2 {
        var target := groups[g].paths[0];
        for j := 1 to |groups[g].paths|
          invariant !warned ==> NoneTwice(groups, g, j)
          invariant !warned && j > 1 ==> forall a :: 0 <= a < j ==> groups[g].paths[a] in dest
          invariant forall x :: x in before ==> x in dest && dest[x] == before[x]
          invariant OnlyNames(groups, before, dest)
          invariant NamesApart(groups) && OnlyFirstNames(groups, before) ==>
                      !warned && LinkedTo(groups, before, g, j, dest)
        {
          var name := groups[g].paths[j];
          if NamesApart(groups) && OnlyFirstNames(groups, before) { LinkStep(groups, before, g, j, dest); }
          NameAt(groups, g, j);
          if target in dest && name !in dest {
            if !warned { NoneTwiceMore(groups, g, j); }
            OneMoreName(groups, before, dest, g, j, dest[target]);
            dest := dest[name := dest[target]];
          } else {
            warned := true;
          }
        }
      }
      if !warned { NoneTwiceNext(groups, g); }
      if NamesApart(groups) && OnlyFirstNames(groups, before) { LinkNext(groups, before, g, dest); }
    }
  }

  lemma LinkStart(groups: seq<Group>, before: map<Bytes, Bytes>)
    ensures NamesApart(groups) && OnlyFirstNames(groups, before) ==> LinkedTo(groups, before, 0, 1, before)
  {
    if NamesApart(groups) && OnlyFirstNames(groups, before) {
      assert forall g: nat, j: nat :: Reached(groups, 0, 1, g, j) <==> g < |groups| && j == 0;
      hide Reached, NamesApart;
      forall x | x in before ensures exists g: nat, j: nat :: Reached(groups, 0, 1, g, j) && groups[g].paths[j] == x {
        var g :| 0 <= g < |groups| && groups[g].paths != [] && groups[g].paths[0] == x;
        assert Reached(groups, 0, 1, g, 0);
      }
    }
  }

  lemma LinkNext(groups: seq<Group>, before: map<Bytes, Bytes>, g: nat, dest: map<Bytes, Bytes>)
    requires g < |groups| && LinkedTo(groups, before, g, if |groups[g].paths| >= 2 then |groups[g].paths| else 1, dest)
    ensures LinkedTo(groups, before, g + 1, 1, dest)
  {
    var nj := if |groups[g].paths| >= 2 then |groups[g].paths| else 1;
    assert forall h: nat, j: nat :: Reached(groups, g, nj, h, j) <==> Reached(groups, g + 1, 1, h, j);
    hide Reached;
  }

  lemma LinkStep(groups: seq<Group>, before: map<Bytes, Bytes>, g: nat, j: nat, dest: map<Bytes, Bytes>)
    requires g < |groups| && 1 <= j < |groups[g].paths|
    requires NamesApart(groups) && LinkedTo(groups, before, g, j, dest)
    ensures groups[g].paths[0] in dest && groups[g].paths[j] !in dest
    ensures LinkedTo(groups, before, g, j + 1, dest[groups[g].paths[j] := dest[groups[g].paths[0]]])
  {
    assert Reached(groups, g, j, g, 0);
    assert !Reached(groups, g, j, g, j);
    assert forall h: nat, k: nat :: Reached(groups, g, j + 1, h, k)
             <==> Reached(groups, g, j, h, k) || (h == g && k == j);
    assert forall h: nat, k: nat :: Reached(groups, g, j, h, k) ==> IsName(groups, h, k);
    hide Reached;
  }

  // ---------------------------------------------------------------- the whole restore

  ghost predicate AllIndexed(es: seq<Entry>, snap: seq<SnapFile>) { forall i :: 0 <= i < |snap| ==> HasId(es,
          snap[i].id) }

  ghost predicate AllPathsSafe(snap: seq<SnapFile>) { forall i :: 0 <= i < |snap| ==> Acceptable(snap[i].path) }

  /** Restore refuses the snapshot before it writes anything. */
  ghost predicate Refused(c: Codec, log: Bytes, snap: seq<SnapFile>, others: Others) {
    || !AllPathsSafe(snap) || !OthersSafe(others)
    || Loaded(c, ReadLines(log)) == None
    || !AllIndexed(Loaded(c, ReadLines(log)).value, snap)
  }

  /** Some object of the snapshot has an entry whose archive cannot be opened. */
  ghost predicate ArchiveMissing(d: Disk, es: seq<Entry>, snap: seq<SnapFile>) {
    exists i, e :: 0 <= i < |snap| && e in es && e.id == snap[i].id && !ArchiveThere(d, e.pack)
  }

  /** These bytes are what the entry says: of its size, and from its pack with its hash, if it has one.  Of an object of
      size 0 no more is checked when its pack does not have it. */
  ghost predicate Vouched(c: Codec, d: Disk, e: Entry, data: Bytes) {
    && |data| == e.size
    && (e.size == 0 || (InArchive(d, e, data) && (e.sha != "" ==> c.sha(data) == e.sha)))
  }

  ghost predicate VouchedFor(c: Codec, d: Disk, es: seq<Entry>, id: string, data: Bytes) {
    exists e :: e in es && e.id == id && Vouched(c, d, e, data)
  }

  /** Every path of the snapshot is there, with bytes an entry of its id vouches for. */
  ghost predicate AllVouched(c: Codec, d: Disk, es: seq<Entry>, snap: seq<SnapFile>, dest: map<Bytes, Bytes>) {
    forall i :: 0 <= i < |snap| ==>
      snap[i].path in dest && VouchedFor(c, d, es, snap[i].id, dest[snap[i].path])
  }

  ghost predicate OnlySnapPaths(snap: seq<SnapFile>, dest: map<Bytes, Bytes>) {
    forall x :: x in dest ==> exists i :: 0 <= i < |snap| && snap[i].path == x
  }

  /** These bytes have the size the entry says, and the hash, if it says one, and are in its pack. */
  ghost predicate Good(c: Codec, d: Disk, e: Entry, data: Bytes) {
    InArchive(d, e, data) && |data| == e.size && (e.sha != "" ==> c.sha(data) == e.sha)
  }

  /** The entry's pack has the object as the entry says, or the object is empty and the pack does not have it. */
  ghost predicate Served(c: Codec, d: Disk, e: Entry) {
    ArchiveThere(d, e.pack) && if HasMember(d, e) then exists data :: Good(c, d, e, data) else e.size == 0
  }

  ghost predicate AllServed(c: Codec, d: Disk, es: seq<Entry>, snap: seq<SnapFile>) {
    forall i, e :: 0 <= i < |snap| && e in es && e.id == snap[i].id ==> Served(c, d, e)
  }

  /** No id has two entries, no place in a pack two ids, and no archive two members of a pathname; and the snapshot's
      paths differ. */
  ghost predicate Unambiguous(d: Disk, es: seq<Entry>, snap: seq<SnapFile>) {
    && DistinctEntryIds(es) && DistinctPackPaths(es) && DistinctSnapPaths(snap)
    && forall e :: e in es ==> DistinctMembers(MembersOf(d, e.pack))
  }

  /** The entries a reader of the index finds. */
  function Known(c: Codec, d: Disk): seq<Entry> { Entries(c, Closed(d).log) }

  /** A packed snapshot of an intact repository, the last index line of which may still lack its newline. */
  ghost predicate Ready(c: Codec, d: Disk, snap: seq<SnapFile>) {
    && Sound(c) && IndexSafe(c, Closed(d))
    && DistinctSnapPaths(snap) && AllPathsSafe(snap) && AllIndexed(Known(c, d), snap)
  }

  function FilePaths(snap: seq<SnapFile>): (paths: seq<Bytes>)
    ensures |paths| == |snap|
  {
    seq(|snap|, i requires 0 <= i < |snap| => snap[i].path)
  }

  /** Different files have different places, which are not below one another or below a symbolic link. */
  ghost predicate FilesApart(snap: seq<SnapFile>, others: Others) { Apart(FilePaths(snap) + others.links) }

  /** With its other paths safe too, and no two paths for one place. */
  ghost predicate Restorable(c: Codec, d: Disk, snap: seq<SnapFile>, others: Others) {
    Ready(c, d, snap) && OthersSafe(others) && FilesApart(snap, others)
  }

  /** The snapshot's paths and no others are there, each with the bytes its id's entry describes. */
  ghost predicate Restored(c: Codec, es: seq<Entry>, snap: seq<SnapFile>, dest: map<Bytes, Bytes>) {
    && (forall x :: x in dest <==> exists i :: 0 <= i < |snap| && snap[i].path == x)
    && (forall i, e :: 0 <= i < |snap| && e in es && e.id == snap[i].id ==>
          snap[i].path in dest && EntryFits(c, e, dest[snap[i].path]))
  }

  lemma InGroup(snap: seq<SnapFile>, groups: seq<Group>, i: nat) returns (g: nat, j: nat)
    requires GroupsHold(snap, groups) && i < |snap|
    ensures g < |groups| && j < |groups[g].paths| && groups[g].id == snap[i].id && groups[g].paths[j] == snap[i].path
  {
    g := GroupOf(snap, groups, i);
    assert snap[i].path in PathsOf(snap, groups[g].id);
    j :| 0 <= j < |groups[g].paths| && groups[g].paths[j] == snap[i].path;
  }

  lemma InSnapshot(snap: seq<SnapFile>, groups: seq<Group>, g: nat, j: nat) returns (i: nat)
    requires GroupsHold(snap, groups) && g < |groups| && j < |groups[g].paths|
    ensures i < |snap| && groups[g].id == snap[i].id && groups[g].paths[j] == snap[i].path
  {
    assert groups[g].paths[j] in PathsOf(snap, groups[g].id);
    i :| 0 <= i < |snap| && snap[i].id == groups[g].id && snap[i].path == groups[g].paths[j];
  }

  lemma SafeMirror(snap: seq<SnapFile>, groups: seq<Group>)
    requires GroupsHold(snap, groups)
    ensures AllAcceptable(groups) <==> AllPathsSafe(snap)
  {
    hide Acceptable, GroupsHold;
    if AllAcceptable(groups) {
      forall i | 0 <= i < |snap| ensures Acceptable(snap[i].path) { var g, j := InGroup(snap, groups, i); }
    }
    if AllPathsSafe(snap) {
      forall g, j | 0 <= g < |groups| && 0 <= j < |groups[g].paths| ensures Acceptable(groups[g].paths[j]) {
        var i := InSnapshot(snap, groups, g, j);
      }
    }
  }

  lemma IndexedMirror(es: seq<Entry>, snap: seq<SnapFile>, groups: seq<Group>)
    requires GroupsHold(snap, groups)
    ensures (forall g :: 0 <= g < |groups| ==> HasId(es, groups[g].id)) <==> AllIndexed(es, snap)
  {
    hide HasId;
    if forall g :: 0 <= g < |groups| ==> HasId(es, groups[g].id) {
      forall i | 0 <= i < |snap| ensures HasId(es, snap[i].id) { var g, j := InGroup(snap, groups, i); }
    }
    if AllIndexed(es, snap) {
      forall g | 0 <= g < |groups| ensures HasId(es, groups[g].id) { var i := InSnapshot(snap, groups, g, 0); }
    }
  }

  lemma RefusedMeans(c: Codec, log: Bytes, snap: seq<SnapFile>, others: Others)
    ensures Refused(c, log, snap, others)
            <==> || !AllPathsSafe(snap) || !OthersSafe(others)
                 || Loaded(c, ReadLines(log)) == None || !AllIndexed(Loaded(c, ReadLines(log)).value, snap)
  {}

  lemma RestorableMeans(c: Codec, d: Disk, snap: seq<SnapFile>, others: Others)
    ensures Restorable(c, d, snap, others) ==> Ready(c, d, snap) && OthersSafe(others)
  {}

  lemma ReadyMeans(c: Codec, d: Disk, snap: seq<SnapFile>)
    requires Ready(c, d, snap)
    ensures AllPathsSafe(snap) && Loaded(c, ReadLines(d.log)) == Some(Known(c, d))
              && AllIndexed(Known(c, d), snap)
    ensures forall others :: OthersSafe(others) ==> !Refused(c, d.log, snap, others)
  {
    ReadLinesWhole(d.log);
    SafeWritable(c, Closed(d));
    hide EntrySafe, DistinctEntryIds, DistinctPackPaths, AllPathsSafe, AllIndexed, DistinctSnapPaths, Loaded, ReadLines;
    WholeIndexLoads(c, Closed(d).log);
  }

  lemma ApartMirror(snap: seq<SnapFile>, groups: seq<Group>)
    requires DistinctSnapPaths(snap) && GroupsHold(snap, groups)
    ensures NamesApart(groups)
  {
    forall g: nat, j: nat, h: nat, k: nat | IsName(groups, g, j) && IsName(groups, h, k)
      ensures groups[g].paths[j] == groups[h].paths[k] ==> g == h && j == k
    {
      if groups[g].paths[j] == groups[h].paths[k] { PathsApart(snap, groups, g, j, h, k); }
    }
  }

  lemma SortedFrom(s: seq<Needed>, needed: seq<Needed>, a: Needed) returns (g: nat)
    requires multiset(s) == multiset(needed) && a in s
    ensures g < |needed| && needed[g] == a
  {
    assert a in multiset(needed);
    g :| 0 <= g < |needed| && needed[g] == a;
  }

  lemma {:induction false} OnceEach<T>(t: seq<T>, x: T)
    requires forall i, j :: 0 <= i < j < |t| ==> t[i] != t[j]
    ensures multiset(t)[x] <= 1
  {
    if t != [] {
      var n := |t| - 1;
      OnceEach(t[..n], x);
      assert t == t[..n] + [t[n]];
      assert t[n] !in t[..n];
    }
  }

  lemma PermutedApart<T>(s: seq<T>, t: seq<T>, i: nat, j: nat)
    requires multiset(s) == multiset(t) && forall a, b :: 0 <= a < b < |t| ==> t[a] != t[b]
    requires i < j < |s|
    ensures s[i] != s[j]
  {
    OnceEach(t, s[i]);
    if s[i] == s[j] { TwiceIn(s, i, j); }
  }

  lemma NeededApart(es: seq<Entry>, groups: seq<Group>, needed: seq<Needed>)
    requires Resolved(es, groups, needed) && NamesApart(groups)
    ensures forall a, b :: 0 <= a < b < |needed| ==> needed[a] != needed[b]
  {
    forall a, b | 0 <= a < b < |needed| ensures needed[a] != needed[b] {
      assert IsName(groups, a, 0) && IsName(groups, b, 0);
    }
  }

  lemma ClosedEntrySafe(c: Codec, d: Disk, e: Entry)
    ensures EntrySafe(c, Closed(d), e) <==> EntrySafe(c, d, e)
  {}

  lemma GroupNonEmpty(snap: seq<SnapFile>, groups: seq<Group>, g: nat)
    requires GroupsHold(snap, groups) && g < |groups|
    ensures groups[g].paths != []
  {}

  lemma InSorted(s: seq<Needed>, needed: seq<Needed>, g: nat) returns (k: nat)
    requires multiset(s) == multiset(needed) && g < |needed|
    ensures k < |s| && s[k] == needed[g]
  {
    assert needed[g] in multiset(s);
    k :| 0 <= k < |s| && s[k] == needed[g];
  }

  lemma SameEntry(es: seq<Entry>, a: Entry, b: Entry)
    requires DistinctEntryIds(es) && a in es && b in es && a.id == b.id
    ensures a == b
  {}

  // ---------------------------------------------------------------- what the statuses mean

  /** What restore works on: the groups of the snapshot, each with an entry, in whatever order. */
  ghost predicate Working(es: seq<Entry>, snap: seq<SnapFile>, groups: seq<Group>, needed: seq<Needed>,
          s: seq<Needed>) {
    GroupsHold(snap, groups) && Resolved(es, groups, needed) && multiset(s) == multiset(needed)
  }

  lemma NeededTargets(es: seq<Entry>, groups: seq<Group>, needed: seq<Needed>, g: nat, h: nat)
    requires Resolved(es, groups, needed) && NamesApart(groups) && g < |needed| && h < |needed|
    ensures Target(needed[g]) == groups[g].paths[0]
    ensures Target(needed[g]) == Target(needed[h]) ==> g == h
  {
    assert IsName(groups, g, 0) && IsName(groups, h, 0);
  }

  lemma WorkingApart(es: seq<Entry>, snap: seq<SnapFile>, groups: seq<Group>, needed: seq<Needed>, s: seq<Needed>)
    requires Working(es, snap, groups, needed, s) && DistinctSnapPaths(snap)
    ensures NamesApart(groups) && TargetsApart(s)
    ensures forall i, j :: 0 <= i < j < |s| ==> s[i] != s[j]
  {
    ApartMirror(snap, groups);
    hide Target, NamesApart, Resolved;
    NeededApart(es, groups, needed);
    forall i, j | 0 <= i < j < |s| ensures Target(s[i]) != Target(s[j]) && s[i] != s[j] {
      var g := SortedFrom(s, needed, s[i]);
      var h := SortedFrom(s, needed, s[j]);
      NeededTargets(es, groups, needed, g, h);
      PermutedApart(s, needed, i, j);
    }
  }

  /** Each object has an entry of its group's id. */
  lemma WorkingEntry(es: seq<Entry>, snap: seq<SnapFile>, groups: seq<Group>, needed: seq<Needed>, s: seq<Needed>,
          k: nat) returns (i: nat)
    requires Working(es, snap, groups, needed, s) && k < |s|
    ensures i < |snap| && s[k].entry in es && s[k].entry.id == snap[i].id && Target(s[k]) == snap[i].path
  {
    var g := SortedFrom(s, needed, s[k]);
    GroupNonEmpty(snap, groups, g);
    i := InSnapshot(snap, groups, g, 0);
  }

  /** And each line of the snapshot an object, whose entry is that of its id if no id has two. */
  lemma WorkingLine(es: seq<Entry>, snap: seq<SnapFile>, groups: seq<Group>, needed: seq<Needed>, s: seq<Needed>,
          i: nat) returns (k: nat, g: nat, j: nat)
    requires Working(es, snap, groups, needed, s) && i < |snap|
    ensures k < |s| && s[k].entry in es && s[k].entry.id == snap[i].id
    ensures g < |groups| && j < |groups[g].paths| && groups[g].paths[j] == snap[i].path
    ensures Target(s[k]) == groups[g].paths[0]
    ensures DistinctEntryIds(es) ==> forall e :: e in es && e.id == snap[i].id ==> e == s[k].entry
  {
    g, j := InGroup(snap, groups, i);
    k := InSorted(s, needed, g);
    if DistinctEntryIds(es) {
      forall e | e in es && e.id == snap[i].id ensures e == s[k].entry { SameEntry(es, e, s[k].entry); }
    }
  }

  lemma ClearPlace(es: seq<Entry>, snap: seq<SnapFile>, groups: seq<Group>, needed: seq<Needed>, s: seq<Needed>,
          i: nat, j: nat)
    requires Working(es, snap, groups, needed, s) && DistinctPackPaths(es) && DistinctEntryIds(es) && i < j < |s|
    requires s[i] != s[j]
    ensures s[i].entry.pack == s[j].entry.pack ==> s[i].entry.path != s[j].entry.path
  {
    var g := SortedFrom(s, needed, s[i]);
    var h := SortedFrom(s, needed, s[j]);
    var a :| 0 <= a < |es| && es[a] == s[i].entry;
    var b :| 0 <= b < |es| && es[b] == s[j].entry;
    GroupIdsApart(snap, groups, g, h);
  }

  lemma GroupIdsApart(snap: seq<SnapFile>, groups: seq<Group>, g: nat, h: nat)
    requires GroupsHold(snap, groups) && g < |groups| && h < |groups| && g != h
    ensures groups[g].id != groups[h].id
  {
    hide RightPaths;
    if g < h { assert groups[g].id != groups[h].id; } else { assert groups[h].id != groups[g].id; }
  }

  lemma WorkingClear(d: Disk, es: seq<Entry>, snap: seq<SnapFile>, groups: seq<Group>, needed: seq<Needed>,
          s: seq<Needed>)
    requires Working(es, snap, groups, needed, s) && Unambiguous(d, es, snap)
    ensures PlacesClear(d, s)
  {
    WorkingApart(es, snap, groups, needed, s);
    hide Working, Target, DistinctEntryIds, DistinctPackPaths, DistinctMembers, MembersOf, NamesApart;
    forall k | 0 <= k < |s| ensures DistinctMembers(MembersOf(d, s[k].entry.pack)) {
      var i := WorkingEntry(es, snap, groups, needed, s, k);
    }
    forall i, j | 0 <= i < j < |s|
      ensures s[i].entry.pack == s[j].entry.pack ==> s[i].entry.path != s[j].entry.path
    {
      ClearPlace(es, snap, groups, needed, s, i, j);
    }
  }

  /** Some archive is missing exactly if the snapshot needs one that is. */
  lemma MissingMirror(d: Disk, es: seq<Entry>, snap: seq<SnapFile>, groups: seq<Group>, needed: seq<Needed>,
          s: seq<Needed>)
    requires Working(es, snap, groups, needed, s)
    ensures (exists k :: 0 <= k < |s| && !ArchiveThere(d, s[k].entry.pack)) ==> ArchiveMissing(d, es, snap)
    ensures DistinctEntryIds(es) && ArchiveMissing(d, es, snap) ==>
              exists k :: 0 <= k < |s| && !ArchiveThere(d, s[k].entry.pack)
  {
    hide Working, ArchiveThere, DistinctEntryIds, Target;
    if k :| 0 <= k < |s| && !ArchiveThere(d, s[k].entry.pack) {
      var i := WorkingEntry(es, snap, groups, needed, s, k);
    }
    if DistinctEntryIds(es) && ArchiveMissing(d, es, snap) {
      var i, e :| 0 <= i < |snap| && e in es && e.id == snap[i].id && !ArchiveThere(d, e.pack);
      var k, g, j := WorkingLine(es, snap, groups, needed, s, i);
    }
  }

  /** Every object was written, or is empty and gets created. */
  ghost predicate AllThere(s: seq<Needed>, p: Pass)
    requires |p.written| == |s|
  {
    forall k :: 0 <= k < |s| ==> p.written[k] || s[k].entry.size == 0
  }

  /** What is at the targets after the empty files were created. */
  ghost predicate Completed(s: seq<Needed>, p: Pass, dest: map<Bytes, Bytes>)
    requires |p.written| == |s|
  {
    && (forall x :: x in dest <==> x in p.dest || Emptied(s, p, |s|, x))
    && (forall x :: x in dest ==> if Emptied(s, p, |s|, x) then dest[x] == [] else dest[x] == p.dest[x])
  }

  lemma WrittenNotEmptied(s: seq<Needed>, p: Pass, k: nat)
    requires TargetsApart(s) && k < |s| == |p.written| && p.written[k]
    ensures !Emptied(s, p, |s|, Target(s[k]))
  {
    hide Target;
  }

  /** If no warning was given and nothing is missing, what lies at each target is vouched for. */
  lemma TargetVouched(c: Codec, d: Disk, s: seq<Needed>, p: Pass, dest: map<Bytes, Bytes>, k: nat)
    requires TargetsApart(s) && Extracted(c, d, s, |s|, p) && Completed(s, p, dest) && AllThere(s, p) && k < |s|
    ensures Target(s[k]) in dest && (!p.warned ==> Vouched(c, d, s[k].entry, dest[Target(s[k])]))
  {
    hide Target, InArchive;
    if p.written[k] {
      WrittenNotEmptied(s, p, k);
      assert p.warned || !Wrong(c, s, p, k);
    } else {
      assert Emptied(s, p, |s|, Target(s[k]));
    }
  }

  /** Then the first names are there and nothing else. */
  lemma FirstNamesThere(c: Codec, d: Disk, es: seq<Entry>, snap: seq<SnapFile>, groups: seq<Group>,
          needed: seq<Needed>, s: seq<Needed>, p: Pass, dest: map<Bytes, Bytes>)
    requires Working(es, snap, groups, needed, s) && DistinctSnapPaths(snap) && Extracted(c, d, s, |s|, p)
    requires OnlyTargets(s, |s|, p) && Completed(s, p, dest) && AllThere(s, p)
    ensures OnlyFirstNames(groups, dest)
  {
    WorkingApart(es, snap, groups, needed, s);
    hide Target, Wrong, InArchive, NamesApart, TargetsApart;
    forall g | 0 <= g < |groups| && groups[g].paths != [] ensures groups[g].paths[0] in dest {
      var k := InSorted(s, needed, g);
      NeededTargets(es, groups, needed, g, g);
      TargetVouched(c, d, s, p, dest, k);
    }
    forall x | x in dest ensures exists g :: 0 <= g < |groups| && groups[g].paths != [] && groups[g].paths[0] == x {
      var k :| 0 <= k < |s| && Target(s[k]) == x;
      var g := SortedFrom(s, needed, s[k]);
      NeededTargets(es, groups, needed, g, g);
      GroupNonEmpty(snap, groups, g);
    }
  }

  /** Status 0 vouches for every path of the snapshot. */
  lemma CleanVouches(c: Codec, d: Disk, es: seq<Entry>, snap: seq<SnapFile>, groups: seq<Group>,
          needed: seq<Needed>, s: seq<Needed>, p: Pass, before: map<Bytes, Bytes>, dest: map<Bytes, Bytes>)
    requires Working(es, snap, groups, needed, s) && DistinctSnapPaths(snap) && Extracted(c, d, s, |s|, p)
    requires Completed(s, p, before) && AllThere(s, p) && !p.warned && LinkedTo(groups, before, |groups|, 1, dest)
    ensures AllVouched(c, d, es, snap, dest)
  {
    WorkingApart(es, snap, groups, needed, s);
    hide Working, Target, Extracted, Vouched, NamesApart, TargetsApart, Completed, AllThere;
    forall i | 0 <= i < |snap|
      ensures snap[i].path in dest && VouchedFor(c, d, es, snap[i].id, dest[snap[i].path])
    {
      var k, g, j := WorkingLine(es, snap, groups, needed, s, i);
      TargetVouched(c, d, s, p, before, k);
      assert Reached(groups, |groups|, 1, g, j);
    }
  }

  /** Object by object: one is written right, or empty and not in its pack, exactly if it is served. */
  lemma ServedOne(c: Codec, d: Disk, s: seq<Needed>, p: Pass, k: nat)
    requires Extracted(c, d, s, |s|, p) && NoneMissed(d, s, |s|, p) && PlacesClear(d, s) && k < |s|
    requires ArchiveThere(d, s[k].entry.pack)
    ensures Served(c, d, s[k].entry) <==> !Wrong(c, s, p, k) && (p.written[k] || s[k].entry.size == 0)
  {
    hide Target;
    var e := s[k].entry;
    if p.written[k] {
      var got := p.dest[Target(s[k])];
      var x :| x in MembersOf(d, e.pack) && x.path == e.path && x.data == got;
      OneMember(MembersOf(d, e.pack), x);
      if Served(c, d, e) {
        var data :| Good(c, d, e, data);
        assert data == got;
      }
      assert !Wrong(c, s, p, k) ==> Good(c, d, e, got);
    }
  }

  lemma OneMember(ms: seq<Member>, x: Member)
    requires DistinctMembers(ms) && x in ms
    ensures forall m :: m in ms && m.path == x.path ==> m == x
  {
    forall m | m in ms && m.path == x.path ensures m == x {
      var i :| 0 <= i < |ms| && ms[i] == x;
      var j :| 0 <= j < |ms| && ms[j] == m;
      assert i == j;
    }
  }

  /** With nothing ambiguous, restore is clean exactly if every object of the snapshot is served. */
  lemma ServedExactly(c: Codec, d: Disk, es: seq<Entry>, snap: seq<SnapFile>, groups: seq<Group>,
          needed: seq<Needed>, s: seq<Needed>, p: Pass)
    requires Working(es, snap, groups, needed, s) && Unambiguous(d, es, snap)
    requires Extracted(c, d, s, |s|, p) && NoneMissed(d, s, |s|, p)
    requires forall k :: 0 <= k < |s| ==> ArchiveThere(d, s[k].entry.pack)
    ensures AllServed(c, d, es, snap) <==> !p.warned && AllThere(s, p)
  {
    WorkingClear(d, es, snap, groups, needed, s);
    assert DistinctEntryIds(es);
    hide Working, Target, PlacesClear, Served, ArchiveThere, Unambiguous, Wrong, DistinctEntryIds;
    forall k | 0 <= k < |s|
      ensures Served(c, d, s[k].entry) <==> !Wrong(c, s, p, k) && (p.written[k] || s[k].entry.size == 0)
    {
      ServedOne(c, d, s, p, k);
    }
    NoneWrong(c, s, p);
    if AllServed(c, d, es, snap) {
      forall k | 0 <= k < |s| ensures Served(c, d, s[k].entry) {
        var i := WorkingEntry(es, snap, groups, needed, s, k);
      }
    }
    if !p.warned && AllThere(s, p) {
      forall i, e | 0 <= i < |snap| && e in es && e.id == snap[i].id ensures Served(c, d, e) {
        var k, g, j := WorkingLine(es, snap, groups, needed, s, i);
      }
    }
  }

  lemma NoneWrong(c: Codec, s: seq<Needed>, p: Pass)
    ensures (forall k: nat :: !Wrong(c, s, p, k)) <==> (forall k: nat :: k < |s| ==> !Wrong(c, s, p, k))
  {}

  /** Whatever is written is a path of the snapshot. */
  lemma WorkingPaths(es: seq<Entry>, snap: seq<SnapFile>, groups: seq<Group>, needed: seq<Needed>, s: seq<Needed>,
          dest: map<Bytes, Bytes>)
    requires Working(es, snap, groups, needed, s)
    requires forall x :: x in dest ==> exists k :: 0 <= k < |s| && Target(s[k]) == x
    ensures OnlySnapPaths(snap, dest)
  {
    hide Working, Target;
    forall x | x in dest ensures exists i :: 0 <= i < |snap| && snap[i].path == x {
      var k :| 0 <= k < |s| && Target(s[k]) == x;
      var i := WorkingEntry(es, snap, groups, needed, s, k);
    }
  }

  lemma CompletedTargets(s: seq<Needed>, p: Pass, dest: map<Bytes, Bytes>)
    requires |p.written| == |s| && OnlyTargets(s, |s|, p) && Completed(s, p, dest)
    ensures forall x :: x in dest ==> exists k :: 0 <= k < |s| && Target(s[k]) == x
  {
    hide Target;
  }

  lemma PartTargets(s: seq<Needed>, p: Pass)
    requires OnlyTargets(s, |p.written|, p)
    ensures forall x :: x in p.dest ==> exists k :: 0 <= k < |s| && Target(s[k]) == x
  {
    hide Target;
  }

  lemma LinkedPaths(snap: seq<SnapFile>, groups: seq<Group>, before: map<Bytes, Bytes>, dest: map<Bytes, Bytes>)
    requires GroupsHold(snap, groups) && OnlySnapPaths(snap, before) && OnlyNames(groups, before, dest)
    ensures OnlySnapPaths(snap, dest)
  {
    hide GroupsHold;
    forall x | x in dest ensures exists i :: 0 <= i < |snap| && snap[i].path == x {
      if x !in before {
        var g: nat, j: nat :| IsName(groups, g, j) && groups[g].paths[j] == x;
        var i := InSnapshot(snap, groups, g, j);
      }
    }
  }

  lemma CompletedIf(s: seq<Needed>, p: Pass, dest: map<Bytes, Bytes>)
    requires |p.written| == |s|
    requires forall x :: x in dest <==> x in p.dest || Emptied(s, p, |s|, x)
    requires forall x :: x in dest ==> if Emptied(s, p, |s|, x) then dest[x] == [] else dest[x] == p.dest[x]
    ensures Completed(s, p, dest)
  {}

  lemma AllThereMeans(s: seq<Needed>, p: Pass)
    requires |p.written| == |s|
    ensures AllThere(s, p) <==> !(exists k :: 0 <= k < |s| && !p.written[k] && s[k].entry.size != 0)
  {}

  lemma NothingWritten(snap: seq<SnapFile>)
    ensures OnlySnapPaths(snap, map[])
  {}

  /** No id of the snapshot has a path twice. */
  ghost predicate NamesOnce(snap: seq<SnapFile>) {
    forall i, j :: 0 <= i < j < |snap| && snap[i].id == snap[j].id ==> snap[i].path != snap[j].path
  }

  /** Line `i` comes behind the lines of its id that are before it. */
  lemma {:induction false} PlaceInGroup(snap: seq<SnapFile>, i: nat) returns (at: nat)
    requires i < |snap|
    ensures at < |PathsOf(snap, snap[i].id)| && PathsOf(snap, snap[i].id)[at] == snap[i].path
    ensures at == |PathsOf(snap[..i], snap[i].id)|
  {
    var n := |snap| - 1;
    if i < n {
      at := PlaceInGroup(snap[..n], i);
      assert snap[..n][..i] == snap[..i];
    } else {
      at := |PathsOf(snap[..n], snap[n].id)|;
    }
  }

  lemma {:induction false} FewerBefore(snap: seq<SnapFile>, i: nat, k: nat, id: string)
    requires i < k <= |snap| && snap[i].id == id
    ensures |PathsOf(snap[..i], id)| < |PathsOf(snap[..k], id)|
    decreases k
  {
    assert snap[..k][..k - 1] == snap[..k - 1];
    if i + 1 < k { FewerBefore(snap, i, k - 1, id); }
  }

  lemma NamesOnceIf(snap: seq<SnapFile>, groups: seq<Group>)
    requires GroupsHold(snap, groups) && NoneTwice(groups, |groups|, 1)
    ensures NamesOnce(snap)
  {
    forall i, j | 0 <= i < j < |snap| && snap[i].id == snap[j].id ensures snap[i].path != snap[j].path {
      var g := GroupOf(snap, groups, i);
      var a := PlaceInGroup(snap, i);
      var b := PlaceInGroup(snap, j);
      FewerBefore(snap, i, j, snap[i].id);
      assert groups[g].paths == PathsOf(snap, snap[i].id);
    }
  }

  lemma ServedThere(c: Codec, d: Disk, e: Entry)
    ensures Served(c, d, e) ==> ArchiveThere(d, e.pack)
  {}

  lemma ServedNotMissing(c: Codec, d: Disk, es: seq<Entry>, snap: seq<SnapFile>)
    ensures AllServed(c, d, es, snap) ==> !ArchiveMissing(d, es, snap)
  {
    hide ArchiveThere, Served;
    forall e ensures Served(c, d, e) ==> ArchiveThere(d, e.pack) { ServedThere(c, d, e); }
  }

  lemma UnambiguousPaths(d: Disk, es: seq<Entry>, snap: seq<SnapFile>)
    ensures Unambiguous(d, es, snap) ==> DistinctSnapPaths(snap) && DistinctEntryIds(es)
  {}

  lemma WorkingIs(es: seq<Entry>, snap: seq<SnapFile>, groups: seq<Group>, needed: seq<Needed>, s: seq<Needed>)
    requires GroupsHold(snap, groups) && Resolved(es, groups, needed) && multiset(s) == multiset(needed)
    ensures Working(es, snap, groups, needed, s)
  {}

  // ---------------------------------------------------------------- an intact repository

  /** In a pack in place an entry's member is found, and what it holds is what the entry says. */
  lemma SafeMember(c: Codec, d: Disk, e: Entry)
    requires EntrySafe(c, d, e)
    ensures HasMember(d, e) && forall data :: InArchive(d, e, data) ==> EntryFits(c, e, data)
  {
    var ms := MembersOf(d, e.pack);
    var x :| x in ms && Holds(c, x, e);
    forall data | InArchive(d, e, data) ensures EntryFits(c, e, data) {
      var m :| m in ms && m.path == e.path && m.data == data;
      var i :| 0 <= i < |ms| && ms[i] == x;
      var j :| 0 <= j < |ms| && ms[j] == m;
      assert i == j;
    }
  }

  lemma InPlaceMembers(c: Codec, d: Disk, n: nat)
    requires PackInPlace(c, d, n)
    ensures ArchiveThere(d, n) && MembersOf(d, n) == d.packs[Archive(n)].members && DistinctMembers(MembersOf(d, n))
  {}

  /** A safe entry is served, by bytes that it describes. */
  lemma SafeServed(c: Codec, d: Disk, e: Entry)
    requires EntrySafe(c, d, e)
    ensures Served(c, d, e) && DistinctMembers(MembersOf(d, e.pack))
  {
    hide PackInPlace;
    InPlaceMembers(c, d, e.pack);
    var x :| x in MembersOf(d, e.pack) && Holds(c, x, e);
    assert InArchive(d, e, x.data);
    assert Good(c, d, e, x.data);
  }

  /** In an intact repository nothing is ambiguous and everything served. */
  lemma ReadyServed(c: Codec, d: Disk, snap: seq<SnapFile>)
    requires Ready(c, d, snap)
    ensures Unambiguous(d, Known(c, d), snap) && AllServed(c, d, Known(c, d), snap)
  {
    hide EntrySafe, Served, DistinctMembers, LogHolds, Entries, DistinctPackPaths, DistinctEntryIds;
    forall e | e in Known(c, d) ensures Served(c, d, e) && DistinctMembers(MembersOf(d, e.pack)) {
      ClosedEntrySafe(c, d, e);
      SafeServed(c, d, e);
    }
  }

  /** What is vouched for is what a safe entry describes. */
  lemma VouchedFits(c: Codec, d: Disk, e: Entry, data: Bytes)
    requires Sound(c) && EntrySafe(c, d, e) && Vouched(c, d, e, data)
    ensures EntryFits(c, e, data)
  {
    SafeMember(c, d, e);
    var x :| x in MembersOf(d, e.pack) && Holds(c, x, e);
    if e.size == 0 { assert data == x.data == []; }
  }

  lemma ReadyRestored(c: Codec, d: Disk, snap: seq<SnapFile>, dest: map<Bytes, Bytes>)
    requires Ready(c, d, snap) && AllVouched(c, d, Known(c, d), snap, dest) && OnlySnapPaths(snap, dest)
    ensures Restored(c, Known(c, d), snap, dest)
  {
    hide Vouched, EntryFits, EntrySafe, Sound, DistinctEntryIds, Known, Ready;
    var es := Known(c, d);
    ReadyFacts(c, d, snap);
    forall i, e | 0 <= i < |snap| && e in es && e.id == snap[i].id
      ensures snap[i].path in dest && EntryFits(c, e, dest[snap[i].path])
    {
      var x :| x in es && x.id == snap[i].id && Vouched(c, d, x, dest[snap[i].path]);
      SameEntry(es, e, x);
      ReadyEntry(c, d, snap, e);
      VouchedFits(c, d, e, dest[snap[i].path]);
    }
  }

  lemma ReadyFacts(c: Codec, d: Disk, snap: seq<SnapFile>)
    requires Ready(c, d, snap)
    ensures Sound(c) && DistinctEntryIds(Known(c, d))
  {}

  lemma ReadyEntry(c: Codec, d: Disk, snap: seq<SnapFile>, e: Entry)
    requires Ready(c, d, snap) && e in Known(c, d)
    ensures EntrySafe(c, d, e)
  {
    ClosedEntrySafe(c, d, e);
    hide EntrySafe, LogHolds, DistinctPackPaths, DistinctEntryIds, Entries;
  }

  /** Returns -1 if it gives up, 1 if it warned and 0 otherwise, and the files below the destination.  Nothing is
      assumed of the repository: it gives up for an archive that is missing; status 0 vouches for what was written, and,
      if nothing is ambiguous, is returned exactly if every object can be had as its entry says. */
  method TpRestore(c: Codec, d: Disk, snap: seq<SnapFile>, others: Others) returns (rc: int, dest: map<Bytes, Bytes>)
    ensures rc == -1 || rc == 0 || rc == 1
    ensures OnlySnapPaths(snap, dest)
    ensures Refused(c, d.log, snap, others) ==> rc == -1 && dest == map[]
    ensures !Refused(c, d.log, snap, others) ==>
              var es := Loaded(c, ReadLines(d.log)).value;
              && (rc == -1 ==> ArchiveMissing(d, es, snap))
              && (DistinctEntryIds(es) ==> (rc == -1 <==> ArchiveMissing(d, es, snap)))
              && (rc == 0 ==> NamesOnce(snap))
              && (DistinctSnapPaths(snap) && rc == 0 ==> AllVouched(c, d, es, snap, dest))
              && (Unambiguous(d, es, snap) ==> (rc == 0 <==> AllServed(c, d, es, snap)))
    ensures Restorable(c, d, snap, others) ==> rc == 0 && Restored(c, Known(c, d), snap, dest)
  {
    hide *;
    var groups := CollectLinks(snap);
    LinkedHolds(snap);
    SafeMirror(snap, groups);
    dest := map[];
    NothingWritten(snap);
    var unsafe := CountUnsafe(groups, others);
    RefusedMeans(c, d.log, snap, others);
    if Ready(c, d, snap) { ReadyMeans(c, d, snap); }
    RestorableMeans(c, d, snap, others);
    if unsafe > 0 { return -1, dest; }
    var index := new Index();
    var loaded := index.Load(c, d.log);
    if loaded != 0 { return -1, dest; }
    ghost var es := Loaded(c, ReadLines(d.log)).value;
    IndexedMirror(es, snap, groups);
    var missing, needed := Resolve(index, groups, es);
    if missing > 0 { return -1, dest; }
    var s := SortByPack(needed);
    WorkingIs(es, snap, groups, needed, s);
    MissingMirror(d, es, snap, groups, needed, s);
    ServedNotMissing(c, d, es, snap);
    UnambiguousPaths(d, es, snap);
    var p;
    rc, p := ExtractPacks(c, d, s);
    if Ready(c, d, snap) { ReadyServed(c, d, snap); }
    PartTargets(s, p);
    WorkingPaths(es, snap, groups, needed, s, p.dest);
    if rc != 0 { return -1, p.dest; }
    var noFile, noLink;
    dest, noFile := CreateEmpty(s, p);
    ghost var firsts := dest;
    CompletedIf(s, p, dest);
    AllThereMeans(s, p);
    CompletedTargets(s, p, dest);
    WorkingPaths(es, snap, groups, needed, s, dest);
    if DistinctSnapPaths(snap) {
      WorkingApart(es, snap, groups, needed, s);
      if AllThere(s, p) { FirstNamesThere(c, d, es, snap, groups, needed, s, p, firsts); }
    }
    if Unambiguous(d, es, snap) {
      WorkingClear(d, es, snap, groups, needed, s);
      ServedExactly(c, d, es, snap, groups, needed, s, p);
    }
    dest, noLink := LinkRest(groups, dest);
    LinkedPaths(snap, groups, firsts, dest);
    if !noLink { NamesOnceIf(snap, groups); }
    if DistinctSnapPaths(snap) && AllThere(s, p) && !p.warned {
      CleanVouches(c, d, es, snap, groups, needed, s, p, firsts, dest);
    }
    rc := if p.warned || noFile || noLink then 1 else 0;
    if Ready(c, d, snap) { ReadyRestored(c, d, snap, dest); }
  }
}
