/** Writing one pack and committing it: `write_one_pack_and_commit`, one disk step at a time. */
module Commit {
  import opened Types
  import opened LineLog
  import opened OnDisk

  function Members(objs: seq<Obj>): (ms: seq<Member>)
    ensures |ms| == |objs|
  {
    seq(|objs|, i requires 0 <= i < |objs| => Member(objs[i].path, objs[i].data))
  }

  function ArchiveOf(objs: seq<Obj>): File { ArchiveFile(Members(objs)) }

  function ManifestOf(c: Codec, objs: seq<Obj>): File {
    ManifestFile(seq(|objs|, i requires 0 <= i < |objs| =>
      ManifestEntry(objs[i].id, objs[i].path, |objs[i].data|, c.sha(objs[i].data))))
  }

  function EntryFor(c: Codec, n: nat, o: Obj): Entry {
    Entry(o.id, n, |o.data|, c.sha(o.data), o.path, o.mtime)
  }

  function EntriesFor(c: Codec, n: nat, objs: seq<Obj>): (es: seq<Entry>)
    ensures |es| == |objs|
  {
    seq(|objs|, i requires 0 <= i < |objs| => EntryFor(c, n, objs[i]))
  }

  /** The bytes one pack appends to the index. */
  function IndexText(c: Codec, n: nat, objs: seq<Obj>): Bytes { Text(Texts(c, EntriesFor(c, n, objs))) }

  function ArchiveLine(c: Codec, n: nat, objs: seq<Obj>): SumLine { SumLine(c.digest(ArchiveOf(objs)), Archive(n)) }

  function ManifestLine(c: Codec, n: nat, objs: seq<Obj>): SumLine { SumLine(c.digest(ManifestOf(c, objs)),
          Manifest(n)) }

  // ---------------------------------------------------------------- the states passed through

  /** While the archive is being written, under its scratch name. */
  function Writing(d: Disk, n: nat, objs: seq<Obj>, j: nat): Disk
    requires j <= |objs|
  {
    d.(packs := d.packs[ArchivePart(n) := ArchiveOf(objs[..j])])
  }

  function Renamed(d: Disk, n: nat, objs: seq<Obj>): Disk {
    d.(packs := (d.packs - {ArchivePart(n)})[Archive(n) := ArchiveOf(objs)])
  }

  function ManifestWritten(c: Codec, d: Disk, n: nat, objs: seq<Obj>): Disk {
    var r := Renamed(d, n, objs);
    r.(packs := r.packs[ManifestPart(n) := ManifestOf(c, objs)])
  }

  function ManifestRenamed(c: Codec, d: Disk, n: nat, objs: seq<Obj>): Disk {
    var r := ManifestWritten(c, d, n, objs);
    r.(packs := (r.packs - {ManifestPart(n)})[Manifest(n) := ManifestOf(c, objs)])
  }

  function Summed(c: Codec, d: Disk, n: nat, objs: seq<Obj>, lines: nat): Disk
    requires lines <= 2
  {
    var r := ManifestRenamed(c, d, n, objs);
    r.(sums := d.sums + [ArchiveLine(c, n, objs), ManifestLine(c, n, objs)][..lines])
  }

  /** With the first `p` bytes of the index text appended. */
  function Appended(c: Codec, d: Disk, n: nat, objs: seq<Obj>, p: nat): Disk
    requires p <= |IndexText(c, n, objs)|
  {
    Summed(c, d, n, objs, 2).(log := d.log + IndexText(c, n, objs)[..p])
  }

  function Committed(c: Codec, d: Disk, n: nat, objs: seq<Obj>): Disk {
    Appended(c, d, n, objs, |IndexText(c, n, objs)|)
  }

  /** How many states a commit passes through; the last is `Committed`. */
  function CommitLength(c: Codec, n: nat, objs: seq<Obj>): nat { |objs| + 6 + |IndexText(c, n, objs)| }

  /** The state after step `j`: opening the scratch archive is step 0, then one step an object, the rename,
      the manifest's write and rename, two checksum lines, and one step a byte of the index append. */
  function CommitAt(c: Codec, d: Disk, n: nat, objs: seq<Obj>, j: nat): Disk
    requires j < CommitLength(c, n, objs)
  {
    var m := |objs|;
    if j <= m then Writing(d, n, objs, j)
    else if j == m + 1 then Renamed(d, n, objs)
    else if j == m + 2 then ManifestWritten(c, d, n, objs)
    else if j == m + 3 then ManifestRenamed(c, d, n, objs)
    else if j == m + 4 then Summed(c, d, n, objs, 1)
    else Appended(c, d, n, objs, j - m - 5)
  }

  function CommitStates(c: Codec, d: Disk, n: nat, objs: seq<Obj>): (s: seq<Disk>)
    ensures |s| == CommitLength(c, n, objs)
    ensures s[|s| - 1] == Committed(c, d, n, objs)
  {
    seq(CommitLength(c, n, objs), j requires 0 <= j < CommitLength(c, n, objs) => CommitAt(c, d, n, objs, j))
  }

  // ---------------------------------------------------------------- safety at every step

  /** What recovery and numbering leave a commit to start from. */
  ghost predicate ReadyToCommit(c: Codec, d: Disk, n: nat, objs: seq<Obj>) {
    && Safe(c, d) && Terminated(d.log)
    && n < PACK_LIMIT && (forall m: nat :: Archive(m) in d.packs ==> m < n)
    && DistinctIds(objs) && DistinctPaths(objs) && AllStorable(objs)
    && (forall o, e :: o in objs && e in Entries(c, d.log) ==> o.id != e.id)
  }

  ghost predicate AllStorable(objs: seq<Obj>) { forall o :: o in objs ==> WritableObj(o) }

  lemma EntriesWritable(c: Codec, n: nat, objs: seq<Obj>)
    requires Sound(c) && AllStorable(objs) && n < PACK_LIMIT
    ensures AllWritable(EntriesFor(c, n, objs))
  {
    forall i | 0 <= i < |objs| ensures Writable(EntriesFor(c, n, objs)[i]) { assert objs[i] in objs; }
  }

  /** Nothing but pack `n`'s own files changes, and no checksum line goes. */
  ghost predicate OnlyPack(d: Disk, t: Disk, n: nat) {
    && (forall name: Name :: name.n != n ==> FileKept(d, t, name) && (name in t.packs ==> name in d.packs))
    && (forall l :: l in d.sums ==> l in t.sums)
  }

  lemma OnlyPackSafe(c: Codec, d: Disk, t: Disk, n: nat, objs: seq<Obj>)
    requires ReadyToCommit(c, d, n, objs) && OnlyPack(d, t, n) && t.log == d.log
    ensures Safe(c, t) && Preserved(c, d, t)
  {
    forall e | e in Entries(c, d.log) ensures FileKept(d, t, Archive(e.pack)) && FileKept(d, t, Manifest(e.pack)) {
      assert EntrySafe(c, d, e);
    }
    SafeFrame(c, d, t);
  }

  /** The new pack is in place once both checksum lines are. */
  lemma NewPackInPlace(c: Codec, d: Disk, n: nat, objs: seq<Obj>)
    requires ReadyToCommit(c, d, n, objs)
    ensures PackInPlace(c, Summed(c, d, n, objs, 2), n)
  {
    var t := Summed(c, d, n, objs, 2);
    assert t.sums == d.sums + [ArchiveLine(c, n, objs), ManifestLine(c, n, objs)];
    assert ArchiveLine(c, n, objs) in t.sums && ManifestLine(c, n, objs) in t.sums;
  }

  lemma NewEntrySafe(c: Codec, d: Disk, n: nat, objs: seq<Obj>, i: nat)
    requires Sound(c) && ReadyToCommit(c, d, n, objs) && i < |objs|
    ensures EntrySafe(c, Summed(c, d, n, objs, 2), EntryFor(c, n, objs[i]))
  {
    NewPackInPlace(c, d, n, objs);
    assert objs[i] in objs;
    var m := Members(objs)[i];
    assert m in Members(objs) && Holds(c, m, EntryFor(c, n, objs[i]));
    ManifestHas(c, n, objs, i);
  }

  lemma ManifestHas(c: Codec, n: nat, objs: seq<Obj>, i: nat)
    requires i < |objs|
    ensures InManifest(ManifestOf(c, objs).entries, EntryFor(c, n, objs[i]))
  {
    var es := ManifestOf(c, objs).entries;
    assert es[i] in es;
  }

  /** What has a pack's final name is whole: half-written files have only scratch names. */
  lemma FinalNamesWhole(c: Codec, d: Disk, n: nat, objs: seq<Obj>, j: nat, name: Name)
    requires j < CommitLength(c, n, objs) && name !in d.packs && !name.IsPart()
    ensures var s, t := CommitAt(c, d, n, objs, j), Committed(c, d, n, objs);
            name in s.packs ==> name in t.packs && s.packs[name] == t.packs[name]
  {
    hide IndexText, ArchiveOf, ManifestOf;
  }

  /** Archive and manifest of a committed pack: every object is in both, once and in the order given. */
  lemma CommittedContents(c: Codec, d: Disk, n: nat, objs: seq<Obj>)
    requires DistinctIds(objs) && DistinctPaths(objs)
    ensures var t := Committed(c, d, n, objs);
            && Archive(n) in t.packs && t.packs[Archive(n)].ArchiveFile?
            && Manifest(n) in t.packs && t.packs[Manifest(n)].ManifestFile?
            && var ms, es := t.packs[Archive(n)].members, t.packs[Manifest(n)].entries;
            && |ms| == |es| == |objs|
            && (forall i :: 0 <= i < |objs| ==> ms[i].path == objs[i].path && ms[i].data == objs[i].data)
            && (forall i :: 0 <= i < |objs| ==> es[i].id == objs[i].id && es[i].path == objs[i].path)
            && (forall i :: 0 <= i < |objs| ==> es[i].size == |objs[i].data| && es[i].sha == c.sha(objs[i].data))
            && (forall i, j :: 0 <= i < j < |objs| ==> es[i].id != es[j].id && es[i].path != es[j].path)
  {
    hide IndexText;
  }

  /** A byte prefix of the append amounts to a line prefix of the new entries. */
  lemma AppendedEntries(c: Codec, d: Disk, n: nat, objs: seq<Obj>, p: nat)
    requires Sound(c) && Safe(c, d) && Terminated(d.log) && AllStorable(objs) && n < PACK_LIMIT
    requires p <= |IndexText(c, n, objs)|
    ensures var fs := EntriesFor(c, n, objs);
            var k := WholeLines(Texts(c, fs), p);
            var log := d.log + IndexText(c, n, objs)[..p];
            && LogHolds(c, log, Entries(c, d.log) + fs[..k])
            && Entries(c, log) == Entries(c, d.log) + fs[..k]
            && (p == |IndexText(c, n, objs)| ==> k == |objs| && Terminated(log))
  {
    var es, fs := Entries(c, d.log), EntriesFor(c, n, objs);
    var lines := Texts(c, fs);
    var k := WholeLines(lines, p);
    var log := d.log + IndexText(c, n, objs)[..p];
    SafeWritable(c, d);
    EntriesWritable(c, n, objs);
    TextsPlain(c, fs);
    TornAppend(d.log, lines, p);
    TextsTake(c, fs, k);
    TextsConcat(c, es, fs[..k]);
    LogHoldsEntries(c, log, es + fs[..k]);
    if p == |IndexText(c, n, objs)| {
      assert IndexText(c, n, objs)[..p] == IndexText(c, n, objs);
      LinesOfText(d.log, lines);
    }
  }

  /** Wherever the append stops, the index has the old entries alone or all the new ones too. */
  ghost predicate AllOrNothing(c: Codec, d: Disk, n: nat, objs: seq<Obj>) {
    forall p: nat :: p <= |IndexText(c, n, objs)| ==> WholeOrNone(c, d, n, objs, p)
  }

  ghost predicate WholeOrNone(c: Codec, d: Disk, n: nat, objs: seq<Obj>, p: nat)
    requires p <= |IndexText(c, n, objs)|
  {
    var es := Entries(c, Appended(c, d, n, objs, p).log);
    es == Entries(c, d.log) || es == Entries(c, d.log) + EntriesFor(c, n, objs)
  }

  /** An append that stops after its first line has committed the first object and no other. */
  lemma HalfCommitted(c: Codec, d: Disk, n: nat, objs: seq<Obj>) returns (p: nat)
    requires Sound(c) && ReadyToCommit(c, d, n, objs) && |objs| >= 2
    ensures p <= |IndexText(c, n, objs)|
    ensures Entries(c, Appended(c, d, n, objs, p).log) == Entries(c, d.log) + [EntryFor(c, n, objs[0])]
    ensures !WholeOrNone(c, d, n, objs, p)
  {
    var fs := EntriesFor(c, n, objs);
    WholeLinesAt(Texts(c, fs), 1);
    p := |Text(Texts(c, fs)[..1])|;
    AppendedEntries(c, d, n, objs, p);
    assert fs[..1] == [fs[0]] == [EntryFor(c, n, objs[0])];
    assert |fs| >= 2;
  }

  lemma NoneOrOne<T>(s: seq<T>, k: nat)
    requires k <= |s| <= 1
    ensures k == 0 || s[..k] == s
    ensures s[..0] == []
  {}

  lemma AtMostOneWhole(c: Codec, d: Disk, n: nat, objs: seq<Obj>, p: nat)
    requires Sound(c) && ReadyToCommit(c, d, n, objs) && |objs| <= 1 && p <= |IndexText(c, n, objs)|
    ensures WholeOrNone(c, d, n, objs, p)
  {
    hide Sound, Safe, Entries, EntriesFor, WholeLines, Texts, LogHolds, Terminated;
    AppendedEntries(c, d, n, objs, p);
    var k := WholeLines(Texts(c, EntriesFor(c, n, objs)), p);
    NoneOrOne(EntriesFor(c, n, objs), k);
    assert Entries(c, d.log) + [] == Entries(c, d.log);
  }

  /** A pack is committed as a whole or not at all, wherever a crash falls, exactly if it has at most one object. */
  lemma AllOrNothingExactly(c: Codec, d: Disk, n: nat, objs: seq<Obj>)
    requires Sound(c) && ReadyToCommit(c, d, n, objs)
    ensures AllOrNothing(c, d, n, objs) <==> |objs| <= 1
  {
    hide Sound, ReadyToCommit, WholeOrNone, IndexText;
    if |objs| >= 2 {
      var p := HalfCommitted(c, d, n, objs);
    } else {
      forall p: nat | p <= |IndexText(c, n, objs)| ensures WholeOrNone(c, d, n, objs, p) {
        AtMostOneWhole(c, d, n, objs, p);
      }
    }
  }

  lemma NewIdsDistinct(c: Codec, es: seq<Entry>, n: nat, objs: seq<Obj>, k: nat)
    requires DistinctEntryIds(es) && DistinctIds(objs) && k <= |objs|
    requires forall o, e :: o in objs && e in es ==> o.id != e.id
    ensures DistinctEntryIds(es + EntriesFor(c, n, objs)[..k])
  {
    var all := es + EntriesFor(c, n, objs)[..k];
    forall i, j | 0 <= i < j < |all| ensures all[i].id != all[j].id {
      if i < |es| <= j { assert all[i] in es && objs[j - |es|] in objs; }
    }
  }

  lemma NewPathsDistinct(c: Codec, es: seq<Entry>, n: nat, objs: seq<Obj>, k: nat)
    requires DistinctPackPaths(es) && DistinctPaths(objs) && k <= |objs|
    requires forall e :: e in es ==> e.pack < n
    ensures DistinctPackPaths(es + EntriesFor(c, n, objs)[..k])
  {
    var all := es + EntriesFor(c, n, objs)[..k];
    forall i, j | 0 <= i < j < |all| ensures all[i].pack == all[j].pack ==> all[i].path != all[j].path {
      if i < |es| <= j { assert all[i] in es; }
    }
  }

  lemma PacksBelow(c: Codec, d: Disk, n: nat, objs: seq<Obj>)
    requires ReadyToCommit(c, d, n, objs)
    ensures forall e :: e in Entries(c, d.log) ==> e.pack < n
  {
    forall e | e in Entries(c, d.log) ensures e.pack < n { assert EntrySafe(c, d, e); }
  }

  lemma SummedOnlyPack(c: Codec, d: Disk, n: nat, objs: seq<Obj>, lines: nat)
    requires lines <= 2
    ensures OnlyPack(d, Summed(c, d, n, objs, lines), n)
  {}

  lemma WritingOnlyPack(c: Codec, d: Disk, n: nat, objs: seq<Obj>, j: nat)
    requires j < |objs| + 5
    ensures OnlyPack(d, CommitAt(c, d, n, objs, j), n) && CommitAt(c, d, n, objs, j).log == d.log
  {
    if j == |objs| + 4 { SummedOnlyPack(c, d, n, objs, 1); }
  }

  lemma AppendedEntriesSafe(c: Codec, d: Disk, n: nat, objs: seq<Obj>, p: nat, k: nat)
    requires Sound(c) && ReadyToCommit(c, d, n, objs) && p <= |IndexText(c, n, objs)| && k <= |objs|
    ensures forall e :: e in Entries(c, d.log) + EntriesFor(c, n, objs)[..k]
              ==> EntrySafe(c, Appended(c, d, n, objs, p), e)
  {
    var s, t := Summed(c, d, n, objs, 2), Appended(c, d, n, objs, p);
    var es, fs := Entries(c, d.log), EntriesFor(c, n, objs);
    SummedOnlyPack(c, d, n, objs, 2);
    OnlyPackSafe(c, d, s, n, objs);
    forall e | e in es + fs[..k] ensures EntrySafe(c, t, e) {
      if e in es {
        assert EntrySafe(c, s, e);
      } else {
        var i :| 0 <= i < k && fs[i] == e;
        NewEntrySafe(c, d, n, objs, i);
      }
    }
  }

  lemma SafeWith(c: Codec, t: Disk, all: seq<Entry>)
    requires LogHolds(c, t.log, all) && Entries(c, t.log) == all && DistinctEntryIds(all) && DistinctPackPaths(all)
    requires forall e :: e in all ==> EntrySafe(c, t, e)
    requires forall m: nat :: Archive(m) in t.packs ==> m < PACK_LIMIT
    ensures Safe(c, t)
  {}

  lemma PreservedWith(c: Codec, d: Disk, s: Disk, t: Disk, more: seq<Entry>)
    requires Preserved(c, d, s) && s.packs == t.packs && Entries(c, t.log) == Entries(c, d.log) + more
    ensures Preserved(c, d, t)
  {}

  lemma AppendedSafe(c: Codec, d: Disk, n: nat, objs: seq<Obj>, p: nat)
    requires Sound(c) && ReadyToCommit(c, d, n, objs) && p <= |IndexText(c, n, objs)|
    ensures Safe(c, Appended(c, d, n, objs, p)) && Preserved(c, d, Appended(c, d, n, objs, p))
  {
    var s, t := Summed(c, d, n, objs, 2), Appended(c, d, n, objs, p);
    var es := Entries(c, d.log);
    var k := WholeLines(Texts(c, EntriesFor(c, n, objs)), p);
    assert s.packs == t.packs && t.log == d.log + IndexText(c, n, objs)[..p];
    assert forall m: nat :: Archive(m) in t.packs ==> m == n || Archive(m) in d.packs;
    SummedOnlyPack(c, d, n, objs, 2);
    OnlyPackSafe(c, d, s, n, objs);
    NewIdsDistinct(c, es, n, objs, k);
    PacksBelow(c, d, n, objs);
    NewPathsDistinct(c, es, n, objs, k);
    hide Safe, DistinctPackPaths, EntrySafe, Summed, Appended, EntriesFor, OnlyPack, Entries, IndexText,
         Preserved, DistinctEntryIds, LogHolds;
    AppendedEntries(c, d, n, objs, p);
    AppendedEntriesSafe(c, d, n, objs, p, k);
    SafeWith(c, t, es + EntriesFor(c, n, objs)[..k]);
    PreservedWith(c, d, s, t, EntriesFor(c, n, objs)[..k]);
  }

  lemma WritingSafe(c: Codec, d: Disk, n: nat, objs: seq<Obj>, j: nat)
    requires ReadyToCommit(c, d, n, objs) && j < |objs| + 5
    ensures Safe(c, CommitAt(c, d, n, objs, j)) && Preserved(c, d, CommitAt(c, d, n, objs, j))
  {
    var t := CommitAt(c, d, n, objs, j);
    WritingOnlyPack(c, d, n, objs, j);
    hide CommitAt, OnlyPack, Safe, Preserved, ReadyToCommit;
    OnlyPackSafe(c, d, t, n, objs);
  }

  lemma AppendingAt(c: Codec, d: Disk, n: nat, objs: seq<Obj>, j: nat)
    requires |objs| + 5 <= j < CommitLength(c, n, objs)
    ensures j - |objs| - 5 <= |IndexText(c, n, objs)|
    ensures CommitAt(c, d, n, objs, j) == Appended(c, d, n, objs, j - |objs| - 5)
  {}

  /** At every step of a commit, and hence after a crash at any, the disk is safe and no earlier entry is harmed. */
  lemma CommitKeepsSafe(c: Codec, d: Disk, n: nat, objs: seq<Obj>, j: nat)
    requires Sound(c) && ReadyToCommit(c, d, n, objs) && j < CommitLength(c, n, objs)
    ensures Safe(c, CommitAt(c, d, n, objs, j)) && Preserved(c, d, CommitAt(c, d, n, objs, j))
  {
    hide *;
    if j < |objs| + 5 {
      WritingSafe(c, d, n, objs, j);
    } else {
      AppendingAt(c, d, n, objs, j);
      AppendedSafe(c, d, n, objs, j - |objs| - 5);
    }
  }

  lemma StateAt(c: Codec, t: Disk, n: nat, objs: seq<Obj>, s: Disk) returns (j: nat)
    requires s in CommitStates(c, t, n, objs)
    ensures j < CommitLength(c, n, objs) && CommitAt(c, t, n, objs, j) == s
  {
    hide CommitAt, CommitLength;
    j :| 0 <= j < CommitLength(c, n, objs) && CommitStates(c, t, n, objs)[j] == s;
  }
}
