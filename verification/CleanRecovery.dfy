/** When a recovered repository passes verification: after every history whose crashes missed one window,
    and exactly from the disks without an interrupted recovery's leftovers. */
module CleanRecovery {
  import opened Types
  import opened LineLog
  import opened OnDisk
  import opened Commit
  import opened Recovery
  import opened PackRun
  import opened Verify

  // ---------------------------------------------------------------- recovery ends in a clean repository

  /** No manifest without its archive, and no checksum line that is out of date for the file it names. */
  ghost predicate Tidy(c: Codec, d: Disk) {
    && (forall n: nat :: Manifest(n) in d.packs ==> Archive(n) in d.packs)
    && (forall l :: l in d.sums && l.name in d.packs ==> l.hash == c.digest(d.packs[l.name]))
  }

  lemma ConsistentBacked(c: Codec, d: Disk)
    requires Sound(c) && Safe(c, d) && Consistent(c, d)
    ensures IndexBacked(c, d) && DeepClean(c, d)
  {
    ReadLinesClean(d.log);
    SafeWritable(c, d);
    var es := Entries(c, d.log);
    forall line | line in ReadLines(d.log) && c.packOf(line).Some? ensures Archive(c.packOf(line).value) in d.packs {
      var i :| 0 <= i < |es| && Texts(c, es)[i] == line;
      assert LineSound(c, es[i]) && es[i] in es && EntrySafe(c, d, es[i]);
    }
    forall n: nat | Archive(n) in d.packs ensures PackDeepOk(c, d, n) {
      var e :| e in es && e.pack == n;
      assert EntrySafe(c, d, e);
      InPlaceDeepOk(c, d, n);
    }
  }

  /** From any safe and tidy disk recovery leaves exactly the indexed packs, every file of them listed once
      checked and nothing else listed, and both kinds of verification pass. */
  lemma RecoveredClean(c: Codec, d: Disk, order: seq<Name>)
    requires Sound(c) && Safe(c, d) && Tidy(c, d) && IsListing(order, d.packs)
    ensures var r := Recovered(c, d, order);
            && Clean(c, r) && DeepClean(c, r) && Consistent(c, r)
            && (forall n: nat :: Manifest(n) in r.packs <==> IsIndexed(c, r, n))
  {
    LeftoversIfTidy(c, d);
    RecoveredCleanExactly(c, d, order);
    RecoveredConsistent(c, d, order);
    RecoveredSafe(c, d, order);
    var r := Recovered(c, d, order);
    hide Recovered, Clean, DeepClean, Sound, Safe;
    forall n: nat ensures Manifest(n) in r.packs <==> IsIndexed(c, r, n) { RecoveredManifest(c, d, order, n); }
  }

  lemma RecoveredManifest(c: Codec, d: Disk, order: seq<Name>, n: nat)
    requires Sound(c) && Safe(c, d) && Tidy(c, d) && IsListing(order, d.packs)
    ensures Manifest(n) in Recovered(c, d, order).packs <==> IsIndexed(c, Recovered(c, d, order), n)
  {
    RecoveredSafe(c, d, order);
    hide Recovered, Doomed;
    RecoveredPacks(c, d, order, Manifest(n));
    DoomedExactly(c, d, order, Manifest(n));
    if e :| e in Entries(c, d.log) && e.pack == n { assert EntrySafe(c, d, e); }
  }

  /** Recovery deletes the files of a pack only when the archive is there and no entry names it. */
  ghost predicate Survives(c: Codec, d: Disk, name: Name) {
    name in d.packs && !name.IsPart() && (Archive(name.n) in d.packs ==> IsIndexed(c, d, name.n))
  }

  /** Nothing an interrupted recovery may have left stands in the way: surviving files have only current
      checksum lines, and a manifest whose archive is gone has one. */
  ghost predicate NoLeftovers(c: Codec, d: Disk) {
    && (forall l :: l in d.sums && Survives(c, d, l.name) ==> l.hash == c.digest(d.packs[l.name]))
    && (forall n: nat :: Manifest(n) in d.packs && Archive(n) !in d.packs ==> IsListed(d.sums, Manifest(n)))
  }

  lemma LeftoversIfTidy(c: Codec, d: Disk)
    requires Tidy(c, d)
    ensures NoLeftovers(c, d)
  {}

  lemma RecoveredFile(c: Codec, d: Disk, order: seq<Name>, name: Name)
    requires Sound(c) && Safe(c, d) && IsListing(order, d.packs)
    ensures name in Recovered(c, d, order).packs <==> Survives(c, d, name)
    ensures Survives(c, d, name) ==> name in d.packs && Recovered(c, d, order).packs[name] == d.packs[name]
  {
    RecoveredPacks(c, d, order, name);
    DoomedExactly(c, d, order, name);
  }

  lemma RecoveredSumsMatch(c: Codec, d: Disk, order: seq<Name>)
    requires Sound(c) && Safe(c, d) && IsListing(order, d.packs)
    ensures SumsMatch(c, Recovered(c, d, order))
            <==> forall l :: l in d.sums && Survives(c, d, l.name) ==> l.hash == c.digest(d.packs[l.name])
  {
    var r := Recovered(c, d, order);
    hide Recovered, Survives, Safe, Sound, IsListing;
    forall l ensures l in r.sums <==> l in d.sums && Survives(c, d, l.name) {
      RecoveredSums(c, d, order, l);
      RecoveredFile(c, d, order, l.name);
    }
    forall l | l in r.sums ensures l.name in r.packs && l.name in d.packs && r.packs[l.name] == d.packs[l.name] {
      RecoveredFile(c, d, order, l.name);
    }
  }

  lemma RecoveredAllListed(c: Codec, d: Disk, order: seq<Name>)
    requires Sound(c) && Safe(c, d) && IsListing(order, d.packs)
    ensures AllListed(Recovered(c, d, order))
            <==> forall n: nat :: Manifest(n) in d.packs && Archive(n) !in d.packs ==> IsListed(d.sums, Manifest(n))
  {
    var r := Recovered(c, d, order);
    RecoveredSafe(c, d, order);
    forall name | Survives(c, d, name) && IsIndexed(c, d, name.n) ensures IsListed(r.sums, name) {
      var e :| e in Entries(c, d.log) && e.pack == name.n;
      assert EntrySafe(c, r, e);
    }
    hide Recovered, Safe, Sound, IsListing, IsIndexed;
    forall name ensures name in r.packs <==> Survives(c, d, name) { RecoveredFile(c, d, order, name); }
    forall l ensures l in r.sums <==> l in d.sums && l.name in r.packs { RecoveredSums(c, d, order, l); }
    forall n: nat | Manifest(n) in d.packs && Archive(n) !in d.packs ensures Survives(c, d, Manifest(n)) {}
  }

  /** After recovery from a safe disk verification passes exactly when there were no leftovers. */
  lemma RecoveredCleanExactly(c: Codec, d: Disk, order: seq<Name>)
    requires Sound(c) && Safe(c, d) && IsListing(order, d.packs)
    ensures Clean(c, Recovered(c, d, order)) <==> NoLeftovers(c, d)
    ensures DeepClean(c, Recovered(c, d, order))
  {
    RecoveredConsistent(c, d, order);
    RecoveredSafe(c, d, order);
    hide Recovered, Safe, Sound, IsListing, Survives, SumsMatch, AllListed, IndexBacked, DeepClean;
    ConsistentBacked(c, Recovered(c, d, order));
    RecoveredSumsMatch(c, d, order);
    RecoveredAllListed(c, d, order);
  }

  // ---------------------------------------------------------------- histories that recover clean

  /** The crash fell between the unlink of an archive and that of its manifest. */
  predicate BetweenUnlinks(c: Codec, d: Disk, run: Run) {
    && 0 < run.crash <= |Doomed(c, d, run.dir)|
    && var name := Doomed(c, d, run.dir)[run.crash - 1];
       name.Archive? && Manifest(name.n) in d.packs
  }

  ghost predicate NeverBetweenUnlinks(c: Codec, runs: seq<Run>) {
    forall i :: 0 <= i < |runs| ==> !BetweenUnlinks(c, Play(c, runs[..i]), runs[i])
  }

  /** What commits start from: no manifest alone, no scratch file, and only current checksum lines. */
  ghost predicate Neat(c: Codec, d: Disk) {
    && (forall name :: name in d.packs ==> !name.IsPart())
    && (forall n: nat :: Manifest(n) in d.packs ==> Archive(n) in d.packs)
    && SumsMatch(c, d)
  }

  lemma ManifestGoesNext(names: seq<Name>, j: nat, n: nat)
    requires ManifestFollows(names) && j <= |names| && Archive(n) in Names(names[..j])
    ensures Manifest(n) in Names(names[..j]) || (j > 0 && names[j - 1] == Archive(n))
  {
    var i :| 0 <= i < j && names[i] == Archive(n);
    assert i + 1 < j ==> names[..j][i + 1] == Manifest(n);
  }

  lemma UnlinkedPaired(c: Codec, d: Disk, order: seq<Name>, j: nat, n: nat)
    requires Tidy(c, d) && IsListing(order, d.packs) && j <= |Doomed(c, d, order)|
    requires j > 0 && Doomed(c, d, order)[j - 1].Archive? ==> Manifest(Doomed(c, d, order)[j - 1].n) !in d.packs
    requires Manifest(n) in Unlinked(c, d, order, j).packs
    ensures Archive(n) in Unlinked(c, d, order, j).packs
  {
    var names := Doomed(c, d, order);
    ToDeletePairs(order, Indexed(c, Lines(d.log)));
    hide ToDelete, Indexed;
    if Archive(n) in Names(names[..j]) { ManifestGoesNext(names, j, n); }
  }

  /** How far the unlinks have come after step `j`. */
  function Unlinks(c: Codec, d: Disk, order: seq<Name>, j: nat): (k: nat)
    ensures k <= |Doomed(c, d, order)|
  {
    var m := |Doomed(c, d, order)|;
    if j <= m then j else m
  }

  lemma RecoveryPacks(c: Codec, d: Disk, order: seq<Name>, j: nat)
    requires j < RecoveryLength(c, d, order)
    ensures var t := RecoveryAt(c, d, order, j);
            && t.packs == Unlinked(c, d, order, Unlinks(c, d, order, j)).packs
            && (forall l :: l in t.sums ==> l in d.sums)
            && (forall name :: name in t.packs ==> FileKept(d, t, name) && name in d.packs)
  {
    hide Doomed;
  }

  lemma RecoveryKeepsTidy(c: Codec, d: Disk, run: Run)
    requires Tidy(c, d) && IsListing(run.dir, d.packs)
    requires run.crash < RecoveryLength(c, d, run.dir) && !BetweenUnlinks(c, d, run)
    ensures Tidy(c, RecoveryAt(c, d, run.dir, run.crash))
  {
    var m, t := |Doomed(c, d, run.dir)|, RecoveryAt(c, d, run.dir, run.crash);
    var j := Unlinks(c, d, run.dir, run.crash);
    RecoveryPacks(c, d, run.dir, run.crash);
    if run.crash > m && m > 0 { LastDoomedNoArchive(c, d, run.dir); }
    hide RecoveryAt, Doomed, Unlinked;
    forall n: nat | Manifest(n) in t.packs ensures Archive(n) in t.packs { UnlinkedPaired(c, d, run.dir, j, n); }
  }

  lemma LastDoomedNoArchive(c: Codec, d: Disk, order: seq<Name>)
    requires IsListing(order, d.packs) && Doomed(c, d, order) != []
    ensures var names := Doomed(c, d, order); !names[|names| - 1].Archive?
  {
    ToDeletePairs(order, Indexed(c, Lines(d.log)));
  }

  lemma RecoveredNeat(c: Codec, d: Disk, order: seq<Name>)
    requires Sound(c) && Safe(c, d) && Tidy(c, d) && IsListing(order, d.packs)
    ensures Neat(c, Recovered(c, d, order))
  {
    RecoveredClean(c, d, order);
  }

  lemma CommitKeepsTidy(c: Codec, d: Disk, n: nat, objs: seq<Obj>, j: nat)
    requires Neat(c, d) && j < CommitLength(c, n, objs)
    requires forall m: nat :: Archive(m) in d.packs ==> m < n
    ensures Tidy(c, CommitAt(c, d, n, objs, j))
  {
    assert Archive(n) !in d.packs && Manifest(n) !in d.packs;
    assert forall l :: l in d.sums ==> l.name != Archive(n) && l.name != Manifest(n);
    if j == |objs| + 4 { SummedNeat(c, d, n, objs, 1); }
    if j > |objs| + 4 { SummedNeat(c, d, n, objs, 2); }
  }

  /** The archive's checksum line comes before the manifest's. */
  lemma ArchiveListedFirst(c: Codec, d: Disk, n: nat, objs: seq<Obj>, j: nat)
    requires j < CommitLength(c, n, objs) && !IsListed(d.sums, Manifest(n))
    ensures var t := CommitAt(c, d, n, objs, j);
            && (IsListed(t.sums, Manifest(n)) ==> IsListed(t.sums, Archive(n)))
            && (IsListed(t.sums, Manifest(n)) <==> j >= |objs| + 5)
  {
    hide IndexText;
    var a, m := ArchiveLine(c, n, objs), ManifestLine(c, n, objs);
    ListedMore(d.sums, a, Manifest(n));
    ListedMore(d.sums, a, Archive(n));
    ListedMore(d.sums + [a], m, Manifest(n));
    ListedMore(d.sums + [a], m, Archive(n));
    assert d.sums + [a] + [m] == d.sums + [a, m] && [a, m][..1] == [a];
  }

  lemma SummedNeat(c: Codec, d: Disk, n: nat, objs: seq<Obj>, lines: nat)
    requires Neat(c, d) && lines <= 2
    requires forall m: nat :: Archive(m) in d.packs ==> m < n
    ensures Neat(c, Summed(c, d, n, objs, lines))
  {
    var t := Summed(c, d, n, objs, lines);
    forall l | l in t.sums ensures l.name in t.packs && c.digest(t.packs[l.name]) == l.hash {
      if l in d.sums { assert l.name in d.packs; }
    }
  }

  lemma CommittedNeat(c: Codec, d: Disk, n: nat, objs: seq<Obj>)
    requires Neat(c, d)
    requires forall m: nat :: Archive(m) in d.packs ==> m < n
    ensures Neat(c, Committed(c, d, n, objs))
    ensures forall m: nat :: Archive(m) in Committed(c, d, n, objs).packs ==> m <= n
  {
    SummedNeat(c, d, n, objs, 2);
  }

  lemma {:induction false} CommitsKeepTidy(c: Codec, d: Disk, n: nat, groups: seq<seq<Obj>>)
    requires Neat(c, d)
    requires forall m: nat :: Archive(m) in d.packs ==> m < n
    ensures Neat(c, AfterCommits(c, d, n, groups))
    ensures forall m: nat :: Archive(m) in AfterCommits(c, d, n, groups).packs ==> m < n + |groups|
    ensures forall s :: s in AllCommitStates(c, d, n, groups) ==> Tidy(c, s)
  {
    hide *;
    if groups == [] {
      CommitsNone(c, d, n);
    } else {
      var k := |groups| - 1;
      var t := AfterCommits(c, d, n, groups[..k]);
      CommitsKeepTidy(c, d, n, groups[..k]);
      LastCommitStates(c, d, n, groups);
      CommittedNeat(c, t, n + k, groups[k]);
      forall s | s in CommitStates(c, t, n + k, groups[k]) ensures Tidy(c, s) {
        StateOfCommit(c, t, n + k, groups[k], s);
      }
    }
  }

  lemma StateOfCommit(c: Codec, d: Disk, n: nat, objs: seq<Obj>, s: Disk)
    requires Neat(c, d) && s in CommitStates(c, d, n, objs)
    requires forall m: nat :: Archive(m) in d.packs ==> m < n
    ensures Tidy(c, s)
  {
    hide Neat, Tidy, CommitAt, IndexText;
    var j :| 0 <= j < CommitLength(c, n, objs) && CommitStates(c, d, n, objs)[j] == s;
    CommitKeepsTidy(c, d, n, objs, j);
  }

  lemma RunKeepsTidy(c: Codec, d: Disk, run: Run)
    requires Sound(c) && Safe(c, d) && Tidy(c, d) && ValidRun(c, d, run) && !BetweenUnlinks(c, d, run)
    ensures Tidy(c, AfterRun(c, d, run))
  {
    var r, n := Recovered(c, d, run.dir), NextNumber(run.dirAfter);
    RecoveredNeat(c, d, run.dir);
    RunReady(c, d, run);
    hide *;
    if run.crash < RecoveryLength(c, d, run.dir) {
      RecoveryKeepsTidy(c, d, run);
      CrashInRecovery(c, d, run);
    } else {
      ReadyAbove(c, r, n, run.groups);
      CommitsKeepTidy(c, r, n, run.groups);
      NeatIsTidy(c, AfterCommits(c, r, n, run.groups));
      CrashInCommits(c, d, run);
    }
  }

  ghost predicate NoRepeats(names: seq<Name>) { forall i, j :: 0 <= i < j < |names| ==> names[i] != names[j] }

  lemma AddNoRepeats(names: seq<Name>, name: Name)
    requires NoRepeats(names)
    ensures NoRepeats(Add(names, name))
  {}

  lemma {:induction false} ToDeleteNoRepeats(order: seq<Name>, indexed: set<nat>)
    ensures NoRepeats(ToDelete(order, indexed))
  {
    if order != [] {
      var rest, last := ToDelete(order[..|order| - 1], indexed), order[|order| - 1];
      ToDeleteNoRepeats(order[..|order| - 1], indexed);
      hide NoRepeats, Add;
      AddNoRepeats(rest, last);
      AddNoRepeats(Add(rest, last), Manifest(last.n));
    }
  }

  lemma NotYet(names: seq<Name>, k: nat)
    requires NoRepeats(names) && 0 < k < |names|
    ensures names[k] !in Names(names[..k]) && names[k - 1] in Names(names[..k])
  {
    assert names[..k][k - 1] == names[k - 1];
  }

  /** Between the two unlinks the manifest is alone. */
  lemma BetweenLeavesManifest(c: Codec, d: Disk, run: Run)
    requires IsListing(run.dir, d.packs) && BetweenUnlinks(c, d, run)
    ensures run.crash < RecoveryLength(c, d, run.dir) && !Tidy(c, RecoveryAt(c, d, run.dir, run.crash))
  {
    var names, k := Doomed(c, d, run.dir), run.crash;
    ToDeletePairs(run.dir, Indexed(c, Lines(d.log)));
    ToDeleteNoRepeats(run.dir, Indexed(c, Lines(d.log)));
    hide ToDelete, Indexed, NoRepeats, Names;
    assert names[k] == Manifest(names[k - 1].n);
    NotYet(names, k);
  }

  /** A run from a safe and tidy disk leaves it tidy exactly if it does not crash between the two unlinks of a pack. */
  lemma RunKeepsTidyExactly(c: Codec, d: Disk, run: Run)
    requires Sound(c) && Safe(c, d) && Tidy(c, d) && ValidRun(c, d, run)
    ensures Tidy(c, AfterRun(c, d, run)) <==> !BetweenUnlinks(c, d, run)
  {
    hide *;
    RunListings(c, d, run);
    if BetweenUnlinks(c, d, run) {
      BetweenLeavesManifest(c, d, run);
      CrashInRecovery(c, d, run);
    } else {
      RunKeepsTidy(c, d, run);
    }
  }

  lemma ReadyAbove(c: Codec, d: Disk, n: nat, groups: seq<seq<Obj>>)
    requires ReadyToRun(c, d, n, groups)
    ensures forall m: nat :: Archive(m) in d.packs ==> m < n
  {}

  lemma NeatIsTidy(c: Codec, d: Disk)
    requires Neat(c, d)
    ensures Tidy(c, d)
  {}

  lemma CrashInRecovery(c: Codec, d: Disk, run: Run)
    requires run.crash < RecoveryLength(c, d, run.dir)
    ensures AfterRun(c, d, run) == RecoveryAt(c, d, run.dir, run.crash)
  {}

  lemma CrashInCommits(c: Codec, d: Disk, run: Run)
    requires run.crash >= RecoveryLength(c, d, run.dir)
    ensures var r, n := Recovered(c, d, run.dir), NextNumber(run.dirAfter);
            || AfterRun(c, d, run) in AllCommitStates(c, r, n, run.groups)
            || AfterRun(c, d, run) == AfterCommits(c, r, n, run.groups)
  {
    hide AfterCommits, AllCommitStates, RecoveryStates, Recovered, RecoveryLength, CommitsLength, NextNumber;
    if !Finishes(c, d, run) {
      InSecond(RecoveryStates(c, d, run.dir),
               AllCommitStates(c, Recovered(c, d, run.dir), NextNumber(run.dirAfter), run.groups), run.crash);
    }
  }

  lemma InSecond<T>(a: seq<T>, b: seq<T>, i: nat)
    requires |a| <= i < |a| + |b|
    ensures (a + b)[i] in b
  {
    assert (a + b)[i] == b[i - |a|];
  }

  /** Whatever runs came before, as long as none crashed between an archive's unlink and its manifest's. */
  lemma {:induction false} HistoryTidy(c: Codec, runs: seq<Run>)
    requires Sound(c) && ValidHistory(c, runs) && NeverBetweenUnlinks(c, runs)
    ensures Tidy(c, Play(c, runs))
  {
    hide *;
    if runs == [] {
      EmptyTidy(c);
    } else {
      var init, run := runs[..|runs| - 1], runs[|runs| - 1];
      LastRun(c, runs);
      NeverInLast(c, runs);
      HistoryTidy(c, init);
      HistorySafe(c, init);
      RunKeepsTidy(c, Play(c, init), run);
    }
  }

  lemma EmptyTidy(c: Codec)
    ensures Tidy(c, Play(c, []))
  {}

  lemma NeverInLast(c: Codec, runs: seq<Run>)
    requires NeverBetweenUnlinks(c, runs) && runs != []
    ensures var init, run := runs[..|runs| - 1], runs[|runs| - 1];
            NeverBetweenUnlinks(c, init) && !BetweenUnlinks(c, Play(c, init), run)
  {
    hide BetweenUnlinks, Play;
    var init := runs[..|runs| - 1];
    forall i | 0 <= i < |init| ensures !BetweenUnlinks(c, Play(c, init[..i]), init[i]) {
      assert init[..i] == runs[..i] && init[i] == runs[i];
    }
    assert !BetweenUnlinks(c, Play(c, init), runs[|init|]);
  }

  /** From any state such a history leaves, an uninterrupted recovery ends with no scratch file, exactly the
      indexed packs, every checksum line current, every file listed, and both verifications passing. */
  lemma HistoryRecoversClean(c: Codec, runs: seq<Run>, order: seq<Name>)
    requires Sound(c) && ValidHistory(c, runs) && NeverBetweenUnlinks(c, runs)
    requires IsListing(order, Play(c, runs).packs)
    ensures var r := Recovered(c, Play(c, runs), order);
            && Clean(c, r) && DeepClean(c, r) && Consistent(c, r)
            && (forall n: nat :: Manifest(n) in r.packs <==> IsIndexed(c, r, n))
  {
    HistoryTidy(c, runs);
    HistorySafe(c, runs);
    RecoveredClean(c, Play(c, runs), order);
  }

  // ---------------------------------------------------------------- runs that finish end clean

  /** Every file is listed and every archive indexed. */
  ghost predicate Complete(c: Codec, d: Disk) {
    AllListed(d) && forall n: nat :: Archive(n) in d.packs ==> IsIndexed(c, d, n)
  }

  lemma CommittedPacks(c: Codec, d: Disk, n: nat, objs: seq<Obj>, name: Name)
    requires name in Committed(c, d, n, objs).packs && !name.IsPart()
    ensures name in d.packs || name == Archive(n) || name == Manifest(n)
  {
    hide IndexText;
  }

  lemma CommittedListed(c: Codec, d: Disk, n: nat, objs: seq<Obj>)
    requires AllListed(d)
    ensures AllListed(Committed(c, d, n, objs))
  {
    var t := Committed(c, d, n, objs);
    hide IndexText, ArchiveLine, ManifestLine;
    assert t.sums == d.sums + [ArchiveLine(c, n, objs), ManifestLine(c, n, objs)];
    forall name | name in t.packs && !name.IsPart() ensures IsListed(t.sums, name) {
      CommittedPacks(c, d, n, objs, name);
      NewLinesListed(c, n, objs, d.sums, name);
    }
  }

  lemma NewLinesListed(c: Codec, n: nat, objs: seq<Obj>, sums: seq<SumLine>, name: Name)
    requires IsListed(sums, name) || name == Archive(n) || name == Manifest(n)
    ensures IsListed(sums + [ArchiveLine(c, n, objs), ManifestLine(c, n, objs)], name)
  {
    var all := sums + [ArchiveLine(c, n, objs), ManifestLine(c, n, objs)];
    assert ArchiveLine(c, n, objs) in all && ManifestLine(c, n, objs) in all;
    if l :| l in sums && l.name == name { assert l in all; }
  }

  lemma IndexedMore(c: Codec, d: Disk, t: Disk, more: seq<Entry>, n: nat)
    requires Entries(c, t.log) == Entries(c, d.log) + more
    requires IsIndexed(c, d, n) || (more != [] && more[0].pack == n)
    ensures IsIndexed(c, t, n)
  {
    hide Entries;
    if e :| e in Entries(c, d.log) && e.pack == n {
      assert e in Entries(c, t.log);
    } else {
      assert more[0] in Entries(c, t.log);
    }
  }

  lemma CommitCompletes(c: Codec, d: Disk, n: nat, objs: seq<Obj>)
    requires Sound(c) && ReadyToCommit(c, d, n, objs) && Complete(c, d) && objs != []
    ensures Complete(c, Committed(c, d, n, objs))
  {
    var t := Committed(c, d, n, objs);
    CommittedEntries(c, d, n, objs);
    CommittedListed(c, d, n, objs);
    hide Committed, ReadyToCommit, AllListed, IsIndexed, Entries;
    forall m: nat | Archive(m) in t.packs ensures IsIndexed(c, t, m) {
      CommittedPacks(c, d, n, objs, Archive(m));
      IndexedMore(c, d, t, EntriesFor(c, n, objs), m);
    }
  }

  lemma {:induction false} CommitsComplete(c: Codec, d: Disk, n: nat, groups: seq<seq<Obj>>)
    requires Sound(c) && ReadyToRun(c, d, n, groups) && Complete(c, d)
    requires forall b :: 0 <= b < |groups| ==> groups[b] != []
    ensures Complete(c, AfterCommits(c, d, n, groups))
  {
    hide *;
    if groups == [] {
      CommitsNone(c, d, n);
    } else {
      var k := |groups| - 1;
      ReadyForLast(c, d, n, groups);
      CommitsKeepSafe(c, d, n, groups[..k]);
      CommitsComplete(c, d, n, groups[..k]);
      LastReady(c, d, n, groups);
      LastCommitStates(c, d, n, groups);
      CommitCompletes(c, AfterCommits(c, d, n, groups[..k]), n + k, groups[k]);
    }
  }

  lemma CompleteConsistent(c: Codec, d: Disk)
    requires Safe(c, d) && Terminated(d.log) && Neat(c, d) && Complete(c, d)
    ensures Consistent(c, d)
  {
    forall n: nat | IsIndexed(c, d, n) ensures Archive(n) in d.packs {
      var e :| e in Entries(c, d.log) && e.pack == n;
      assert EntrySafe(c, d, e);
    }
  }

  lemma RecoveredComplete(c: Codec, d: Disk, order: seq<Name>)
    requires Sound(c) && Safe(c, d) && Tidy(c, d) && IsListing(order, d.packs)
    ensures Complete(c, Recovered(c, d, order))
  {
    RecoveredClean(c, d, order);
    hide Recovered, Safe, Sound, IsListing;
  }

  lemma CleanIf(c: Codec, d: Disk)
    requires Neat(c, d) && Complete(c, d) && IndexBacked(c, d)
    ensures Clean(c, d)
  {
    hide IndexBacked, IsIndexed;
  }

  /** A run that finishes, none of its packs empty, leaves a repository that passes both verifications. */
  lemma FinishedRunClean(c: Codec, d: Disk, run: Run)
    requires Sound(c) && Safe(c, d) && Tidy(c, d) && ValidRun(c, d, run) && Finishes(c, d, run)
    requires forall b :: 0 <= b < |run.groups| ==> run.groups[b] != []
    ensures var t := AfterRun(c, d, run); Clean(c, t) && DeepClean(c, t) && Consistent(c, t)
  {
    hide *;
    var r, n, t := Recovered(c, d, run.dir), NextNumber(run.dirAfter), AfterRun(c, d, run);
    RunListings(c, d, run);
    RecoveredNeat(c, d, run.dir);
    RecoveredComplete(c, d, run.dir);
    RunReady(c, d, run);
    ReadyAbove(c, r, n, run.groups);
    CommitsKeepTidy(c, r, n, run.groups);
    CommitsKeepSafe(c, r, n, run.groups);
    CommitsComplete(c, r, n, run.groups);
    CompleteConsistent(c, t);
    ConsistentBacked(c, t);
    CleanIf(c, t);
  }

  lemma RunListings(c: Codec, d: Disk, run: Run)
    requires ValidRun(c, d, run)
    ensures IsListing(run.dir, d.packs)
    ensures Finishes(c, d, run)
            ==> AfterRun(c, d, run) == AfterCommits(c, Recovered(c, d, run.dir), NextNumber(run.dirAfter), run.groups)
  {}

  /** So every history outside the window passes verification whenever its last run finished. */
  lemma HistoryFinishesClean(c: Codec, runs: seq<Run>, run: Run)
    requires Sound(c) && ValidHistory(c, runs) && NeverBetweenUnlinks(c, runs)
    requires ValidRun(c, Play(c, runs), run) && Finishes(c, Play(c, runs), run)
    requires forall b :: 0 <= b < |run.groups| ==> run.groups[b] != []
    ensures Clean(c, Play(c, runs + [run])) && DeepClean(c, Play(c, runs + [run]))
  {
    hide *;
    assert (runs + [run])[..|runs|] == runs;
    HistoryTidy(c, runs);
    HistorySafe(c, runs);
    FinishedRunClean(c, Play(c, runs), run);
    PlayMore(c, runs, run);
  }

  lemma PlayMore(c: Codec, runs: seq<Run>, run: Run)
    ensures Play(c, runs + [run]) == AfterRun(c, Play(c, runs), run)
    ensures ValidHistory(c, runs + [run]) <==> ValidHistory(c, runs) && ValidRun(c, Play(c, runs), run)
  {
    assert (runs + [run])[..|runs|] == runs;
  }
}
