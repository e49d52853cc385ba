/** What a recovery that crashes between an archive's unlink and its manifest's leaves for good. */
module Leftovers {
  import opened Types
  import opened LineLog
  import opened OnDisk
  import opened Commit
  import opened Recovery
  import opened PackRun
  import opened Verify
  import opened Layout
  import opened CleanRecovery

  // ---------------------------------------------------------------- the crashes that do it

  /** The checksum lines a first commit has written: none, the archive's, or both. */
  function FirstSums(c: Codec, o: Obj, lines: nat): seq<SumLine>
    requires lines <= 2
  {
    [ArchiveLine(c, 1, [o]), ManifestLine(c, 1, [o])][..lines]
  }

  /** A first pack in place, not yet in the index. */
  function Unindexed(c: Codec, o: Obj, lines: nat): Disk
    requires lines <= 2
  {
    Disk(map[Archive(1) := ArchiveOf([o]), Manifest(1) := ManifestOf(c, [o])], FirstSums(c, o, lines), None, [])
  }

  /** And with the archive deleted. */
  function Orphaned(c: Codec, o: Obj, lines: nat): Disk
    requires lines <= 2
  {
    Disk(map[Manifest(1) := ManifestOf(c, [o])], FirstSums(c, o, lines), None, [])
  }

  /** A run that packs `o` and crashes after so many checksum lines; then a recovery that crashes between the
      unlinks. */
  function FirstRun(o: Obj, lines: nat): Run { Run([], [], [[o]], 5 + lines) }

  const SECOND_RUN := Run([Archive(1), Manifest(1)], [], [], 1)

  lemma NothingDoomed(c: Codec, d: Disk, order: seq<Name>)
    requires d.log == [] && (order == [] || order == [Manifest(1)])
    ensures Doomed(c, d, order) == []
  {
    NothingIndexed(c);
    hide Indexed, Lines;
    assert order != [] ==> order[..0] == [] && ToDelete(order, {}) == [];
  }

  lemma NothingIndexed(c: Codec)
    ensures Indexed(c, Lines([])) == {}
  {}

  /** Recovery with nothing to delete only drops the lines of missing files. */
  lemma RecoverLines(c: Codec, d: Disk, order: seq<Name>)
    requires d.log == [] && Doomed(c, d, order) == []
    ensures var kept := Listed(d.sums, d.packs);
            && Recovered(c, d, order) == (if kept == d.sums then d else d.(sums := kept, sumsPart := None))
            && (kept == d.sums ==> RecoveryLength(c, d, order) == 1)
  {
    assert d.packs - Names([]) == d.packs;
  }

  lemma FirstCommit(c: Codec, o: Obj, lines: nat)
    requires lines <= 2
    ensures CommitLength(c, 1, [o]) > 4 + lines
    ensures CommitAt(c, EMPTY, 1, [o], 4 + lines) == Unindexed(c, o, lines)
  {
    var packs := ManifestRenamed(c, EMPTY, 1, [o]).packs;
    assert packs == map[Archive(1) := ArchiveOf([o]), Manifest(1) := ManifestOf(c, [o])];
    assert [] + FirstSums(c, o, lines) == FirstSums(c, o, lines);
    assert EMPTY.log + IndexText(c, 1, [o])[..0] == [];
  }

  lemma OneGroupStates(c: Codec, d: Disk, n: nat, g: seq<Obj>)
    ensures AllCommitStates(c, d, n, [g]) == CommitStates(c, d, n, g)
    ensures AfterCommits(c, d, n, [g]) == Committed(c, d, n, g)
  {
    assert [g][..0] == [];
    CommitsNone(c, d, n);
    hide CommitStates, Committed;
    assert [] + CommitStates(c, d, n, g) == CommitStates(c, d, n, g);
  }

  lemma FirstStep(c: Codec, o: Obj, lines: nat)
    requires lines <= 2
    ensures AfterRun(c, EMPTY, FirstRun(o, lines)) == Unindexed(c, o, lines)
  {
    NothingDoomed(c, EMPTY, []);
    RecoverLines(c, EMPTY, []);
    OneGroupStates(c, EMPTY, 1, [o]);
    FirstCommit(c, o, lines);
    hide Recovered, RecoveryLength, RecoveryAt, CommitAt, AllCommitStates, AfterCommits, CommitLength, Unindexed;
    var a, b := RecoveryStates(c, EMPTY, []), CommitStates(c, EMPTY, 1, [o]);
    assert (a + b)[5 + lines] == b[4 + lines];
  }

  lemma FirstValid(c: Codec, o: Obj, lines: nat)
    requires WritableObj(o)
    ensures ValidRun(c, EMPTY, FirstRun(o, lines))
  {
    NothingDoomed(c, EMPTY, []);
    RecoverLines(c, EMPTY, []);
    assert [[o]][..0] == [] && Concat([[o]]) == [o];
    EmptySafe(c);
    hide Recovered, Entries;
  }

  lemma SecondDoomed(c: Codec, d: Disk)
    requires d.log == []
    ensures Doomed(c, d, [Archive(1), Manifest(1)]) == [Archive(1), Manifest(1)]
  {
    NothingIndexed(c);
    hide Indexed, Lines;
    assert [Archive(1)][..0] == [];
    assert ToDelete([Archive(1)], {}) == [Archive(1), Manifest(1)];
    assert [Archive(1), Manifest(1)][..1] == [Archive(1)];
  }

  lemma SecondNames()
    ensures var order := [Archive(1), Manifest(1)];
            Names(order) == {Archive(1), Manifest(1)} && Names(order[..1]) == {Archive(1)} && order[..2] == order
  {
    var order := [Archive(1), Manifest(1)];
    assert order[0] in order && order[1] in order && order[0] in order[..1];
  }

  lemma SecondValid(c: Codec, o: Obj, lines: nat)
    requires lines <= 2
    ensures ValidRun(c, Unindexed(c, o, lines), SECOND_RUN)
  {
    var d := Unindexed(c, o, lines);
    SecondDoomed(c, d);
    SecondNames();
    hide Doomed, ArchiveOf, ManifestOf, Names, Entries, Stale, Filtered, FirstSums;
    assert Recovered(c, d, [Archive(1), Manifest(1)]).packs == map[];
  }

  lemma SecondStep(c: Codec, o: Obj, lines: nat)
    requires lines <= 2
    ensures AfterRun(c, Unindexed(c, o, lines), SECOND_RUN) == Orphaned(c, o, lines)
  {
    SecondDoomed(c, Unindexed(c, o, lines));
    SecondNames();
    hide Doomed, ArchiveOf, ManifestOf, Names, AfterRun, FirstSums;
    CrashInRecovery(c, Unindexed(c, o, lines), SECOND_RUN);
  }

  lemma PlayOne(c: Codec, a: Run)
    ensures Play(c, [a]) == AfterRun(c, EMPTY, a)
    ensures ValidHistory(c, [a]) <==> ValidRun(c, EMPTY, a)
  {
    assert [a][..0] == [];
  }

  /** Both runs can happen, and leave a manifest without its archive. */
  lemma OrphanHistory(c: Codec, o: Obj, lines: nat)
    requires WritableObj(o) && lines <= 2
    ensures ValidHistory(c, [FirstRun(o, lines), SECOND_RUN])
    ensures Play(c, [FirstRun(o, lines), SECOND_RUN]) == Orphaned(c, o, lines)
  {
    hide *;
    FirstValid(c, o, lines);
    FirstStep(c, o, lines);
    SecondValid(c, o, lines);
    SecondStep(c, o, lines);
    PlayOne(c, FirstRun(o, lines));
    PlayMore(c, [FirstRun(o, lines)], SECOND_RUN);
    assert [FirstRun(o, lines)] + [SECOND_RUN] == [FirstRun(o, lines), SECOND_RUN];
  }

  lemma OrphanStays(c: Codec, o: Obj)
    ensures var d := Orphaned(c, o, 0);
            Recovered(c, d, [Manifest(1)]) == d && !Clean(c, d)
  {
    var d := Orphaned(c, o, 0);
    NothingDoomed(c, d, [Manifest(1)]);
    RecoverLines(c, d, [Manifest(1)]);
    assert d.sums == [];
    assert Manifest(1) in d.packs && !Manifest(1).IsPart();
  }

  /** A run that crashes with its first pack's manifest just in place, then a recovery that crashes between the two
      unlinks, leave a manifest that no later recovery removes or lists. */
  lemma OrphanManifestRefused(c: Codec, o: Obj)
    requires WritableObj(o)
    ensures var runs := [FirstRun(o, 0), SECOND_RUN];
            var d := Play(c, runs);
            && ValidHistory(c, runs) && Recovered(c, d, [Manifest(1)]) == d
            && Manifest(1) in d.packs && Archive(1) !in d.packs && !Clean(c, d)
  {
    OrphanHistory(c, o, 0);
    OrphanStays(c, o);
    hide Recovered, Play, Clean;
  }

  // ---------------------------------------------------------------- what never goes away

  /** A file of an indexed pack has a checksum line that is out of date. */
  ghost predicate Outdated(c: Codec, d: Disk, name: Name, l: SumLine) {
    && IsIndexed(c, d, name.n) && (name.Archive? || name.Manifest?)
    && name in d.packs && l in d.sums && l.name == name && l.hash != c.digest(d.packs[name])
  }

  lemma OutdatedNotClean(c: Codec, d: Disk, name: Name, l: SumLine)
    requires Outdated(c, d, name, l)
    ensures !Clean(c, d)
  {
    hide IsIndexed;
  }

  lemma OutdatedFrame(c: Codec, d: Disk, t: Disk, name: Name, l: SumLine)
    requires Outdated(c, d, name, l) && Preserved(c, d, t) && SumsKept(d, t)
    ensures Outdated(c, t, name, l)
  {
    hide Entries;
    var e :| e in Entries(c, d.log) && e.pack == name.n;
    assert e in Entries(c, t.log);
  }

  lemma SumsKeptIf(d: Disk, s: Disk)
    requires forall l :: l in d.sums ==> l in s.sums
    ensures SumsKept(d, s)
  {}

  lemma CommitAddsSums(c: Codec, d: Disk, n: nat, objs: seq<Obj>, s: Disk)
    requires s in CommitStates(c, d, n, objs)
    ensures forall l :: l in d.sums ==> l in s.sums
  {
    var j :| 0 <= j < CommitLength(c, n, objs) && CommitStates(c, d, n, objs)[j] == s;
    hide IndexText;
  }

  lemma {:induction false} CommitsAddSums(c: Codec, d: Disk, n: nat, groups: seq<seq<Obj>>, s: Disk)
    requires s in AllCommitStates(c, d, n, groups)
    ensures forall l :: l in d.sums ==> l in s.sums
  {
    hide *;
    if groups == [] {
      CommitsNone(c, d, n);
    } else {
      var k := |groups| - 1;
      var t := AfterCommits(c, d, n, groups[..k]);
      LastCommitStates(c, d, n, groups);
      if s in AllCommitStates(c, d, n, groups[..k]) {
        CommitsAddSums(c, d, n, groups[..k], s);
      } else {
        CommitAddsSums(c, t, n + k, groups[k], s);
        if k > 0 {
          LastOfCommits(c, d, n, groups[..k]);
          CommitsAddSums(c, d, n, groups[..k], t);
        } else {
          assert groups[..k] == [];
          CommitsNone(c, d, n);
        }
      }
    }
  }

  lemma LastOfCommits(c: Codec, d: Disk, n: nat, groups: seq<seq<Obj>>)
    requires groups != []
    ensures AfterCommits(c, d, n, groups) in AllCommitStates(c, d, n, groups)
  {
    hide AfterCommits, AllCommitStates;
    var s := AllCommitStates(c, d, n, groups);
    assert s[|s| - 1] in s;
  }

  /** No state of a run has lost the checksum line of a file that is still there. */
  lemma RunKeepsSums(c: Codec, d: Disk, run: Run, name: Name, l: SumLine, s: Disk)
    requires Sound(c) && Safe(c, d) && ValidRun(c, d, run) && s in RunStates(c, d, run)
    requires Outdated(c, d, name, l)
    ensures Outdated(c, s, name, l)
  {
    hide *;
    RunStateKinds(c, d, run, s);
    RunKeepsSafe(c, d, run, s);
    RunListings(c, d, run);
    if s in RecoveryStates(c, d, run.dir) {
      RecoveryStateSums(c, d, run.dir, s);
      OutdatedFrame(c, d, s, name, l);
    } else {
      var r, n := Recovered(c, d, run.dir), NextNumber(run.dirAfter);
      RunReady(c, d, run);
      RecoveredSafe(c, d, run.dir);
      RecoveryStateSums(c, d, run.dir, r);
      OutdatedFrame(c, d, r, name, l);
      CommitsAddSums(c, r, n, run.groups, s);
      SumsKeptIf(r, s);
      CommitsKeepSafe(c, r, n, run.groups);
      OutdatedFrame(c, r, s, name, l);
    }
  }

  lemma RunStateKinds(c: Codec, d: Disk, run: Run, s: Disk)
    requires s in RunStates(c, d, run)
    ensures s in RecoveryStates(c, d, run.dir)
            || s in AllCommitStates(c, Recovered(c, d, run.dir), NextNumber(run.dirAfter), run.groups)
  {
    hide RecoveryStates, AllCommitStates, Recovered;
  }

  lemma RecoveryStateSums(c: Codec, d: Disk, order: seq<Name>, s: Disk)
    requires s in RecoveryStates(c, d, order) || s == Recovered(c, d, order)
    ensures SumsKept(d, s)
  {
    hide RecoveryAt, Recovered, SumsKept;
    assert Recovered(c, d, order) in RecoveryStates(c, d, order) by {
      assert RecoveryStates(c, d, order)[RecoveryLength(c, d, order) - 1] == Recovered(c, d, order);
    }
    var j :| 0 <= j < RecoveryLength(c, d, order) && RecoveryStates(c, d, order)[j] == s;
    RecoveryOnlyRemoves(c, d, order, j);
  }

  /** Once a file of an indexed pack has an outdated line, it has it after every later run. */
  lemma {:induction false} OutdatedForever(c: Codec, runs: seq<Run>, later: seq<Run>, name: Name, l: SumLine)
    requires Sound(c) && ValidHistory(c, runs + later) && Outdated(c, Play(c, runs), name, l)
    ensures Outdated(c, Play(c, runs + later), name, l)
    decreases |later|
  {
    hide *;
    if later == [] {
      assert runs + later == runs;
    } else {
      var all, k := runs + later, |later| - 1;
      assert all[..|all| - 1] == runs + later[..k];
      LastRun(c, all);
      OutdatedForever(c, runs, later[..k], name, l);
      HistorySafe(c, runs + later[..k]);
      var d, run := Play(c, runs + later[..k]), later[k];
      RunEndsInAState(c, d, run);
      RunKeepsSums(c, d, run, name, l, AfterRun(c, d, run));
    }
  }

  // ---------------------------------------------------------------- a history that ends up there

  /** The third run reuses the number for another object, and finishes. */
  function ThirdRun(c: Codec, o: Obj, p: Obj): Run {
    var run := Run([Manifest(1)], [Manifest(1)], [[p]], 0);
    run.(crash := RunLength(c, Orphaned(c, o, 2), run))
  }

  /** Recovery keeps the manifest and its line and drops the archive's. */
  function LineLeft(c: Codec, o: Obj): Disk {
    Disk(map[Manifest(1) := ManifestOf(c, [o])], [ManifestLine(c, 1, [o])], None, [])
  }

  lemma ThirdRecovers(c: Codec, o: Obj)
    ensures Recovered(c, Orphaned(c, o, 2), [Manifest(1)]) == LineLeft(c, o)
  {
    var d := Orphaned(c, o, 2);
    NothingDoomed(c, d, [Manifest(1)]);
    RecoverLines(c, d, [Manifest(1)]);
    var a, m := ArchiveLine(c, 1, [o]), ManifestLine(c, 1, [o]);
    assert d.sums == [a, m] && [a, m][..1] == [a] && [a][..0] == [];
    assert Listed([a], d.packs) == [];
    assert Listed(d.sums, d.packs) == [m];
  }

  lemma ThirdValid(c: Codec, o: Obj, p: Obj)
    requires WritableObj(p)
    ensures ValidRun(c, Orphaned(c, o, 2), ThirdRun(c, o, p)) && NextNumber([Manifest(1)]) == 1
    ensures Finishes(c, Orphaned(c, o, 2), ThirdRun(c, o, p))
  {
    ThirdRecovers(c, o);
    assert [[p]][..0] == [] && Concat([[p]]) == [p];
    EmptySafe(c);
    assert [Manifest(1)][..0] == [];
    hide Recovered, Entries, CommitsLength, RecoveryLength;
  }

  lemma ThirdReady(c: Codec, o: Obj, p: Obj)
    requires WritableObj(p)
    ensures ReadyToCommit(c, LineLeft(c, o), 1, [p])
  {
    EmptySafe(c);
    hide EntrySafe;
  }

  lemma ThirdEnds(c: Codec, o: Obj, p: Obj)
    requires Sound(c) && WritableObj(p)
    ensures AfterRun(c, Orphaned(c, o, 2), ThirdRun(c, o, p)) == Committed(c, LineLeft(c, o), 1, [p])
  {
    ThirdRecovers(c, o);
    ThirdValid(c, o, p);
    OneGroupStates(c, LineLeft(c, o), 1, [p]);
    hide Recovered, Committed, AfterCommits, Finishes, NextNumber, ValidRun;
  }

  lemma CommittedFiles(c: Codec, d: Disk, n: nat, objs: seq<Obj>)
    ensures var t := Committed(c, d, n, objs);
            && Manifest(n) in t.packs && t.packs[Manifest(n)] == ManifestOf(c, objs)
            && forall l :: l in d.sums ==> l in t.sums
  {
    hide IndexText;
  }

  lemma ThirdOutdated(c: Codec, o: Obj, p: Obj)
    requires Sound(c) && WritableObj(p) && c.digest(ManifestOf(c, [o])) != c.digest(ManifestOf(c, [p]))
    ensures Outdated(c, Committed(c, LineLeft(c, o), 1, [p]), Manifest(1), ManifestLine(c, 1, [o]))
  {
    var d := LineLeft(c, o);
    var t := Committed(c, d, 1, [p]);
    CommittedFiles(c, d, 1, [p]);
    assert ManifestLine(c, 1, [o]) in d.sums;
    ThirdReady(c, o, p);
    CommittedEntries(c, d, 1, [p]);
    hide Committed, Entries, ManifestOf, ReadyToCommit;
    IndexedMore(c, d, t, EntriesFor(c, 1, [p]), 1);
  }

  /** A run that crashes after its first pack's checksum lines, a recovery that crashes between the two unlinks, and a
      run that reuses the number for another object: from then on verification never passes again, whatever
      runs and recoveries follow. */
  lemma NeverCleanAgain(c: Codec, o: Obj, p: Obj, later: seq<Run>, order: seq<Name>)
    requires Sound(c) && WritableObj(o) && WritableObj(p)
    requires c.digest(ManifestOf(c, [o])) != c.digest(ManifestOf(c, [p]))
    ensures var runs := [FirstRun(o, 2), SECOND_RUN, ThirdRun(c, o, p)];
            && ValidHistory(c, runs)
            && (ValidHistory(c, runs + later) && IsListing(order, Play(c, runs + later).packs) ==>
                  !Clean(c, Play(c, runs + later)) && !Clean(c, Recovered(c, Play(c, runs + later), order)))
  {
    hide *;
    var two, third := [FirstRun(o, 2), SECOND_RUN], ThirdRun(c, o, p);
    var runs := [FirstRun(o, 2), SECOND_RUN, third];
    OrphanHistory(c, o, 2);
    ThirdValid(c, o, p);
    ThirdEnds(c, o, p);
    assert two + [third] == runs;
    PlayMore(c, two, third);
    ThirdOutdated(c, o, p);
    var name, l := Manifest(1), ManifestLine(c, 1, [o]);
    if ValidHistory(c, runs + later) && IsListing(order, Play(c, runs + later).packs) {
      var d := Play(c, runs + later);
      OutdatedForever(c, runs, later, name, l);
      OutdatedNotClean(c, d, name, l);
      HistorySafe(c, runs + later);
      RecoveredSafe(c, d, order);
      RecoveryStateSums(c, d, order, Recovered(c, d, order));
      OutdatedFrame(c, d, Recovered(c, d, order), name, l);
      OutdatedNotClean(c, Recovered(c, d, order), name, l);
    }
  }
}
