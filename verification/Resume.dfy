/** Packing one snapshot, crashed any number of times and run again: what has been stored is never stored
    twice, and what is missing always gets stored. */
module Resume {
  import opened Types
  import opened LineLog
  import opened OnDisk
  import opened Commit
  import opened Recovery
  import opened Layout
  import opened PackRun

  /** The objects the index has no line for. */
  function Missing(es: seq<Entry>, objs: seq<Obj>): (r: seq<Obj>)
    ensures forall o :: o in r <==> o in objs && !HasId(es, o.id)
  {
    if objs == [] then []
    else
      var rest, last := Missing(es, objs[..|objs| - 1]), objs[|objs| - 1];
      if HasId(es, last.id) then rest else rest + [last]
  }

  /** `at` are the places, in order, of the objects without a line. */
  ghost predicate Places(es: seq<Entry>, objs: seq<Obj>, at: seq<nat>) {
    && (forall j, k :: 0 <= j < k < |at| ==> at[j] < at[k])
    && (forall k :: 0 <= k < |at| ==> at[k] < |objs|)
    && (forall i :: 0 <= i < |objs| ==> (i in at <==> !HasId(es, objs[i].id)))
  }

  lemma OnePlaceMore(es: seq<Entry>, init: seq<Obj>, last: Obj, at: seq<nat>)
    requires Places(es, init, at)
    ensures Places(es, init + [last], if HasId(es, last.id) then at else at + [|init|])
  {
    hide HasId;
    var objs, more := init + [last], if HasId(es, last.id) then at else at + [|init|];
    assert |init| !in at;
    forall i | 0 <= i < |objs| ensures i in more <==> !HasId(es, objs[i].id) {
      if i < |init| { assert objs[i] == init[i]; }
    }
  }

  ghost predicate Taken(objs: seq<Obj>, at: seq<nat>, part: seq<Obj>) {
    |at| == |part| && forall k :: 0 <= k < |at| ==> at[k] < |objs| && part[k] == objs[at[k]]
  }

  lemma OneTakenMore(init: seq<Obj>, last: Obj, at: seq<nat>, part: seq<Obj>)
    requires Taken(init, at, part)
    ensures Taken(init + [last], at, part) && Taken(init + [last], at + [|init|], part + [last])
  {}

  /** The missing objects are the snapshot's, in its order, without those that have a line. */
  lemma {:induction false} MissingInOrder(es: seq<Entry>, objs: seq<Obj>) returns (at: seq<nat>)
    ensures Places(es, objs, at) && Taken(objs, at, Missing(es, objs))
  {
    hide HasId, Missing, Places, Taken;
    if objs == [] {
      at := [];
      NoneTaken(es);
    } else {
      var n := |objs| - 1;
      at := MissingInOrder(es, objs[..n]);
      OnePlaceMore(es, objs[..n], objs[n], at);
      OneTakenMore(objs[..n], objs[n], at, Missing(es, objs[..n]));
      MissingLast(es, objs);
      assert objs == objs[..n] + [objs[n]];
      if !HasId(es, objs[n].id) { at := at + [n]; }
    }
  }

  lemma NoneTaken(es: seq<Entry>)
    ensures Places(es, [], []) && Taken([], [], Missing(es, []))
  {}

  /** The groups of the run are the snapshot's missing objects, in some order and division. */
  ghost predicate PacksMissing(c: Codec, d: Disk, run: Run, objs: seq<Obj>) {
    multiset(Concat(run.groups)) == multiset(Missing(Entries(c, Recovered(c, d, run.dir).log), objs))
  }

  // ---------------------------------------------------------------- a snapshot's run is a valid run

  lemma {:induction false} OnceInDistinct(objs: seq<Obj>, o: Obj)
    requires DistinctIds(objs)
    ensures multiset(objs)[o] <= 1
  {
    if objs != [] {
      var n := |objs| - 1;
      OnceInDistinct(objs[..n], o);
      assert objs == objs[..n] + [objs[n]];
      forall i | 0 <= i < n ensures objs[..n][i] != objs[n] { assert objs[i].id != objs[n].id; }
    }
  }

  lemma TwiceIn<T>(s: seq<T>, i: nat, j: nat)
    requires i < j < |s| && s[i] == s[j]
    ensures multiset(s)[s[i]] >= 2
  {
    assert s == s[..j] + [s[j]] + s[j + 1..];
    assert s[..j][i] == s[i];
    assert s[i] in multiset(s[..j]);
  }

  /** Being distinct does not depend on the order. */
  lemma PermutedDistinct(s: seq<Obj>, objs: seq<Obj>)
    requires multiset(s) == multiset(objs) && DistinctIds(objs) && DistinctPaths(objs)
    ensures DistinctIds(s) && DistinctPaths(s)
  {
    forall i, j | 0 <= i < j < |s| ensures s[i].id != s[j].id && s[i].path != s[j].path {
      assert s[i] in multiset(objs) && s[j] in multiset(objs);
      var p :| 0 <= p < |objs| && objs[p] == s[i];
      var q :| 0 <= q < |objs| && objs[q] == s[j];
      if p == q {
        TwiceIn(s, i, j);
        OnceInDistinct(objs, s[i]);
      }
    }
  }

  lemma {:induction false} MissingDistinct(es: seq<Entry>, objs: seq<Obj>)
    requires DistinctIds(objs) && DistinctPaths(objs)
    ensures DistinctIds(Missing(es, objs)) && DistinctPaths(Missing(es, objs))
  {
    if objs != [] {
      var n := |objs| - 1;
      MissingDistinct(es, objs[..n]);
      hide HasId, Missing;
      assert objs == objs[..n] + [objs[n]];
      AppendDistinct(Missing(es, objs[..n]), objs[..n], objs[n]);
      MissingLast(es, objs);
    }
  }

  lemma MissingLast(es: seq<Entry>, objs: seq<Obj>)
    requires objs != []
    ensures var rest, last := Missing(es, objs[..|objs| - 1]), objs[|objs| - 1];
            Missing(es, objs) == if HasId(es, last.id) then rest else rest + [last]
  {}

  /** What is added to part of a sequence differs from that part if it differs from all of it. */
  lemma AppendDistinct(part: seq<Obj>, all: seq<Obj>, last: Obj)
    requires DistinctIds(part) && DistinctPaths(part) && (forall o :: o in part ==> o in all)
    requires DistinctIds(all + [last]) && DistinctPaths(all + [last])
    ensures DistinctIds(part + [last]) && DistinctPaths(part + [last])
  {
    forall o | o in part ensures o.id != last.id && o.path != last.path {
      var i :| 0 <= i < |all| && all[i] == o;
      assert (all + [last])[i] == o && (all + [last])[|all|] == last;
    }
  }

  lemma MissingFresh(c: Codec, d: Disk, objs: seq<Obj>, all: seq<Obj>)
    requires DistinctIds(objs) && DistinctPaths(objs) && AllStorable(objs)
    requires multiset(all) == multiset(Missing(Entries(c, d.log), objs))
    ensures Fresh(c, d, all)
  {
    MissingDistinct(Entries(c, d.log), objs);
    PermutedDistinct(all, Missing(Entries(c, d.log), objs));
    forall o | o in all ensures WritableObj(o) && !HasId(Entries(c, d.log), o.id) {
      assert o in multiset(all);
      assert o in Missing(Entries(c, d.log), objs);
    }
    forall o, e | o in all && e in Entries(c, d.log) ensures o.id != e.id { HasIdMeans(Entries(c, d.log), o.id); }
  }

  /** A run that packs what its snapshot misses is valid: nothing it stores is in the index already. */
  lemma SnapshotRunValid(c: Codec, d: Disk, run: Run, objs: seq<Obj>)
    requires DistinctIds(objs) && DistinctPaths(objs) && AllStorable(objs) && PacksMissing(c, d, run, objs)
    requires IsListing(run.dir, d.packs) && IsListing(run.dirAfter, Recovered(c, d, run.dir).packs)
    requires NextNumber(run.dirAfter) + |run.groups| <= PACK_LIMIT
    ensures ValidRun(c, d, run)
  {
    MissingFresh(c, Recovered(c, d, run.dir), objs, Concat(run.groups));
  }

  // ---------------------------------------------------------------- the index only grows by the run's entries

  lemma WritingGrows(c: Codec, t: Disk, n: nat, objs: seq<Obj>, j: nat)
    requires j < |objs| + 5
    ensures Entries(c, CommitAt(c, t, n, objs, j).log) <= Entries(c, t.log) + EntriesFor(c, n, objs)
  {
    hide *;
    WritingOnlyPack(c, t, n, objs, j);
  }

  lemma AppendingGrows(c: Codec, t: Disk, n: nat, objs: seq<Obj>, p: nat)
    requires Sound(c) && ReadyToCommit(c, t, n, objs) && p <= |IndexText(c, n, objs)|
    ensures Entries(c, Appended(c, t, n, objs, p).log) <= Entries(c, t.log) + EntriesFor(c, n, objs)
  {
    hide Sound, Safe, Entries, EntriesFor, Terminated, WholeLines, Texts, LogHolds;
    AppendedEntries(c, t, n, objs, p);
    PrefixOfSum(Entries(c, t.log), EntriesFor(c, n, objs), WholeLines(Texts(c, EntriesFor(c, n, objs)), p));
  }

  lemma PrefixOfSum<T>(a: seq<T>, b: seq<T>, k: nat)
    requires k <= |b|
    ensures a + b[..k] <= a + b
  {}

  lemma CommitGrows(c: Codec, t: Disk, n: nat, objs: seq<Obj>, s: Disk)
    requires Sound(c) && ReadyToCommit(c, t, n, objs) && s in CommitStates(c, t, n, objs)
    ensures Entries(c, s.log) <= Entries(c, t.log) + EntriesFor(c, n, objs)
  {
    hide *;
    var j := StateAt(c, t, n, objs, s);
    if j < |objs| + 5 {
      WritingGrows(c, t, n, objs, j);
    } else {
      AppendingAt(c, t, n, objs, j);
      AppendingGrows(c, t, n, objs, j - |objs| - 5);
    }
  }

  lemma PrefixDrop<T>(a: seq<T>, b: seq<T>, x: seq<T>, y: seq<T>)
    requires a <= b + x
    ensures a <= b + (x + y)
  {
    assert b + (x + y) == (b + x) + y;
  }

  lemma {:induction false} CommitsGrow(c: Codec, d: Disk, n: nat, groups: seq<seq<Obj>>, s: Disk)
    requires Sound(c) && ReadyToRun(c, d, n, groups) && s in AllCommitStates(c, d, n, groups)
    ensures Entries(c, s.log) <= Entries(c, d.log) + NewEntries(c, n, groups)
  {
    hide *;
    if groups == [] {
      NoCommits(c, d, n);
    } else {
      var k := |groups| - 1;
      var t := AfterCommits(c, d, n, groups[..k]);
      LastCommitStates(c, d, n, groups);
      ReadyForLast(c, d, n, groups);
      CommitsKeepSafe(c, d, n, groups[..k]);
      if s in AllCommitStates(c, d, n, groups[..k]) {
        CommitsGrow(c, d, n, groups[..k], s);
        PrefixDrop(Entries(c, s.log), Entries(c, d.log), NewEntries(c, n, groups[..k]),
                   EntriesFor(c, n + k, groups[k]));
      } else {
        LastReady(c, d, n, groups);
        CommitGrows(c, t, n + k, groups[k], s);
        Associative(Entries(c, d.log), NewEntries(c, n, groups[..k]), EntriesFor(c, n + k, groups[k]));
      }
    }
  }

  lemma RunGrows(c: Codec, d: Disk, run: Run, s: Disk)
    requires Sound(c) && Safe(c, d) && ValidRun(c, d, run) && s in RunStates(c, d, run)
    ensures Entries(c, s.log) <= Entries(c, d.log) + NewEntries(c, NextNumber(run.dirAfter), run.groups)
  {
    RunReady(c, d, run);
    RecoveredSafe(c, d, run.dir);
    hide Safe, ReadyToRun, Entries, NewEntries, Recovered;
    if s in RecoveryStates(c, d, run.dir) {
      var j :| 0 <= j < RecoveryLength(c, d, run.dir) && RecoveryStates(c, d, run.dir)[j] == s;
      RecoveryKeepsEntries(c, d, run.dir, j);
    } else {
      CommitsGrow(c, Recovered(c, d, run.dir), NextNumber(run.dirAfter), run.groups, s);
    }
  }

  lemma RecoveryKeepsEntries(c: Codec, d: Disk, order: seq<Name>, j: nat)
    requires j < RecoveryLength(c, d, order)
    ensures Entries(c, RecoveryAt(c, d, order, j).log) == Entries(c, d.log)
  {
    LinesRepaired(d.log);
  }

  // ---------------------------------------------------------------- exactly once

  /** `e` stores one of the objects that `base` had no line for. */
  ghost predicate Stores(c: Codec, base: seq<Entry>, objs: seq<Obj>, e: Entry) {
    exists o :: o in Missing(base, objs) && e == EntryFor(c, e.pack, o)
  }

  /** The index is `base` and, after it, lines for objects of the snapshot that `base` lacked. */
  ghost predicate GrownFrom(c: Codec, base: seq<Entry>, objs: seq<Obj>, d: Disk) {
    && base <= Entries(c, d.log)
    && forall e :: e in Entries(c, d.log)[|base|..] ==> Stores(c, base, objs, e)
  }

  lemma NewEntriesStore(c: Codec, base: seq<Entry>, es: seq<Entry>, objs: seq<Obj>, n: nat,
          groups: seq<seq<Obj>>, e: Entry)
    requires base <= es && multiset(Concat(groups)) == multiset(Missing(es, objs)) && e in NewEntries(c, n, groups)
    ensures Stores(c, base, objs, e)
  {
    var i :| 0 <= i < |NewEntries(c, n, groups)| && NewEntries(c, n, groups)[i] == e;
    var o := Concat(groups)[i];
    assert o in multiset(Missing(es, objs));
    assert o in Missing(es, objs);
    HasIdGrows(base, es, o.id);
    assert o in Missing(base, objs);
  }

  lemma HasIdGrows(es: seq<Entry>, fs: seq<Entry>, id: string)
    requires es <= fs
    ensures HasId(es, id) ==> HasId(fs, id)
  {
    if i :| 0 <= i < |es| && es[i].id == id { assert fs[i].id == id; }
  }

  /** Lines already there and lines a run adds: all store what `base` lacked. */
  lemma GrowthStores(c: Codec, base: seq<Entry>, objs: seq<Obj>, es: seq<Entry>, now: seq<Entry>, fs: seq<Entry>)
    requires base <= es && es <= now && now <= es + fs
    requires forall e :: e in es[|base|..] ==> Stores(c, base, objs, e)
    requires forall e :: e in fs ==> Stores(c, base, objs, e)
    ensures base <= now && forall e :: e in now[|base|..] ==> Stores(c, base, objs, e)
  {
    hide Stores;
    forall e | e in now[|base|..] ensures Stores(c, base, objs, e) {
      var i :| 0 <= i < |now| - |base| && now[|base|..][i] == e;
      if i + |base| < |es| { assert es[|base|..][i] == e; } else { assert fs[i + |base| - |es|] == e; }
    }
  }

  lemma RunGrownFrom(c: Codec, base: seq<Entry>, objs: seq<Obj>, d: Disk, run: Run, s: Disk)
    requires Sound(c) && Safe(c, d) && ValidRun(c, d, run) && PacksMissing(c, d, run, objs)
    requires GrownFrom(c, base, objs, d) && s in RunStates(c, d, run)
    ensures GrownFrom(c, base, objs, s)
  {
    hide Stores, Safe, NewEntries, Entries, Recovered, ValidRun, RunStates, Sound, Missing, Concat;
    var n := NextNumber(run.dirAfter);
    var es, fs := Entries(c, d.log), NewEntries(c, n, run.groups);
    RunKeepsSafe(c, d, run, s);
    EntriesRecovered(c, d, run.dir);
    RunGrows(c, d, run, s);
    forall e | e in fs ensures Stores(c, base, objs, e) { NewEntriesStore(c, base, es, objs, n, run.groups, e); }
    GrowthStores(c, base, objs, es, Entries(c, s.log), fs);
  }

  lemma EntriesRecovered(c: Codec, d: Disk, order: seq<Name>)
    ensures Entries(c, Recovered(c, d, order).log) == Entries(c, d.log)
  {
    LinesRepaired(d.log);
  }

  /** A run that finishes leaves the recovered lines and after them all the new ones. */
  lemma FinishedEntries(c: Codec, d: Disk, run: Run)
    requires Sound(c) && Safe(c, d) && ValidRun(c, d, run) && Finishes(c, d, run)
    ensures Entries(c, AfterRun(c, d, run).log)
            == Entries(c, Recovered(c, d, run.dir).log) + NewEntries(c, NextNumber(run.dirAfter), run.groups)
  {
    hide Safe, ReadyToRun, ValidRun, Entries, Recovered, AfterCommits, RunStates, Sound;
    RunReady(c, d, run);
    CommitsKeepSafe(c, Recovered(c, d, run.dir), NextNumber(run.dirAfter), run.groups);
  }

  lemma IdBefore(es: seq<Entry>, fs: seq<Entry>, id: string)
    requires HasId(es, id)
    ensures HasId(es + fs, id)
  {
    HasIdGrows(es, es + fs, id);
  }

  /** An object in a group of the run has a line among the new ones. */
  lemma IdAmongNew(c: Codec, es: seq<Entry>, n: nat, groups: seq<seq<Obj>>, o: Obj)
    requires o in multiset(Concat(groups))
    ensures HasId(es + NewEntries(c, n, groups), o.id)
  {
    hide Concat, NewEntries;
    var fs := NewEntries(c, n, groups);
    var i :| 0 <= i < |Concat(groups)| && Concat(groups)[i] == o;
    assert (es + fs)[|es| + i] == fs[i];
    EntryForId(c, fs[i], o);
  }

  lemma MissingGrouped(c: Codec, d: Disk, run: Run, objs: seq<Obj>, o: Obj)
    requires PacksMissing(c, d, run, objs) && o in objs && !HasId(Entries(c, Recovered(c, d, run.dir).log), o.id)
    ensures o in multiset(Concat(run.groups))
  {
    hide Recovered, Entries, HasId, Concat;
    assert o in Missing(Entries(c, Recovered(c, d, run.dir).log), objs);
  }

  /** A run that finishes leaves nothing of its snapshot missing. */
  lemma FinishedStoresAll(c: Codec, d: Disk, run: Run, objs: seq<Obj>, o: Obj)
    requires Sound(c) && Safe(c, d) && ValidRun(c, d, run) && PacksMissing(c, d, run, objs)
    requires Finishes(c, d, run) && o in objs
    ensures HasId(Entries(c, AfterRun(c, d, run).log), o.id)
  {
    hide *;
    FinishedEntries(c, d, run);
    var es := Entries(c, Recovered(c, d, run.dir).log);
    if HasId(es, o.id) {
      IdBefore(es, NewEntries(c, NextNumber(run.dirAfter), run.groups), o.id);
    } else {
      MissingGrouped(c, d, run, objs, o);
      IdAmongNew(c, es, NextNumber(run.dirAfter), run.groups, o);
    }
  }

  /** And its index ends in a whole line. */
  lemma FinishedTerminated(c: Codec, d: Disk, run: Run)
    requires Sound(c) && Safe(c, d) && ValidRun(c, d, run) && Finishes(c, d, run)
    ensures Terminated(AfterRun(c, d, run).log)
  {
    hide Safe, ReadyToRun, ValidRun, Entries, Recovered, AfterCommits, RunStates, Terminated;
    RunReady(c, d, run);
    CommitsKeepSafe(c, Recovered(c, d, run.dir), NextNumber(run.dirAfter), run.groups);
  }

  /** The disk after runs, from `d` on. */
  function PlayFrom(c: Codec, d: Disk, runs: seq<Run>): Disk {
    if runs == [] then d else AfterRun(c, PlayFrom(c, d, runs[..|runs| - 1]), runs[|runs| - 1])
  }

  /** Each run packs what the snapshot still misses when it starts. */
  ghost predicate SnapshotRuns(c: Codec, d: Disk, runs: seq<Run>, objs: seq<Obj>) {
    runs == []
    || (var init, run := runs[..|runs| - 1], runs[|runs| - 1];
        var s := PlayFrom(c, d, init);
        SnapshotRuns(c, d, init, objs) && ValidRun(c, s, run) && PacksMissing(c, s, run, objs))
  }

  lemma {:induction false} RunsGrow(c: Codec, d: Disk, runs: seq<Run>, objs: seq<Obj>)
    requires Sound(c) && Safe(c, d) && SnapshotRuns(c, d, runs, objs)
    ensures Safe(c, PlayFrom(c, d, runs)) && GrownFrom(c, Entries(c, d.log), objs, PlayFrom(c, d, runs))
  {
    hide *;
    if runs == [] {
      NoRuns(c, d, objs);
    } else {
      var init, run := runs[..|runs| - 1], runs[|runs| - 1];
      LastSnapshotRun(c, d, runs, objs);
      RunsGrow(c, d, init, objs);
      var s := PlayFrom(c, d, init);
      RunEndsInAState(c, s, run);
      RunGrownFrom(c, Entries(c, d.log), objs, s, run, AfterRun(c, s, run));
      RunKeepsSafe(c, s, run, AfterRun(c, s, run));
    }
  }

  lemma NoRuns(c: Codec, d: Disk, objs: seq<Obj>)
    ensures PlayFrom(c, d, []) == d && GrownFrom(c, Entries(c, d.log), objs, d)
  {}

  lemma LastSnapshotRun(c: Codec, d: Disk, runs: seq<Run>, objs: seq<Obj>)
    requires SnapshotRuns(c, d, runs, objs) && runs != []
    ensures var init, run := runs[..|runs| - 1], runs[|runs| - 1];
            var s := PlayFrom(c, d, init);
            && SnapshotRuns(c, d, init, objs) && ValidRun(c, s, run) && PacksMissing(c, s, run, objs)
            && PlayFrom(c, d, runs) == AfterRun(c, s, run)
  {}

  /** After any number of crashed runs of a snapshot and one that finishes, the index holds its old lines and
      then lines for the objects that were missing, each object of the snapshot having exactly one. */
  lemma ResumedExactlyOnce(c: Codec, d: Disk, runs: seq<Run>, objs: seq<Obj>)
    requires Sound(c) && Safe(c, d) && SnapshotRuns(c, d, runs, objs) && runs != []
    requires Finishes(c, PlayFrom(c, d, runs[..|runs| - 1]), runs[|runs| - 1])
    ensures var t := PlayFrom(c, d, runs);
            && GrownFrom(c, Entries(c, d.log), objs, t)
            && DistinctEntryIds(Entries(c, t.log))
            && (forall o :: o in objs ==> HasId(Entries(c, t.log), o.id))
  {
    var init, run := runs[..|runs| - 1], runs[|runs| - 1];
    RunsGrow(c, d, runs, objs);
    RunsGrow(c, d, init, objs);
    LastSnapshotRun(c, d, runs, objs);
    var s := PlayFrom(c, d, init);
    hide SnapshotRuns, PlayFrom, GrownFrom, ValidRun, PacksMissing, Finishes, AfterRun, Entries;
    forall o | o in objs ensures HasId(Entries(c, PlayFrom(c, d, runs).log), o.id) {
      FinishedStoresAll(c, s, run, objs, o);
    }
  }

  // ---------------------------------------------------------------- progress

  lemma {:induction false} MissingShrinks(es: seq<Entry>, fs: seq<Entry>, objs: seq<Obj>)
    requires es <= fs
    ensures |Missing(fs, objs)| <= |Missing(es, objs)|
    ensures (exists o :: o in Missing(es, objs) && HasId(fs, o.id)) ==> |Missing(fs, objs)| < |Missing(es, objs)|
  {
    if objs != [] {
      var n := |objs| - 1;
      MissingShrinks(es, fs, objs[..n]);
      HasIdGrows(es, fs, objs[n].id);
    }
  }

  /** Every pack committed in full leaves strictly fewer objects without a line. */
  lemma CommitMakesProgress(c: Codec, d: Disk, n: nat, objs: seq<Obj>, snapshot: seq<Obj>)
    requires Sound(c) && ReadyToCommit(c, d, n, objs) && objs != []
    requires objs[0] in Missing(Entries(c, d.log), snapshot)
    ensures |Missing(Entries(c, Committed(c, d, n, objs).log), snapshot)| < |Missing(Entries(c, d.log), snapshot)|
  {
    var es, fs := Entries(c, d.log), EntriesFor(c, n, objs);
    AppendedEntries(c, d, n, objs, |IndexText(c, n, objs)|);
    assert fs[..|objs|] == fs;
    assert (es + fs)[|es|].id == objs[0].id;
    MissingShrinks(es, es + fs, snapshot);
  }
}
