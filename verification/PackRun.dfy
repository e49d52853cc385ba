/** A whole pack run, crash included, and any number of them: `tp_pack_multi` on the disk. */
module PackRun {
  import opened Types
  import opened LineLog
  import opened OnDisk
  import opened Commit
  import opened Recovery
  import opened Layout

  // ---------------------------------------------------------------- pack numbers

  /** The highest pack number a directory scan recognises, or 0. */
  function Best(order: seq<Name>): (b: nat)
    ensures b < PACK_LIMIT && (b == 0 || Archive(b) in order)
    ensures forall m: nat :: Archive(m) in order && m < PACK_LIMIT ==> m <= b
  {
    if order == [] then 0
    else
      var rest, last := Best(order[..|order| - 1]), order[|order| - 1];
      if last.Archive? && last.n < PACK_LIMIT && last.n > rest then last.n else rest
  }

  function NextNumber(order: seq<Name>): nat { Best(order) + 1 }

  method NextPackNumber(order: seq<Name>) returns (n: nat)
    ensures n == NextNumber(order)
  {
    var best := 0;
    for i := 0 to |order|
      invariant best == Best(order[..i])
    {
      assert order[..i + 1][..i] == order[..i];
      if order[i].Archive? && order[i].n < PACK_LIMIT && order[i].n > best { best := order[i].n; }
    }
    assert order[..|order|] == order;
    return best + 1;
  }

  /** The next pack number is above every archive's exactly while no archive number has seven digits. */
  lemma NextNumberFreshExactly(order: seq<Name>, packs: map<Name, File>)
    requires IsListing(order, packs)
    ensures (forall m: nat :: Archive(m) in packs ==> m < NextNumber(order))
            <==> (forall m: nat :: Archive(m) in packs ==> m < PACK_LIMIT)
  {
    if forall m: nat :: Archive(m) in packs ==> m < PACK_LIMIT {
      forall m: nat | Archive(m) in packs ensures m < NextNumber(order) { assert Archive(m) in order; }
    }
  }

  /** It is 1, or one above a pack that is there. */
  lemma NextNumberLeast(order: seq<Name>)
    ensures NextNumber(order) == 1 || Archive(NextNumber(order) - 1) in order
  {}

  // ---------------------------------------------------------------- several packs

  /** The disk after committing `groups` as packs `n`, `n + 1`, and so on. */
  function AfterCommits(c: Codec, d: Disk, n: nat, groups: seq<seq<Obj>>): Disk {
    if groups == [] then d
    else
      var k := |groups| - 1;
      Committed(c, AfterCommits(c, d, n, groups[..k]), n + k, groups[k])
  }

  /** How many states the commits pass through. */
  function CommitsLength(c: Codec, n: nat, groups: seq<seq<Obj>>): nat {
    if groups == [] then 0
    else
      var k := |groups| - 1;
      CommitsLength(c, n, groups[..k]) + CommitLength(c, n + k, groups[k])
  }

  function AllCommitStates(c: Codec, d: Disk, n: nat, groups: seq<seq<Obj>>): (s: seq<Disk>)
    ensures |s| == CommitsLength(c, n, groups) && (groups != [] ==> s != [])
    ensures AfterCommits(c, d, n, groups) == if s == [] then d else s[|s| - 1]
  {
    if groups == [] then []
    else
      var k := |groups| - 1;
      AllCommitStates(c, d, n, groups[..k]) + CommitStates(c, AfterCommits(c, d, n, groups[..k]), n + k, groups[k])
  }

  function NewEntries(c: Codec, n: nat, groups: seq<seq<Obj>>): (es: seq<Entry>)
    ensures |es| == |Concat(groups)|
    ensures forall i :: 0 <= i < |es| ==> es[i] == EntryFor(c, es[i].pack, Concat(groups)[i])
  {
    if groups == [] then []
    else
      var k := |groups| - 1;
      NewEntries(c, n, groups[..k]) + EntriesFor(c, n + k, groups[k])
  }

  ghost predicate Fresh(c: Codec, d: Disk, objs: seq<Obj>) {
    && DistinctIds(objs) && DistinctPaths(objs) && AllStorable(objs)
    && (forall o, e :: o in objs && e in Entries(c, d.log) ==> o.id != e.id)
  }

  ghost predicate ReadyToRun(c: Codec, d: Disk, n: nat, groups: seq<seq<Obj>>) {
    && Safe(c, d) && Terminated(d.log)
    && n + |groups| <= PACK_LIMIT && (forall m: nat :: Archive(m) in d.packs ==> m < n)
    && Fresh(c, d, Concat(groups))
  }

  lemma ConcatLastGroup(groups: seq<seq<Obj>>)
    requires groups != []
    ensures var k := |groups| - 1;
            Concat(groups) == Concat(groups[..k]) + groups[k]
  {}

  lemma FreshPart(c: Codec, d: Disk, a: seq<Obj>, b: seq<Obj>)
    requires Fresh(c, d, a + b)
    ensures Fresh(c, d, a)
    ensures DistinctIds(b) && DistinctPaths(b) && AllStorable(b)
    ensures forall o, p :: o in a && p in b ==> o.id != p.id
    ensures forall o, e :: o in b && e in Entries(c, d.log) ==> o.id != e.id
  {
    var s := a + b;
    forall o | o in a ensures o in s {}
    forall o | o in b ensures o in s {}
    forall i, j | 0 <= i < j < |b| ensures b[i].id != b[j].id && b[i].path != b[j].path {
      assert b[i] == s[|a| + i] && b[j] == s[|a| + j];
    }
    forall i, j | 0 <= i < j < |a| ensures a[i].id != a[j].id && a[i].path != a[j].path {
      assert a[i] == s[i] && a[j] == s[j];
    }
    forall o, p | o in a && p in b ensures o.id != p.id {
      var i :| 0 <= i < |a| && a[i] == o;
      var j :| 0 <= j < |b| && b[j] == p;
      assert s[i] == o && s[|a| + j] == p;
    }
  }

  lemma LastCommitStates(c: Codec, d: Disk, n: nat, groups: seq<seq<Obj>>)
    requires groups != []
    ensures var k := |groups| - 1;
            var t := AfterCommits(c, d, n, groups[..k]);
            && AfterCommits(c, d, n, groups) == Committed(c, t, n + k, groups[k])
            && NewEntries(c, n, groups) == NewEntries(c, n, groups[..k]) + EntriesFor(c, n + k, groups[k])
            && (forall s :: s in AllCommitStates(c, d, n, groups) ==>
                  s in AllCommitStates(c, d, n, groups[..k]) || s in CommitStates(c, t, n + k, groups[k]))
  {}

  lemma CommitsNone(c: Codec, d: Disk, n: nat)
    ensures AfterCommits(c, d, n, []) == d && AllCommitStates(c, d, n, []) == []
  {}

  lemma NoCommits(c: Codec, d: Disk, n: nat)
    requires ReadyToRun(c, d, n, [])
    ensures var t := AfterCommits(c, d, n, []);
            && t == d && Safe(c, t) && Preserved(c, d, t) && Terminated(t.log)
            && Entries(c, t.log) == Entries(c, d.log) + NewEntries(c, n, [])
            && (forall m: nat :: Archive(m) in t.packs ==> m < n)
    ensures AllCommitStates(c, d, n, []) == []
  {
    assert Entries(c, d.log) + [] == Entries(c, d.log);
  }

  /** After any number of commits the disk is safe, extended by exactly the groups' entries, and ready for the next. */
  lemma {:induction false} CommitsKeepSafe(c: Codec, d: Disk, n: nat, groups: seq<seq<Obj>>)
    requires Sound(c) && ReadyToRun(c, d, n, groups)
    ensures var t := AfterCommits(c, d, n, groups);
            && Safe(c, t) && Preserved(c, d, t) && Terminated(t.log)
            && Entries(c, t.log) == Entries(c, d.log) + NewEntries(c, n, groups)
            && (forall m: nat :: Archive(m) in t.packs ==> m < n + |groups|)
    ensures forall s :: s in AllCommitStates(c, d, n, groups) ==> Safe(c, s) && Preserved(c, d, s)
  {
    hide *;
    if groups == [] {
      NoCommits(c, d, n);
    } else {
      var k := |groups| - 1;
      ReadyForLast(c, d, n, groups);
      CommitsKeepSafe(c, d, n, groups[..k]);
      var t := AfterCommits(c, d, n, groups[..k]);
      LastReady(c, d, n, groups);
      LastCommit(c, d, t, n + k, groups[k]);
      LastCommitStates(c, d, n, groups);
      Associative(Entries(c, d.log), NewEntries(c, n, groups[..k]), EntriesFor(c, n + k, groups[k]));
    }
  }

  lemma ReadyForLast(c: Codec, d: Disk, n: nat, groups: seq<seq<Obj>>)
    requires ReadyToRun(c, d, n, groups) && groups != []
    ensures ReadyToRun(c, d, n, groups[..|groups| - 1])
  {
    ConcatLastGroup(groups);
    FreshPart(c, d, Concat(groups[..|groups| - 1]), groups[|groups| - 1]);
  }

  lemma LastReady(c: Codec, d: Disk, n: nat, groups: seq<seq<Obj>>)
    requires ReadyToRun(c, d, n, groups) && groups != []
    requires var k := |groups| - 1;
             var t := AfterCommits(c, d, n, groups[..k]);
             && Safe(c, t) && Terminated(t.log)
             && Entries(c, t.log) == Entries(c, d.log) + NewEntries(c, n, groups[..k])
             && (forall m: nat :: Archive(m) in t.packs ==> m < n + k)
    ensures var k := |groups| - 1;
            ReadyToCommit(c, AfterCommits(c, d, n, groups[..k]), n + k, groups[k])
  {
    var k := |groups| - 1;
    var t := AfterCommits(c, d, n, groups[..k]);
    ConcatLastGroup(groups);
    FreshPart(c, d, Concat(groups[..k]), groups[k]);
    hide Safe, Entries, AfterCommits, EntryFor, DistinctPaths, DistinctIds;
    forall o, e | o in groups[k] && e in Entries(c, t.log) ensures o.id != e.id {
      if e !in Entries(c, d.log) {
        var i :| 0 <= i < |NewEntries(c, n, groups[..k])| && NewEntries(c, n, groups[..k])[i] == e;
        EntryForId(c, e, Concat(groups[..k])[i]);
        assert Concat(groups[..k])[i] in Concat(groups[..k]);
      }
    }
  }

  lemma EntryForId(c: Codec, e: Entry, o: Obj)
    requires e == EntryFor(c, e.pack, o)
    ensures e.id == o.id
  {}

  lemma CommitStateSafe(c: Codec, d: Disk, t: Disk, n: nat, objs: seq<Obj>, s: Disk)
    requires Sound(c) && Preserved(c, d, t) && ReadyToCommit(c, t, n, objs) && s in CommitStates(c, t, n, objs)
    ensures Safe(c, s) && Preserved(c, d, s)
  {
    hide Safe, Preserved, ReadyToCommit, CommitAt, CommitLength, Sound;
    var j :| 0 <= j < CommitLength(c, n, objs) && CommitStates(c, t, n, objs)[j] == s;
    CommitKeepsSafe(c, t, n, objs, j);
    PreservedTransitive(c, d, t, s);
  }

  lemma CommittedIsState(c: Codec, t: Disk, n: nat, objs: seq<Obj>)
    ensures Committed(c, t, n, objs) in CommitStates(c, t, n, objs)
  {
    hide CommitStates, Committed;
    var s := CommitStates(c, t, n, objs);
    assert s[|s| - 1] in s;
  }

  lemma CommittedEntries(c: Codec, t: Disk, n: nat, objs: seq<Obj>)
    requires Sound(c) && ReadyToCommit(c, t, n, objs)
    ensures var u := Committed(c, t, n, objs);
            && Terminated(u.log) && Entries(c, u.log) == Entries(c, t.log) + EntriesFor(c, n, objs)
  {
    AppendedEntries(c, t, n, objs, |IndexText(c, n, objs)|);
    assert EntriesFor(c, n, objs)[..|objs|] == EntriesFor(c, n, objs);
  }

  lemma CommittedBelow(c: Codec, t: Disk, n: nat, objs: seq<Obj>)
    requires ReadyToCommit(c, t, n, objs)
    ensures forall m: nat :: Archive(m) in Committed(c, t, n, objs).packs ==> m <= n
  {
    hide IndexText, Safe, Entries;
  }

  lemma LastCommit(c: Codec, d: Disk, t: Disk, n: nat, objs: seq<Obj>)
    requires Sound(c) && Preserved(c, d, t) && ReadyToCommit(c, t, n, objs)
    ensures var u := Committed(c, t, n, objs);
            && Safe(c, u) && Preserved(c, d, u) && Terminated(u.log)
            && Entries(c, u.log) == Entries(c, t.log) + EntriesFor(c, n, objs)
            && (forall m: nat :: Archive(m) in u.packs ==> m <= n)
    ensures forall s :: s in CommitStates(c, t, n, objs) ==> Safe(c, s) && Preserved(c, d, s)
  {
    hide *;
    forall s | s in CommitStates(c, t, n, objs) ensures Safe(c, s) && Preserved(c, d, s) {
      CommitStateSafe(c, d, t, n, objs, s);
    }
    CommittedIsState(c, t, n, objs);
    CommittedEntries(c, t, n, objs);
    CommittedBelow(c, t, n, objs);
  }

  // ---------------------------------------------------------------- runs

  /** One pack run: how its two directory scans were read, the groups of objects it set out to commit,
      and the number of disk steps after which it crashed, if it did not finish first. */
  datatype Run = Run(dir: seq<Name>, dirAfter: seq<Name>, groups: seq<seq<Obj>>, crash: nat)

  ghost predicate ValidRun(c: Codec, d: Disk, run: Run) {
    && IsListing(run.dir, d.packs)
    && var r := Recovered(c, d, run.dir);
    && IsListing(run.dirAfter, r.packs)
    && NextNumber(run.dirAfter) + |run.groups| <= PACK_LIMIT
    && Fresh(c, r, Concat(run.groups))
  }

  function RunLength(c: Codec, d: Disk, run: Run): (n: nat)
    ensures n > 0
  {
    RecoveryLength(c, d, run.dir) + CommitsLength(c, NextNumber(run.dirAfter), run.groups)
  }

  /** All the states an uninterrupted run passes through. */
  function RunStates(c: Codec, d: Disk, run: Run): (s: seq<Disk>)
    ensures |s| == RunLength(c, d, run)
  {
    RecoveryStates(c, d, run.dir)
    + AllCommitStates(c, Recovered(c, d, run.dir), NextNumber(run.dirAfter), run.groups)
  }

  predicate Finishes(c: Codec, d: Disk, run: Run) { run.crash >= RunLength(c, d, run) }

  function FinalDisk(c: Codec, d: Disk, run: Run): Disk {
    AfterCommits(c, Recovered(c, d, run.dir), NextNumber(run.dirAfter), run.groups)
  }

  /** Where a run leaves the disk. */
  function AfterRun(c: Codec, d: Disk, run: Run): Disk {
    if Finishes(c, d, run) then FinalDisk(c, d, run)
    else RunStates(c, d, run)[run.crash]
  }

  lemma RunReady(c: Codec, d: Disk, run: Run)
    requires Sound(c) && Safe(c, d) && ValidRun(c, d, run)
    ensures ReadyToRun(c, Recovered(c, d, run.dir), NextNumber(run.dirAfter), run.groups)
  {
    RecoveredSafe(c, d, run.dir);
    NextNumberFreshExactly(run.dirAfter, Recovered(c, d, run.dir).packs);
  }

  /** Every state of a run is safe and harms no entry that was there before. */
  lemma RunKeepsSafe(c: Codec, d: Disk, run: Run, s: Disk)
    requires Sound(c) && Safe(c, d) && ValidRun(c, d, run) && s in RunStates(c, d, run)
    ensures Safe(c, s) && Preserved(c, d, s)
  {
    var r := Recovered(c, d, run.dir);
    RunReady(c, d, run);
    RecoveredSafe(c, d, run.dir);
    hide Safe, Preserved, ReadyToRun, Recovered, RecoveryAt, NextNumber, AfterCommits;
    if s in RecoveryStates(c, d, run.dir) {
      var j :| 0 <= j < RecoveryLength(c, d, run.dir) && RecoveryStates(c, d, run.dir)[j] == s;
      RecoveryKeepsSafe(c, d, run.dir, j);
    } else {
      CommitsKeepSafe(c, r, NextNumber(run.dirAfter), run.groups);
      PreservedTransitive(c, d, r, s);
    }
  }

  lemma RunEndsInAState(c: Codec, d: Disk, run: Run)
    ensures AfterRun(c, d, run) in RunStates(c, d, run)
  {
    if Finishes(c, d, run) {
      var a, b := RecoveryStates(c, d, run.dir),
        AllCommitStates(c, Recovered(c, d, run.dir), NextNumber(run.dirAfter), run.groups);
      assert RunStates(c, d, run)[|a + b| - 1] == FinalDisk(c, d, run);
    }
  }

  // ---------------------------------------------------------------- histories

  /** The disk after a history of runs on a new repository. */
  function Play(c: Codec, runs: seq<Run>): Disk {
    if runs == [] then EMPTY else AfterRun(c, Play(c, runs[..|runs| - 1]), runs[|runs| - 1])
  }

  ghost predicate ValidHistory(c: Codec, runs: seq<Run>) {
    runs == [] || (ValidHistory(c, runs[..|runs| - 1]) && ValidRun(c, Play(c, runs[..|runs| - 1]), runs[|runs| - 1]))
  }

  lemma EmptySafe(c: Codec)
    ensures Safe(c, EMPTY) && Entries(c, EMPTY.log) == []
  {}

  /** In every reachable state - any number of runs, each crashed anywhere - the disk is safe. */
  lemma {:induction false} HistorySafe(c: Codec, runs: seq<Run>)
    requires Sound(c) && ValidHistory(c, runs)
    ensures Safe(c, Play(c, runs))
  {
    if runs == [] {
      EmptySafe(c);
    } else {
      var d, run := Play(c, runs[..|runs| - 1]), runs[|runs| - 1];
      HistorySafe(c, runs[..|runs| - 1]);
      hide Safe, Preserved, AfterRun, RunStates, ValidRun;
      RunEndsInAState(c, d, run);
      RunKeepsSafe(c, d, run, AfterRun(c, d, run));
    }
  }

  /** No later run, finished or crashed, loses an index entry or touches the files of its pack. */
  lemma {:induction false} HistoryPreserves(c: Codec, runs: seq<Run>, i: nat)
    requires Sound(c) && ValidHistory(c, runs) && i <= |runs|
    ensures ValidHistory(c, runs[..i]) && Preserved(c, Play(c, runs[..i]), Play(c, runs))
    decreases |runs|
  {
    hide *;
    if i == |runs| {
      assert runs[..i] == runs;
      PreservedSelf(c, Play(c, runs));
    } else {
      var init, run := runs[..|runs| - 1], runs[|runs| - 1];
      var d := Play(c, init);
      LastRun(c, runs);
      HistoryPreserves(c, init, i);
      assert init[..i] == runs[..i];
      HistorySafe(c, init);
      RunEndsInAState(c, d, run);
      RunKeepsSafe(c, d, run, AfterRun(c, d, run));
      PreservedTransitive(c, Play(c, runs[..i]), d, Play(c, runs));
    }
  }

  lemma LastRun(c: Codec, runs: seq<Run>)
    requires ValidHistory(c, runs) && runs != []
    ensures var init, run := runs[..|runs| - 1], runs[|runs| - 1];
            ValidHistory(c, init) && ValidRun(c, Play(c, init), run) && Play(c, runs) == AfterRun(c, Play(c, init), run)
  {}

  lemma PreservedSelf(c: Codec, d: Disk)
    ensures Preserved(c, d, d)
  {}
}
