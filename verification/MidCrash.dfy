/** What a restore finds between a crash and the next run's recovery. */
module MidCrash {
  import opened Types
  import opened LineLog
  import opened OnDisk
  import opened PackRun
  import opened TornIndex
  import opened Resume
  import opened ObjectIndex
  import opened Scan
  import opened Identity
  import opened Restore
  import opened World

  lemma ClosedLeaves(c: Codec, d: Disk, t: Disk)
    requires Loaded(c, ReadLines(t.log)) == None || (Safe(c, Closed(t)) && Preserved(c, d, Closed(t)))
    ensures UnreadableOrSafe(c, d, t)
  {
    hide IndexSafe, Entries, Loaded, ReadLines;
  }

  lemma RunLeaves(c: Codec, d: Disk, run: Run, s: Disk)
    requires Sound(c) && TornUnreadable(c) && Safe(c, d) && ValidRun(c, d, run) && s in RunStates(c, d, run)
    ensures UnreadableOrSafe(c, d, s)
  {
    hide *;
    RunCloses(c, d, run, s);
    ClosedInMeans(c, s, RunStates(c, d, run));
    if Closed(s) in RunStates(c, d, run) { RunKeepsSafe(c, d, run, Closed(s)); }
    ClosedLeaves(c, d, s);
  }

  lemma FromEarlier(c: Codec, d: Disk, t: Disk, s: Disk)
    requires Entries(c, d.log) <= Entries(c, t.log) && UnreadableOrSafe(c, t, s)
    ensures UnreadableOrSafe(c, d, s)
  {
    hide IndexSafe, Entries, Loaded, Known;
  }

  /** After any runs of a snapshot, crashed anywhere. */
  lemma RunsLeave(c: Codec, d: Disk, runs: seq<Run>, objs: seq<Obj>)
    requires Sound(c) && TornUnreadable(c) && Safe(c, d) && UnreadableOrSafe(c, d, d) && SnapshotRuns(c, d, runs, objs)
    ensures var t := PlayFrom(c, d, runs); UnreadableOrSafe(c, d, t) && Safe(c, t)
  {
    hide *;
    RunsGrow(c, d, runs, objs);
    if runs == [] {
      NoRuns(c, d, objs);
    } else {
      var init, run := runs[..|runs| - 1], runs[|runs| - 1];
      var s := PlayFrom(c, d, init);
      LastSnapshotRun(c, d, runs, objs);
      RunsGrow(c, d, init, objs);
      GrownPrefix(c, d, objs, s);
      RunEndsInAState(c, s, run);
      RunLeaves(c, s, run, AfterRun(c, s, run));
      FromEarlier(c, d, s, AfterRun(c, s, run));
    }
  }

  lemma GrownPrefix(c: Codec, d: Disk, objs: seq<Obj>, t: Disk)
    requires GrownFrom(c, Entries(c, d.log), objs, t)
    ensures Entries(c, d.log) <= Entries(c, t.log)
  {}

  // ---------------------------------------------------------------- restoring at any moment

  lemma AssumedIf(c: Codec, sessions: seq<Session>)
    requires Sound(c) && TornUnreadable(c)
    ensures Assumed(c, sessions)
  {
    hide WasPacked, Sound, TornUnreadable;
  }

  lemma LifeLeaves(c: Codec, truth: Truth, sessions: seq<Session>, k: nat, runs: seq<Run>, objs: seq<Obj>)
    requires Sound(c) && TornUnreadable(c) && ValidLife(c, truth, sessions) && k < |sessions|
    requires WasPacked(c, sessions, k) && SnapshotRuns(c, Lived(c, sessions), runs, objs)
    ensures var base := Lived(c, sessions);
            var d := PlayFrom(c, base, runs);
            UnreadableOrSafe(c, base, d) && Safe(c, d) && Packed(c, Entries(c, base.log), sessions[k])
  {
    hide *;
    AssumedIf(c, sessions);
    LifeSettles(c, truth, sessions, k);
    SettledReads(c, truth, Lived(c, sessions));
    RunsLeave(c, Lived(c, sessions), runs, objs);
  }

  /** At any moment - after any sessions, and any runs of whatever objects next, crashed anywhere - every snapshot
      packed before restores to exactly the files that were scanned if the index can be read.  It cannot only
      where a crash tore it in the middle of a line, and then restore refuses before anything is written. */
  method RestoreAnytime(c: Codec, d: Disk, snap: seq<SnapFile>, others: Others, ghost truth: Truth,
          ghost sessions: seq<Session>, ghost k: nat, ghost runs: seq<Run>, ghost objs: seq<Obj>)
    returns (rc: int, dest: map<Bytes, Bytes>)
    requires Sound(c) && TornUnreadable(c) && ValidLife(c, truth, sessions) && k < |sessions|
    requires WasPacked(c, sessions, k) && SnapshotRuns(c, Lived(c, sessions), runs, objs)
    requires d == PlayFrom(c, Lived(c, sessions), runs)
    requires snap == sessions[k].snap && others == sessions[k].others
    ensures rc == 0 <==> Loaded(c, ReadLines(d.log)).Some?
    ensures rc == 0 ==> TreeBack(sessions[k].tree, dest)
    ensures rc != 0 ==> rc == -1 && dest == map[] && !Terminated(d.log)
  {
    hide *;
    LifeLeaves(c, truth, sessions, k, runs, objs);
    UnreadableTorn(c, d);
    rc, dest := RestorePacked(c, d, snap, others, Lived(c, sessions), sessions[k]);
  }
}
