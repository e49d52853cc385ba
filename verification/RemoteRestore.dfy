/** Restoring from the remote after an upload. */
module RemoteRestore {
  import opened Types
  import opened LineLog
  import opened OnDisk
  import opened PackRun
  import opened Resume
  import opened ObjectIndex
  import opened Scan
  import opened Identity
  import opened Restore
  import opened World
  import opened MidCrash
  import Upload

  /** A copy with the same index and checksums, and at least the same files, is as safe. */
  lemma CopySafe(c: Codec, d: Disk, t: Disk)
    requires IndexSafe(c, d) && t.log == d.log && t.sums == d.sums
    requires forall name :: name in d.packs ==> FileKept(d, t, name)
    ensures IndexSafe(c, t)
  {
    hide LogHolds, DistinctEntryIds, DistinctPackPaths;
    forall e | e in Entries(c, t.log) ensures EntrySafe(c, t, e) {
      assert EntrySafe(c, d, e);
      PackFrame(c, d, t, e.pack);
    }
  }

  lemma CopyLeaves(c: Codec, base: Disk, d: Disk, t: Disk)
    requires UnreadableOrSafe(c, base, d) && t.log == d.log && t.sums == d.sums
    requires forall name :: name in d.packs ==> FileKept(d, t, name)
    ensures UnreadableOrSafe(c, base, t)
  {
    hide IndexSafe, Loaded, Entries;
    if IndexSafe(c, Closed(d)) { CopySafe(c, Closed(d), Closed(t)); }
  }

  lemma UploadedLeaves(c: Codec, base: Disk, d: Disk, r: Upload.Remote, outcomes: seq<Upload.Outcome>)
    requires UnreadableOrSafe(c, base, d) && Upload.AllPossible(d, outcomes)
    requires forall i :: 0 <= i < |outcomes| ==> outcomes[i].status == 0
    ensures var t := Upload.AsDisk(Upload.AfterUpload(d, r, outcomes));
            t.log == d.log && UnreadableOrSafe(c, base, t)
  {
    Upload.AllCopied(d, r, outcomes);
    hide UnreadableOrSafe, Upload.AfterUpload;
    CopyLeaves(c, base, d, Upload.AsDisk(Upload.AfterUpload(d, r, outcomes)));
  }

  /** After an upload that succeeded, whatever the remote held before and at whatever moment the repository was copied,
      every snapshot packed before restores from the remote to exactly the files that were scanned, or, if the index
      was copied torn in the middle of a line, is refused before anything is written. */
  method RestoreFromRemote(c: Codec, remote: Upload.Remote, snap: seq<SnapFile>, others: Others, ghost r: Upload.Remote,
          ghost outcomes: seq<Upload.Outcome>, ghost truth: Truth, ghost sessions: seq<Session>,
          ghost k: nat, ghost runs: seq<Run>, ghost objs: seq<Obj>)
    returns (rc: int, dest: map<Bytes, Bytes>)
    requires Sound(c) && TornUnreadable(c) && ValidLife(c, truth, sessions) && k < |sessions|
    requires WasPacked(c, sessions, k) && SnapshotRuns(c, Lived(c, sessions), runs, objs)
    requires snap == sessions[k].snap && others == sessions[k].others
    requires var d := PlayFrom(c, Lived(c, sessions), runs);
             && Upload.AllPossible(d, outcomes) && (forall i :: 0 <= i < |outcomes| ==> outcomes[i].status == 0)
             && remote == Upload.AfterUpload(d, r, outcomes)
    ensures rc == 0 <==> Loaded(c, ReadLines(remote.log)).Some?
    ensures rc == 0 ==> TreeBack(sessions[k].tree, dest)
    ensures rc != 0 ==> rc == -1 && dest == map[] && !Terminated(remote.log)
    ensures runs == [] && WasPacked(c, sessions, |sessions| - 1) ==> rc == 0
  {
    hide *;
    ghost var base := Lived(c, sessions);
    ghost var d := PlayFrom(c, base, runs);
    LifeLeaves(c, truth, sessions, k, runs, objs);
    UploadedLeaves(c, base, d, r, outcomes);
    UnreadableTorn(c, d);
    UploadedDisk(remote);
    rc, dest := RestorePacked(c, Upload.AsDisk(remote), snap, others, base, sessions[k]);
    if runs == [] {
      NoRuns(c, base, objs);
      AssumedIf(c, sessions);
      PackedTerminated(c, truth, sessions);
    }
  }

  lemma UploadedDisk(r: Upload.Remote)
    ensures Upload.AsDisk(r).log == r.log
  {}
}
