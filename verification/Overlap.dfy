/** Why a snapshot must be packed, or abandoned, before the next tree is scanned: scans of two trees against one index
    give the same ids to different contents. */
module Overlap {
  import opened Types
  import opened LineLog
  import opened OnDisk
  import opened Resume
  import opened ObjectIndex
  import opened Scan
  import opened Identity
  import opened Collect
  import opened PathSafe
  import opened Restore
  import opened World

  const NO_OTHERS := Others([], [])

  /** Two files, alone in their trees, both scanned against a new repository's index. */
  ghost predicate BothScanned(c: Codec, truth: Truth, first: Session, second: Session) {
    && |first.tree| == 1 && |second.tree| == 1 && first.others == second.others == NO_OTHERS
    && first.tree[0].data != second.tree[0].data
    && Sound(c) && ValidSession(c, truth, EMPTY, first) && Finished(c, EMPTY, first)
    && TreeOk(truth, second.tree, NO_OTHERS) && Scanned(c, [], second.hashed, second.tree, second.snap)
  }

  /** The second snapshot is packed behind the first, by runs the last of which finishes. */
  ghost predicate BothPacked(c: Codec, first: Session, second: Session) {
    && SnapshotRuns(c, AfterSession(c, EMPTY, first), second.runs, Objects(second))
    && Finished(c, AfterSession(c, EMPTY, first), second)
  }

  lemma NewIndex(c: Codec)
    ensures Loaded(c, ReadLines(EMPTY.log)) == Some([])
  {
    ReadLinesClean([]);
  }

  lemma OneFile(c: Codec, hashed: FileStat -> bool, tree: seq<FileStat>, snap: seq<SnapFile>)
    requires |tree| == 1 && Scanned(c, [], hashed, tree, snap)
    ensures |snap| == 1 && LineFor(snap[0], tree[0]) && snap[0].id == FormatId(1)
  {
    assert !PathHit([], tree[0]) && !ShaHit(c, [], tree[0]);
    assert FirstOfInode(tree, 0);
    hide FormatId, PathHit, ShaHit;
    assert IdChosen(c, [], hashed, tree, snap, 0);
  }

  /** Both are one line with the id O1. */
  lemma SecondLine(c: Codec, truth: Truth, first: Session, second: Session)
    requires BothScanned(c, truth, first, second)
    ensures Sound(c) && TreeOk(truth, second.tree, NO_OTHERS)
    ensures |second.tree| == |second.snap| == 1 && LineFor(second.snap[0], second.tree[0])
    ensures second.snap[0].id == FormatId(1)
  {
    hide Scanned, Sound, TreeOk, ValidSession, Finished, FormatId, LineFor;
    OneFile(c, second.hashed, second.tree, second.snap);
  }

  lemma FirstLine(c: Codec, truth: Truth, first: Session, second: Session)
    requires BothScanned(c, truth, first, second)
    ensures |first.tree| == |first.snap| == 1 && first.snap[0].id == FormatId(1)
    ensures Begins(c, truth, EMPTY, first) && Finished(c, EMPTY, first)
  {
    NewIndex(c);
    NewRepository(c, truth);
    assert Scanned(c, [], first.hashed, first.tree, first.snap);
    hide Scanned, Sound, TreeOk, Finished, FormatId, Settled, SnapshotRuns;
    OneFile(c, first.hashed, first.tree, first.snap);
  }

  lemma KeptFirst(c: Codec, es: seq<Entry>, ses: Session)
    requires Kept(c, es, ses) && |ses.tree| == 1
    ensures |ses.snap| == 1 && HasBytes(c, es, ses.snap[0].id, ses.tree[0].data)
  {
    hide HasBytes;
  }

  /** The first session leaves an index in which the shared id means the first file's bytes. */
  lemma FirstKept(c: Codec, truth: Truth, first: Session, second: Session)
    requires BothScanned(c, truth, first, second)
    ensures var d := AfterSession(c, EMPTY, first);
            && Settled(c, truth, d) && Terminated(d.log) && |first.tree| == 1
            && HasBytes(c, Entries(c, d.log), FormatId(1), first.tree[0].data)
  {
    hide *;
    FirstLine(c, truth, first, second);
    SessionSettles(c, truth, EMPTY, first);
    FinishedKeeps(c, truth, EMPTY, first);
    KeptFirst(c, Entries(c, AfterSession(c, EMPTY, first).log), first);
  }

  lemma {:induction false} NoneMissing(es: seq<Entry>, objs: seq<Obj>)
    requires forall o :: o in objs ==> HasId(es, o.id)
    ensures Missing(es, objs) == []
  {
    if objs != [] {
      var n := |objs| - 1;
      forall o | o in objs[..n] ensures HasId(es, o.id) { assert o in objs; }
      NoneMissing(es, objs[..n]);
      assert objs[n] in objs;
    }
  }

  lemma HasBytesHasId(c: Codec, es: seq<Entry>, id: string, data: Bytes)
    requires HasBytes(c, es, id, data)
    ensures HasId(es, id)
  {
    hide EntryFits;
    HasIdMeans(es, id);
  }

  lemma ObjectIds(snap: seq<SnapFile>, read: Bytes -> Bytes, o: Obj)
    requires |snap| == 1 && o in Collected(snap, read)
    ensures o.id == snap[0].id
  {
    hide Collected;
    CollectedExactly(snap, read);
    var i: nat :| Represents(snap, read, i, o);
  }

  /** So packing the second finds nothing to do: its only object seems to be there. */
  lemma NothingMissing(c: Codec, truth: Truth, first: Session, second: Session)
    requires BothScanned(c, truth, first, second)
    ensures Missing(Entries(c, AfterSession(c, EMPTY, first).log), Objects(second)) == []
  {
    hide *;
    var es := Entries(c, AfterSession(c, EMPTY, first).log);
    FirstKept(c, truth, first, second);
    SecondLine(c, truth, first, second);
    HasBytesHasId(c, es, FormatId(1), first.tree[0].data);
    ObjectsAre(second);
    forall o | o in Objects(second) ensures HasId(es, o.id) { ObjectIds(second.snap, Reader(second.tree), o); }
    NoneMissing(es, Objects(second));
  }

  lemma ObjectsAre(ses: Session)
    ensures Objects(ses) == Collected(ses.snap, Reader(ses.tree))
  {}

  lemma NoneStored(c: Codec, base: seq<Entry>, objs: seq<Obj>, e: Entry)
    requires Missing(base, objs) == []
    ensures !Stores(c, base, objs, e)
  {
    hide Missing;
  }

  lemma NothingStored(c: Codec, base: seq<Entry>, objs: seq<Obj>, t: Disk)
    requires GrownFrom(c, base, objs, t) && Missing(base, objs) == []
    ensures Entries(c, t.log) == base
  {
    hide Entries, Missing, Stores;
    var tail := Entries(c, t.log)[|base|..];
    assert tail == [] || tail[0] in tail;
    forall e ensures !Stores(c, base, objs, e) { NoneStored(c, base, objs, e); }
  }

  lemma BothLeave(c: Codec, truth: Truth, first: Session, second: Session)
    requires BothScanned(c, truth, first, second) && BothPacked(c, first, second)
    ensures var d := AfterSession(c, EMPTY, first);
            var t := PlayFrom(c, d, second.runs);
            Safe(c, t) && Terminated(t.log) && Entries(c, t.log) == Entries(c, d.log)
  {
    hide *;
    var d, objs := AfterSession(c, EMPTY, first), Objects(second);
    SecondLine(c, truth, first, second);
    FirstKept(c, truth, first, second);
    SettledReads(c, truth, d);
    NothingMissing(c, truth, first, second);
    BothRun(c, first, second);
    RunsGrow(c, d, second.runs, objs);
    NothingStored(c, Entries(c, d.log), objs, PlayFrom(c, d, second.runs));
    FinishedMeans(c, d, second);
    LastSnapshotRun(c, d, second.runs, objs);
    RunsGrow(c, d, second.runs[..|second.runs| - 1], objs);
    FinishedTerminated(c, PlayFrom(c, d, second.runs[..|second.runs| - 1]), second.runs[|second.runs| - 1]);
  }

  lemma BothRun(c: Codec, first: Session, second: Session)
    requires BothPacked(c, first, second)
    ensures SnapshotRuns(c, AfterSession(c, EMPTY, first), second.runs, Objects(second))
    ensures Finished(c, AfterSession(c, EMPTY, first), second)
  {}

  /** The second snapshot is restorable: its id has an entry. */
  lemma OneLineRestorable(c: Codec, truth: Truth, t: Disk, tree: seq<FileStat>, snap: seq<SnapFile>)
    requires Sound(c) && IndexSafe(c, Closed(t)) && TreeOk(truth, tree, NO_OTHERS)
    requires |tree| == |snap| == 1 && LineFor(snap[0], tree[0]) && HasId(Known(c, t), snap[0].id)
    ensures Restorable(c, t, snap, NO_OTHERS)
  {
    hide IndexSafe, TreeOk, Sound, Apart, Acceptable, Known, HasId;
    TreeShape(truth, tree, NO_OTHERS);
    assert FilePaths(snap) == TreePaths(tree);
  }

  lemma TerminatedKnown(c: Codec, t: Disk)
    requires Safe(c, t) && Terminated(t.log)
    ensures IndexSafe(c, Closed(t)) && Known(c, t) == Entries(c, t.log)
  {
    assert Closed(t) == t;
    hide IndexSafe, Entries;
  }

  lemma SecondRestorable(c: Codec, truth: Truth, first: Session, second: Session, t: Disk)
    requires BothScanned(c, truth, first, second) && Safe(c, t) && Terminated(t.log) && |first.tree| == 1
    requires HasBytes(c, Entries(c, t.log), FormatId(1), first.tree[0].data)
    ensures Restorable(c, t, second.snap, NO_OTHERS) && Known(c, t) == Entries(c, t.log)
  {
    hide *;
    SecondLine(c, truth, first, second);
    TerminatedKnown(c, t);
    HasBytesHasId(c, Entries(c, t.log), FormatId(1), first.tree[0].data);
    OneLineRestorable(c, truth, t, second.tree, second.snap);
  }

  lemma OneRestored(c: Codec, es: seq<Entry>, snap: seq<SnapFile>, dest: map<Bytes, Bytes>, data: Bytes)
    requires Sound(c) && |snap| == 1 && Restored(c, es, snap, dest) && HasBytes(c, es, snap[0].id, data)
    ensures dest == map[snap[0].path := data]
  {
    hide EntryFits, Sound;
    var e :| e in es && e.id == snap[0].id && EntryFits(c, e, data);
    SameDescription(c, e, data, dest[snap[0].path]);
    assert forall x :: x in dest <==> x == snap[0].path;
  }

  lemma SecondIsFirst(c: Codec, truth: Truth, first: Session, second: Session, es: seq<Entry>, dest: map<Bytes, Bytes>)
    requires BothScanned(c, truth, first, second) && Restored(c, es, second.snap, dest) && |first.tree| == 1
    requires HasBytes(c, es, FormatId(1), first.tree[0].data)
    ensures |second.tree| == 1 && dest == map[second.tree[0].path := first.tree[0].data]
  {
    hide BothScanned, Restored, HasBytes, FormatId, Sound, TreeOk;
    SecondLine(c, truth, first, second);
    OneRestored(c, es, second.snap, dest, first.tree[0].data);
  }

  /** Both snapshots were packed to the end, nothing crashed, and restore gives the second file the first one's bytes
      without a warning. */
  method RestoresOtherBytes(c: Codec, d: Disk, snap: seq<SnapFile>, ghost truth: Truth, ghost first: Session,
          ghost second: Session)
    returns (rc: int, dest: map<Bytes, Bytes>)
    requires BothScanned(c, truth, first, second) && BothPacked(c, first, second)
    requires d == PlayFrom(c, AfterSession(c, EMPTY, first), second.runs) && snap == second.snap
    ensures rc == 0 && dest == map[second.tree[0].path := first.tree[0].data]
    ensures dest[second.tree[0].path] != second.tree[0].data
  {
    hide *;
    FirstKept(c, truth, first, second);
    BothLeave(c, truth, first, second);
    SecondRestorable(c, truth, first, second, d);
    rc, dest := TpRestore(c, d, snap, NO_OTHERS);
    SecondIsFirst(c, truth, first, second, Known(c, d), dest);
    BothDiffer(c, truth, first, second);
  }

  lemma BothDiffer(c: Codec, truth: Truth, first: Session, second: Session)
    requires BothScanned(c, truth, first, second)
    ensures |first.tree| == |second.tree| == 1 && first.tree[0].data != second.tree[0].data
  {
    hide ValidSession, TreeOk, Scanned, Finished, Sound;
  }
}
